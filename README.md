# tsm — a verified model of the tmux session manager

`tsm` lets a user pick a project directory with `fzf` and then attaches to, or
switches to, a tmux session named after that directory. It creates the session
first if it does not exist yet. `tsm 0` does the same for the "zero session",
which is named `0` and rooted in the home directory.

This project models the logic of `main.go` in Dafny and proves properties of it:

- **Session-name sanitiser** (`SessionId`). `cleanID` copies the runes of a base name into
  a buffer and overwrites every rune outside `[A-Za-z0-9_-]` with `_`. The model is
  an array method, proved equal to the specification function `CleanedID`. That
  function keeps the length, maps every allowed rune to itself and every other rune
  to `_`, and produces only allowed runes. It is idempotent, and it fixes a string
  exactly when the string is already a session name. It is not injective.
- **Ignore filter** (`IgnoreFilter`). `removeIgnoredDirs` uses `slices.DeleteFunc` to
  remove every path that has one of the configured ignore strings as a suffix.
  This is a plain suffix test, not a glob. The model compacts an array in place and is
  proved equal to the order-preserving filter `Kept`. `Kept` holds a path exactly when
  the input holds it and no ignore string is a suffix of it. It is a subsequence of its
  input and is idempotent. It distributes over concatenation and removes nothing
  without ignore strings. An empty ignore string removes every path.
- **Directory listing** (`Listing`). `listDirectories` reads each base directory in
  turn and stops at the first one it cannot read. It appends `base/name` for every
  sub-directory entry, in entry order, and then filters. The file system is a map
  from directory to entries. A directory that is missing from the map, or marked
  unreadable, fails to read. The nested-loop method is proved equal to
  `ListDirectoriesSpec`. Lemmas show three things: a failure names the first
  unreadable base directory; a success holds exactly the joined sub-directory
  names; and the base name of every listed path is its entry's name.
- **Session flow** (`Sessions`). `fzf` and `tmux` are not run. Every external
  command the program would start is recorded as a `Command`, and a `World` value
  decides how each one answers. That value holds the directories, the selector's
  output or failure, the existing sessions, the tmux commands that fail, whether
  `TMUX` is set, and the home directory. The specification functions
  (`TsmSpec`, `SessionSwitchSpec`, `SwitchToZeroSpec`, `TargetDirSpec` and
  `OpenSessionSpec`) give the ordered command trace and the final outcome. The
  class `Runner` holds the command log. Its methods step through the handlers as
  `main.go` does, and each is proved to append exactly the specified trace. The
  lemmas cover these cases:
  - No selection (the selector failed or printed only white space) issues no tmux
    command and is not an error.
  - `new-session` is issued exactly when the session does not exist, and always
    before the switch.
  - At most one of `switch-client` (when `TMUX` is set) and `attach` (when it is
    not) is issued. One of them is issued unless creating the session failed.
  - Every tmux command names the sanitised session, and the zero flow uses `0`.
  - A configuration or listing error stops the run before any external command.
  - When there is at least one candidate and none holds a newline, splitting the
    selector's input at newlines gives back exactly the candidates.

Go's library functions that the logic depends on are modelled in `GoStrings` and
`GoPath`:
- `strings.HasSuffix`, `strings.TrimSpace` (with `unicode.IsSpace`'s set of white space)
  and `strings.Join`;
- `path.Base`, written out in full;
- `path.Join`, simplified.

Three details of the code that the model keeps:
- The configuration is read before the arguments are looked at, so a broken
  configuration also stops `tsm 0`.
- When the default configuration cannot be written, `readConfig` returns an
  error, and the run ends with it.
- `tsm 0` is chosen by the first positional argument alone. Any further
  arguments are ignored.

## Model

| member | source | states |
|---|---|---|
| `SessionId.CharacterAllowedAlphabet` | main.go:164-170 | `characterAllowed` accepts exactly the runes of the spelled-out alphabet a-z, A-Z, 0-9, '-' and '_' |
| `SessionId.CharacterAllowed` | main.go:164-170 | the definition of an allowed rune; `CharacterAllowedAlphabet` states it against the spelled-out alphabet |
| `SessionId.CleanedID` | main.go:164-180 | the sanitised name has exactly as many runes as the input; at each position an allowed rune is kept and any other becomes '_'; every rune of the result is in `[A-Za-z0-9_-]` |
| `SessionId.CleanID` | main.go:171-180 | overwriting the disallowed runes of a copied rune buffer in place yields exactly `CleanedID` of the input |
| `SessionId.CleanedIDIdempotent` | main.go:164-180 | sanitising a sanitised name changes nothing |
| `SessionId.CleanedIDFixedIff` | main.go:171-180 | sanitising leaves a string unchanged if and only if all its runes are allowed |
| `SessionId.CleanedIDNotInjective` | main.go:171-180 | two different base names ("a.b" and "a b") get the same session name "a_b" |
| `IgnoreFilter.IsIgnored` | main.go:222-229 | the deletion predicate holds if and only if some configured ignore string is a suffix of the path |
| `IgnoreFilter.Kept` | main.go:221-231 | the filtered list is no longer than the input and contains a path if and only if the input contains it and no ignore string is its suffix |
| `IgnoreFilter.RemoveIgnoredDirs` | main.go:221-231 | compacting the array in place leaves exactly `Kept` of the original contents in its first n slots |
| `IgnoreFilter.KeptAppend` | main.go:222-230 | filtering a concatenation is the concatenation of the filtered parts |
| `IgnoreFilter.KeptIsSubsequence` | main.go:222-230 | the filter keeps relative order: its result is a subsequence of its input |
| `IgnoreFilter.KeptWithoutIgnores` | main.go:221-231 | with no ignore strings the output equals the input |
| `IgnoreFilter.EmptyIgnoreRemovesAll` | main.go:223-225 | an empty ignore string removes every path |
| `IgnoreFilter.KeptIdempotent` | main.go:221-231 | filtering twice gives the same list as filtering once |
| `GoStrings.TrimLeft` | main.go:198 | the result is a suffix of the input, everything dropped is white space, and it does not start with white space |
| `GoStrings.TrimRight` | main.go:198 | the result is a prefix of the input, everything dropped is white space, and it does not end with white space |
| `GoStrings.TrimSpace` | main.go:198 | the trimmed selection is a slice of the output with only white space before and after it; it is empty if and only if the output was all white space, and otherwise starts and ends with a non-space |
| `GoStrings.HasSuffixIff` | main.go:224 | the suffix test used by the ignore filter holds exactly when the path is some prefix followed by the ignore string |
| `GoStrings.HasSuffix` | main.go:224 | `strings.HasSuffix` as a definition: the ignore string is no longer than the path and equals its tail; its meaning is stated by `HasSuffixIff` |
| `GoStrings.JoinLines` | main.go:190 | the selector's input begins with the first candidate and ends with the last, and a newline follows the first when there are more; `SplitJoinLines` is its full partner |
| `GoStrings.SplitJoinLines` | main.go:190 | splitting the newline-joined candidate list at newlines gives back the candidates, when there is at least one and none holds a newline |
| `GoPath.StripTrailingSlashes` | main.go:112 | the result is a prefix of the path, everything dropped is '/', and it does not end with '/' |
| `GoPath.LastSegment` | main.go:112 | the result is the slash-free tail of the path that starts right after its last '/' |
| `GoPath.Base` | main.go:112 | the base name is never empty and "." for the empty path; it is "/" exactly when the path is made only of slashes, and otherwise it is the last element: a slash-free piece of the path that starts the path or follows a slash, and is followed only by slashes |
| `GoPath.Join` | main.go:214 | joining with an empty or "." base gives the name; otherwise the result is the base, then exactly one slash (the base's own trailing slash, or one added), then the name, with no overlap between base and name |
| `GoPath.BaseOfJoin` | main.go:214 | the base name of `base` joined with an entry name is that entry name |
| `Listing.Children` | main.go:209-215 | the paths added for one base directory are no more than its entries, and are exactly the joined names of its directory entries |
| `Listing.ChildrenAppend` | main.go:209-215 | the paths added for a concatenation of entry lists are those of each part in turn |
| `Listing.CandidatesAppend` | main.go:203-216 | listing a concatenation of base-directory lists is listing each part in turn, with the first error winning |
| `Listing.CandidatesFailure` | main.go:203-207 | the listing fails if and only if some base directory cannot be read, and the error names the first such directory, every earlier one having been read |
| `Listing.CandidatesMembers` | main.go:201-216 | a successful unfiltered listing holds exactly the joined names of the directory entries of the base directories |
| `Listing.Candidates` | main.go:201-216 | the reference definition of the loops: each base directory's children in turn, or the error of the first unreadable one; `CandidatesFailure`, `CandidatesMembers` and `CandidatesAppend` state its properties |
| `Listing.ListDirectoriesSpec` | main.go:201-219 | the reference definition of `listDirectories`: the listing error, or `Kept` of the candidates; the `Kept` lemmas state what survives |
| `Listing.ListDirectories` | main.go:201-219 | the nested loops with early return and the final filter yield exactly the specification: the first read error, or the filtered children of each base in turn |
| `Listing.ListedBaseIsEntryName` | main.go:209-214 | every listed path is a base directory joined with the name of one of its sub-directory entries, and its base name is that entry's name |
| `Sessions.SwitchCommand` | main.go:242-256 | the terminal is connected by switch-client exactly when TMUX is set, and by attach otherwise, for the given session |
| `Sessions.ReadConfig` | main.go:68-93 | loading succeeds if and only if the file parses, or it is missing and the default can be written; a missing file gives empty base and ignore lists |
| `Sessions.OpenSessionSpec` | main.go:114-126 | the reference trace of the create-then-switch step; the `OpenSession*` lemmas state its properties |
| `Sessions.TargetDirSpec` | main.go:182-199 | the reference trace of `getTargetDir`: no command and the listing error, or the selector call with the trimmed choice ("" when the selector failed) |
| `Sessions.SessionSwitchSpec` | main.go:104-127 | the reference trace of `handleSessionSwitch`; `SessionSwitchListingFails`, `SessionSwitchNoSelection` and `SessionSwitchSelected` state its properties |
| `Sessions.SwitchToZeroSpec` | main.go:129-150 | the reference trace of `handleSwitchToZero`; `SwitchToZeroUsesZero` states its properties |
| `Sessions.TsmSpec` | main.go:41-61 | the reference trace of `run`; `TsmConfigFailure` states its error case |
| `Sessions.OpenSessionCreatesIff` | main.go:114-119 | new-session is issued if and only if the session does not exist, and then with the chosen id and directory |
| `Sessions.OpenSessionOrder` | main.go:114-126 | at most three commands: a single has-session first, new-session (if any) second, and the one switch or attach last; the switch is issued if and only if the session existed or was created |
| `Sessions.OpenSessionSwitchKind` | main.go:242-248 | any switch command issued is switch-client when TMUX is set and attach otherwise |
| `Sessions.OpenSessionNamesId` | main.go:112-121 | every tmux command issued names the session id |
| `Sessions.OpenSessionOutcome` | main.go:114-126 | the step succeeds if and only if the session existed or was created and the switch succeeded |
| `Sessions.SessionSwitchListingFails` | main.go:182-186 | an unreadable base directory ends the switcher with that error before any external command |
| `Sessions.SessionSwitchNoSelection` | main.go:104-110 | a failed selector or an all-white-space choice issues only the selector and ends without error |
| `Sessions.SessionSwitchSelected` | main.go:104-126 | for a choice, the selector is given the candidates one per line, the session id is non-empty and sanitised, and the rest of the run is the create-then-switch step for it |
| `Sessions.SwitchToZeroUsesZero` | main.go:129-148 | the zero flow fails with no command without a home directory; otherwise it names only session "0" and creates it in the home directory if and only if it is missing |
| `Sessions.TsmConfigFailure` | main.go:41-61 | a configuration that cannot be loaded ends the run with its error before any external command, in both flows |
| `Sessions.Runner.RunCommand` | main.go:258-272 | starting a command appends it to the log and reports its exit status |
| `Sessions.Runner.SessionExists` | main.go:233-236 | the probe appends has-session and reports whether the session exists; a failing probe reads as absent |
| `Sessions.Runner.SwitchToSession` | main.go:242-256 | appends the one switch-client or attach command and returns its outcome |
| `Sessions.Runner.OpenSession` | main.go:114-126 | appends exactly the create-then-switch trace and returns its outcome |
| `Sessions.Runner.GetTargetDir` | main.go:182-199 | appends the selector call (if the listing succeeded) and returns the trimmed choice, "" when the selector failed, or the listing error |
| `Sessions.Runner.HandleSessionSwitch` | main.go:104-127 | appends exactly the switcher's trace and returns its outcome |
| `Sessions.Runner.HandleSwitchToZero` | main.go:129-150 | appends exactly the zero flow's trace and returns its outcome |
| `Sessions.Runner.Execute` | main.go:41-61 | loads the configuration and dispatches on the first argument, appending exactly the run's trace |

## Left out

- Flag parsing and the usage text (main.go:17-32, 42-43): the first positional argument is a parameter of `Execute`.
- Locating the configuration directory, JSON encoding and decoding, and reading and writing the file (main.go:68-102) are abstract cases of `ConfigFile`. For example, one case is "missing, and writing the default succeeds".
- Printing the error and exiting with status 1 (main.go:34-39): the run's `Outcome` stands for it.
- Starting processes and wiring their standard streams (main.go:152-162, 233-272) are replaced by the command log and the `World` oracle. A `World` fixes each tmux command's result for the whole run, so a created session is not observed by later commands of the same run. The selector's output is arbitrary text, not necessarily one of the candidates.
- How tmux resolves `-t` targets (for example, prefix matching of session names) is outside the program and not modelled.
- `os.ReadDir`, `os.UserHomeDir` and `os.LookupEnv("TMUX")` are inputs: the `fs` map, `home` and `insideTmux` fields of `World`.
- GoPath.Join: does not clean its result as `path.Join` does. It treats the base directories `""` and `.` as Go does, but it does not collapse `//`, inner `.` or `..` segments. It matches Go for a clean base directory and an entry name from a listing.
- IgnoreFilter.RemoveIgnoredDirs: says nothing about the slots past the new length. Whether `slices.DeleteFunc` zeroes them depends on the Go release.
- UTF-8 decoding in `[]rune(id)`, where invalid bytes become U+FFFD, is not modelled: strings are sequences of Unicode scalar values.
