/** The session-name sanitiser: `characterAllowed` and `cleanID`. */
module SessionId {

  /** A rune that may appear in a session name: `[A-Za-z0-9_-]`. */
  predicate CharacterAllowed(c: char) {
    ('a' <= c <= 'z') || ('A' <= c <= 'Z') || ('0' <= c <= '9') || c == '-' || c == '_'
  }

  /** The runes from `first` to `last`, in order. */
  function RuneRange(first: char, last: char): (r: string)
    requires first <= last <= '\U{D7FF}'
  {
    seq(last as int - first as int + 1, i requires 0 <= i <= last as int - first as int => (first as int + i) as char)
  }

  /** The session alphabet spelled out: lower case, upper case, digits, '-' and '_'. */
  function SessionAlphabet(): string {
    RuneRange('a', 'z') + RuneRange('A', 'Z') + RuneRange('0', '9') + "-_"
  }

  /** `characterAllowed` accepts exactly the runes of the session alphabet. */
  lemma CharacterAllowedAlphabet(c: char)
    ensures CharacterAllowed(c) <==> c in SessionAlphabet()
  {
    var lower, upper, digits := RuneRange('a', 'z'), RuneRange('A', 'Z'), RuneRange('0', '9');
    assert SessionAlphabet() == lower + upper + digits + "-_";
    if 'a' <= c <= 'z' {
      assert lower[c as int - 'a' as int] == c;
    } else if 'A' <= c <= 'Z' {
      assert upper[c as int - 'A' as int] == c;
    } else if '0' <= c <= '9' {
      assert digits[c as int - '0' as int] == c;
    } else if c == '-' || c == '_' {
      assert "-_"[if c == '-' then 0 else 1] == c;
    }
  }

  /** What `cleanID` leaves at one position. */
  function CleanChar(c: char): char {
    if CharacterAllowed(c) then c else '_'
  }

  /** A session name: every rune is allowed. */
  predicate IsSessionName(s: string) {
    forall i :: 0 <= i < |s| ==> CharacterAllowed(s[i])
  }

  /** The name `cleanID` makes of `s`, rune by rune. */
  function CleanedID(s: string): (r: string)
    ensures |r| == |s|
    ensures forall i :: 0 <= i < |s| ==> r[i] == (if CharacterAllowed(s[i]) then s[i] else '_')
    ensures IsSessionName(r)
  {
    if s == [] then [] else [CleanChar(s[0])] + CleanedID(s[1..])
  }

  /**
   * `cleanID`: copies the runes of `id` into a fresh buffer and overwrites each
   * disallowed one with '_' in place.
   */
  method CleanID(id: string) returns (r: string)
    ensures r == CleanedID(id)
  {
    var runes := new char[|id|](i requires 0 <= i < |id| => id[i]);
    for i := 0 to runes.Length
      invariant forall k :: 0 <= k < i ==> runes[k] == CleanChar(id[k])
      invariant forall k :: i <= k < runes.Length ==> runes[k] == id[k]
    {
      if !CharacterAllowed(runes[i]) {
        runes[i] := '_';
      }
    }
    r := runes[..];
    assert forall k :: 0 <= k < |id| ==> r[k] == CleanedID(id)[k];
  }

  /** Cleaning a cleaned name changes nothing, because '_' is itself allowed. */
  lemma CleanedIDIdempotent(s: string)
    ensures CleanedID(CleanedID(s)) == CleanedID(s)
  {
    var once := CleanedID(s);
    assert forall i :: 0 <= i < |once| ==> CleanedID(once)[i] == once[i];
  }

  /** `cleanID` leaves a string unchanged exactly when it is already a session name. */
  lemma CleanedIDFixedIff(s: string)
    ensures CleanedID(s) == s <==> IsSessionName(s)
  {
    if IsSessionName(s) {
      assert forall i :: 0 <= i < |s| ==> CleanedID(s)[i] == s[i];
    }
  }

  /** Distinct base names can share a session: "a.b" and "a b" both become "a_b". */
  lemma CleanedIDNotInjective()
    ensures CleanedID("a.b") == CleanedID("a b") == "a_b"
  {
    assert CleanedID("a.b")[1] == '_';
    assert CleanedID("a b")[1] == '_';
  }
}
