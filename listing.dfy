/** `listDirectories`: the candidate paths offered to the selector. */
module Listing {
  import opened Wrappers
  import opened GoPath
  import opened IgnoreFilter
  import opened SessionId

  /** The configuration file's contents: `base_dirs` and `ignore_dirs`. */
  datatype Config = Config(baseDirs: seq<string>, ignoreDirs: seq<string>)

  /** One entry of a directory as `os.ReadDir` reports it. */
  datatype Entry = Entry(name: string, isDir: bool)

  /** What reading one directory gives: its entries in order, or an error. */
  datatype DirContents = Entries(entries: seq<Entry>) | Unreadable

  /** The file system as the program sees it; a directory missing from the map cannot be read. */
  type FileSystem = map<string, DirContents>

  datatype ListError = ReadDirFailed(dir: string)

  /** `os.ReadDir(dir)`. */
  function ReadDir(fs: FileSystem, dir: string): DirContents {
    if dir in fs then fs[dir] else Unreadable
  }

  /** Every name a listing reports is an entry name (non-empty, without a slash). */
  predicate WellFormed(fs: FileSystem) {
    forall dir, k :: dir in fs && fs[dir].Entries? && 0 <= k < |fs[dir].entries| ==>
      IsEntryName(fs[dir].entries[k].name)
  }

  /** The joined paths of the sub-directories among `entries`, in entry order. */
  function Children(base: string, entries: seq<Entry>): (r: seq<string>)
    ensures |r| <= |entries|
    ensures forall p :: p in r <==> exists e :: e in entries && e.isDir && p == Join(base, e.name)
  {
    if entries == [] then []
    else
      var e := entries[0];
      assert forall x :: x in entries <==> x == e || x in entries[1..];
      (if e.isDir then [Join(base, e.name)] else []) + Children(base, entries[1..])
  }

  /** The paths of `first` followed by those of `rest`, or the first error. */
  function Concat(first: Result<seq<string>, ListError>, rest: Result<seq<string>, ListError>): Result<seq<string>, ListError> {
    match first
    case Failure(err) => Failure(err)
    case Success(p) =>
      match rest
      case Failure(err) => Failure(err)
      case Success(q) => Success(p + q)
  }

  /** The unfiltered candidates: each base directory's children in turn, or the first read error. */
  function Candidates(baseDirs: seq<string>, fs: FileSystem): Result<seq<string>, ListError> {
    if baseDirs == [] then Success([])
    else
      match ReadDir(fs, baseDirs[0])
      case Unreadable => Failure(ReadDirFailed(baseDirs[0]))
      case Entries(es) => Concat(Success(Children(baseDirs[0], es)), Candidates(baseDirs[1..], fs))
  }

  /** What `listDirectories` returns: the candidates with the ignored paths removed. */
  function ListDirectoriesSpec(config: Config, fs: FileSystem): Result<seq<string>, ListError> {
    match Candidates(config.baseDirs, fs)
    case Failure(err) => Failure(err)
    case Success(paths) => Success(Kept(paths, config.ignoreDirs))
  }

  lemma {:induction false} ChildrenAppend(base: string, a: seq<Entry>, b: seq<Entry>)
    ensures Children(base, a + b) == Children(base, a) + Children(base, b)
  {
    if a == [] {
      assert a + b == b;
    } else {
      var head := if a[0].isDir then [Join(base, a[0].name)] else [];
      assert (a + b)[0] == a[0];
      assert (a + b)[1..] == a[1..] + b;
      assert Children(base, a + b) == head + Children(base, a[1..] + b);
      ChildrenAppend(base, a[1..], b);
      assert head + (Children(base, a[1..]) + Children(base, b))
          == (head + Children(base, a[1..])) + Children(base, b);
    }
  }

  lemma {:induction false} CandidatesAppend(xs: seq<string>, ys: seq<string>, fs: FileSystem)
    ensures Candidates(xs + ys, fs) == Concat(Candidates(xs, fs), Candidates(ys, fs))
  {
    if xs == [] {
      assert xs + ys == ys;
      match Candidates(ys, fs)
      case Failure(_) =>
      case Success(q) => assert [] + q == q;
    } else {
      assert (xs + ys)[1..] == xs[1..] + ys;
      assert (xs + ys)[0] == xs[0];
      CandidatesAppend(xs[1..], ys, fs);
      match Candidates(xs[1..], fs)
      case Failure(_) =>
      case Success(p) =>
        match Candidates(ys, fs)
        case Failure(_) =>
        case Success(q) =>
          match ReadDir(fs, xs[0])
          case Unreadable =>
          case Entries(es) => assert Children(xs[0], es) + (p + q) == (Children(xs[0], es) + p) + q;
    }
  }

  /**
   * The listing fails exactly when some base directory cannot be read, and the
   * error names the first such directory.
   */
  lemma {:induction false} CandidatesFailure(baseDirs: seq<string>, fs: FileSystem)
    ensures Candidates(baseDirs, fs).Failure? <==>
      exists i :: 0 <= i < |baseDirs| && ReadDir(fs, baseDirs[i]).Unreadable?
    ensures Candidates(baseDirs, fs).Failure? ==>
      exists i :: 0 <= i < |baseDirs| && ReadDir(fs, baseDirs[i]).Unreadable?
        && Candidates(baseDirs, fs).error == ReadDirFailed(baseDirs[i])
        && forall j :: 0 <= j < i ==> ReadDir(fs, baseDirs[j]).Entries?
  {
    if baseDirs != [] {
      CandidatesFailure(baseDirs[1..], fs);
      if ReadDir(fs, baseDirs[0]).Entries? && Candidates(baseDirs, fs).Failure? {
        var i :| 0 <= i < |baseDirs| - 1 && ReadDir(fs, baseDirs[1..][i]).Unreadable?
          && Candidates(baseDirs[1..], fs).error == ReadDirFailed(baseDirs[1..][i])
          && forall j :: 0 <= j < i ==> ReadDir(fs, baseDirs[1..][j]).Entries?;
        assert forall j :: 0 <= j < i + 1 ==> ReadDir(fs, baseDirs[j]).Entries? by {
          forall j | 0 <= j < i + 1 ensures ReadDir(fs, baseDirs[j]).Entries? {
            if j > 0 { assert baseDirs[j] == baseDirs[1..][j - 1]; }
          }
        }
        assert baseDirs[i + 1] == baseDirs[1..][i];
      }
      if exists i :: 0 <= i < |baseDirs| && ReadDir(fs, baseDirs[i]).Unreadable? {
        var i :| 0 <= i < |baseDirs| && ReadDir(fs, baseDirs[i]).Unreadable?;
        if i > 0 { assert baseDirs[1..][i - 1] == baseDirs[i]; }
      }
    }
  }

  /**
   * A successful listing holds exactly the joined sub-directory names of the
   * base directories.
   */
  lemma {:induction false} CandidatesMembers(baseDirs: seq<string>, fs: FileSystem, p: string)
    requires Candidates(baseDirs, fs).Success?
    ensures p in Candidates(baseDirs, fs).value <==>
      exists i, e :: 0 <= i < |baseDirs| && ReadDir(fs, baseDirs[i]).Entries?
        && e in ReadDir(fs, baseDirs[i]).entries && e.isDir && p == Join(baseDirs[i], e.name)
  {
    if baseDirs != [] {
      CandidatesMembers(baseDirs[1..], fs, p);
      var es := ReadDir(fs, baseDirs[0]).entries;
      if exists i, e :: (0 <= i < |baseDirs| && ReadDir(fs, baseDirs[i]).Entries?
        && e in ReadDir(fs, baseDirs[i]).entries && e.isDir && p == Join(baseDirs[i], e.name))
      {
        var i, e :| 0 <= i < |baseDirs| && ReadDir(fs, baseDirs[i]).Entries?
          && e in ReadDir(fs, baseDirs[i]).entries && e.isDir && p == Join(baseDirs[i], e.name);
        if i > 0 { assert baseDirs[1..][i - 1] == baseDirs[i]; }
      }
      if p in Candidates(baseDirs[1..], fs).value {
        var i, e :| 0 <= i < |baseDirs[1..]| && ReadDir(fs, baseDirs[1..][i]).Entries?
          && e in ReadDir(fs, baseDirs[1..][i]).entries && e.isDir && p == Join(baseDirs[1..][i], e.name);
        assert baseDirs[1..][i] == baseDirs[i + 1];
      }
    }
  }

  /**
   * `listDirectories`: reads each base directory in turn, stops at the first one
   * that cannot be read, appends the paths of its sub-directories, and finally
   * removes the ignored paths in place.
   */
  method ListDirectories(config: Config, fs: FileSystem) returns (r: Result<seq<string>, ListError>)
    ensures r == ListDirectoriesSpec(config, fs)
  {
    var baseDirs := config.baseDirs;
    var paths: seq<string> := [];
    for b := 0 to |baseDirs|
      invariant Candidates(baseDirs[..b], fs) == Success(paths)
    {
      var baseDir := baseDirs[b];
      assert baseDirs[..b + 1] == baseDirs[..b] + [baseDir];
      CandidatesAppend(baseDirs[..b], [baseDir], fs);
      assert [baseDir][1..] == [];
      var d := ReadDir(fs, baseDir);
      if d.Unreadable? {
        CandidatesAppend(baseDirs[..b + 1], baseDirs[b + 1..], fs);
        assert baseDirs[..b + 1] + baseDirs[b + 1..] == baseDirs;
        return Failure(ReadDirFailed(baseDir));
      }
      ghost var before := paths;
      for k := 0 to |d.entries|
        invariant paths == before + Children(baseDir, d.entries[..k])
      {
        var entry := d.entries[k];
        assert d.entries[..k + 1] == d.entries[..k] + [entry];
        ChildrenAppend(baseDir, d.entries[..k], [entry]);
        assert [entry][1..] == [];
        if !entry.isDir {
          continue;
        }
        paths := paths + [Join(baseDir, entry.name)];
      }
      assert d.entries[..|d.entries|] == d.entries;
      assert Candidates([baseDir], fs) == Success(Children(baseDir, d.entries)) by {
        assert Children(baseDir, d.entries) + [] == Children(baseDir, d.entries);
      }
    }
    assert baseDirs[..|baseDirs|] == baseDirs;
    var a := new string[|paths|](i requires 0 <= i < |paths| => paths[i]);
    assert a[..] == paths;
    var n := RemoveIgnoredDirs(a, config.ignoreDirs);
    r := Success(a[..n]);
  }

  /**
   * The base name of every listed path is the name of a sub-directory entry, so
   * its session is named after that entry.
   */
  lemma ListedBaseIsEntryName(config: Config, fs: FileSystem, p: string)
    requires WellFormed(fs)
    requires ListDirectoriesSpec(config, fs).Success?
    requires p in ListDirectoriesSpec(config, fs).value
    ensures exists i, e :: (0 <= i < |config.baseDirs| && ReadDir(fs, config.baseDirs[i]).Entries?
      && e in ReadDir(fs, config.baseDirs[i]).entries && e.isDir
      && p == Join(config.baseDirs[i], e.name) && Base(p) == e.name)
  {
    CandidatesMembers(config.baseDirs, fs, p);
    var i, e :| 0 <= i < |config.baseDirs| && ReadDir(fs, config.baseDirs[i]).Entries?
      && e in ReadDir(fs, config.baseDirs[i]).entries && e.isDir && p == Join(config.baseDirs[i], e.name);
    var k :| 0 <= k < |ReadDir(fs, config.baseDirs[i]).entries| && ReadDir(fs, config.baseDirs[i]).entries[k] == e;
    assert IsEntryName(e.name);
    BaseOfJoin(config.baseDirs[i], e.name);
  }
}
