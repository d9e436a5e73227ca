/** Slash-separated path helpers standing in for Go's `path.Join` and `path.Base`. */
module GoPath {

  /**
   * `path.Join(dir, name)` for a directory that is already clean and an entry name
   * read from it: the empty directory and "." contribute nothing, otherwise `name`
   * follows `dir` after exactly one slash. `path.Join` also cleans its result
   * (collapsing `//`, inner `.` and `..`); that cleaning is not modelled.
   */
  function Join(dir: string, name: string): (r: string)
    ensures (dir == "" || dir == ".") ==> r == name
    ensures dir != "" && dir != "." ==>
      |dir| <= |r| && r[..|dir|] == dir && |r| <= |dir| + 1 + |name|
      && |name| < |r| && r[|r| - |name|..] == name && r[|r| - |name| - 1] == '/'
    ensures dir != "" && dir != "." ==> |dir| + |name| <= |r|
    ensures dir != "" && dir != "." && dir[|dir| - 1] == '/' ==> |r| == |dir| + |name|
  {
    if dir == [] || dir == "." then name
    else if dir[|dir| - 1] == '/' then dir + name
    else dir + "/" + name
  }

  /** `p` without its trailing slashes. */
  function StripTrailingSlashes(p: string): (r: string)
    ensures |r| <= |p| && r == p[..|r|]
    ensures r == [] || r[|r| - 1] != '/'
    ensures forall i :: |r| <= i < |p| ==> p[i] == '/'
  {
    if p != [] && p[|p| - 1] == '/' then StripTrailingSlashes(p[..|p| - 1]) else p
  }

  /** What follows the last slash of `p` (all of `p` when it holds none). */
  function LastSegment(p: string): (r: string)
    ensures |r| <= |p| && r == p[|p| - |r|..]
    ensures '/' !in r
    ensures |r| == |p| || p[|p| - |r| - 1] == '/'
  {
    if p == [] || p[|p| - 1] == '/' then []
    else LastSegment(p[..|p| - 1]) + [p[|p| - 1]]
  }

  /**
   * `e` occurs in `p` at index `k`, right after a slash or at the start, and only
   * slashes follow it: `e` is the last element of `p`.
   */
  predicate IsLastElementAt(p: string, k: int, e: string) {
    0 <= k && k + |e| <= |p| && e == p[k..k + |e|] && (k == 0 || p[k - 1] == '/')
    && forall i :: k + |e| <= i < |p| ==> p[i] == '/'
  }

  /**
   * `path.Base`: the last element of `p` once trailing slashes are removed;
   * "." for the empty path and "/" for a path made only of slashes.
   */
  function Base(p: string): (r: string)
    ensures r != []
    ensures r == "/" || '/' !in r
    ensures p == [] ==> r == "."
    ensures r == "/" <==> p != [] && forall i :: 0 <= i < |p| ==> p[i] == '/'
    ensures p != [] && r != "/" ==> exists k :: IsLastElementAt(p, k, r)
  {
    if p == [] then "."
    else
      var stripped := StripTrailingSlashes(p);
      var last := LastSegment(stripped);
      var r := if last == [] then "/" else last;
      assert last == [] <==> stripped == [];
      assert r == "/" ==> last == [] by {
        assert last != [] ==> '/' !in r;
      }
      var k := |stripped| - |last|;
      assert last != [] ==> r == p[k..k + |r|] && (k > 0 ==> p[k - 1] == stripped[k - 1]);
      assert last != [] ==> IsLastElementAt(p, k, r);
      r
  }

  /** A name as a directory listing reports it: non-empty, with no slash. */
  predicate IsEntryName(name: string) {
    name != [] && '/' !in name
  }

  lemma NoSlashInInit(name: string)
    requires name != [] && '/' !in name
    ensures '/' !in name[..|name| - 1]
  {
    var init := name[..|name| - 1];
    forall i | 0 <= i < |init| ensures init[i] != '/' { assert init[i] == name[i]; }
  }

  /** Unfolds `LastSegment` once on a path that does not end with a slash. */
  lemma LastSegmentStep(p: string)
    requires p != [] && p[|p| - 1] != '/'
    ensures LastSegment(p) == LastSegment(p[..|p| - 1]) + [p[|p| - 1]]
  {
  }

  lemma {:induction false} LastSegmentAfterSlash(prefix: string, name: string)
    requires prefix == [] || prefix[|prefix| - 1] == '/'
    requires '/' !in name
    ensures LastSegment(prefix + name) == name
  {
    if name == [] {
      assert prefix + name == prefix;
    } else {
      var init, last := name[..|name| - 1], name[|name| - 1];
      var p := prefix + name;
      assert p == (prefix + init) + [last];
      NoSlashInInit(name);
      LastSegmentAfterSlash(prefix, init);
      LastSegmentStep(p);
      assert p[..|p| - 1] == prefix + init;
      assert init + [last] == name;
    }
  }

  /** The base name of a listed child is the entry's own name. */
  lemma BaseOfJoin(dir: string, name: string)
    requires IsEntryName(name)
    ensures Base(Join(dir, name)) == name
  {
    var p := Join(dir, name);
    var prefix := if dir == [] || dir == "." then "" else if dir[|dir| - 1] == '/' then dir else dir + "/";
    assert p == prefix + name;
    assert p[|p| - 1] == name[|name| - 1] != '/';
    assert StripTrailingSlashes(p) == p;
    LastSegmentAfterSlash(prefix, name);
  }
}
