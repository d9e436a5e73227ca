/** `removeIgnoredDirs`: dropping candidate paths that end with an ignore string. */
module IgnoreFilter {
  import opened GoStrings

  /** The predicate handed to `slices.DeleteFunc`: some ignore string is a suffix of `path`. */
  function IsIgnored(path: string, ignoreDirs: seq<string>): (b: bool)
    ensures b <==> exists i :: 0 <= i < |ignoreDirs| && HasSuffix(path, ignoreDirs[i])
  {
    if ignoreDirs == [] then false
    else HasSuffix(path, ignoreDirs[0]) || IsIgnored(path, ignoreDirs[1..])
  }

  /** The paths that survive the filter, in their original order. */
  function Kept(paths: seq<string>, ignoreDirs: seq<string>): (r: seq<string>)
    ensures |r| <= |paths|
    ensures forall p :: p in r <==> p in paths && !IsIgnored(p, ignoreDirs)
  {
    if paths == [] then []
    else (if IsIgnored(paths[0], ignoreDirs) then [] else [paths[0]]) + Kept(paths[1..], ignoreDirs)
  }

  /** `xs` is `ys` with some elements left out and the rest in the same order. */
  predicate IsSubsequence(xs: seq<string>, ys: seq<string>)
    decreases |ys|
  {
    if xs == [] then true
    else if ys == [] then false
    else if xs[0] == ys[0] then IsSubsequence(xs[1..], ys[1..])
    else IsSubsequence(xs, ys[1..])
  }

  /** Filtering a concatenation filters each part. */
  lemma {:induction false} KeptAppend(a: seq<string>, b: seq<string>, ignoreDirs: seq<string>)
    ensures Kept(a + b, ignoreDirs) == Kept(a, ignoreDirs) + Kept(b, ignoreDirs)
  {
    if a != [] {
      var head := if IsIgnored(a[0], ignoreDirs) then [] else [a[0]];
      assert (a + b)[0] == a[0];
      assert (a + b)[1..] == a[1..] + b;
      assert Kept(a + b, ignoreDirs) == head + Kept(a[1..] + b, ignoreDirs);
      KeptAppend(a[1..], b, ignoreDirs);
      assert head + (Kept(a[1..], ignoreDirs) + Kept(b, ignoreDirs))
          == (head + Kept(a[1..], ignoreDirs)) + Kept(b, ignoreDirs);
    } else {
      assert a + b == b;
    }
  }

  lemma {:induction false} SubsequenceOfTail(xs: seq<string>, y: string, ys: seq<string>)
    requires IsSubsequence(xs, ys)
    ensures IsSubsequence(xs, [y] + ys)
    decreases |ys|, 1
  {
    if xs != [] && xs[0] == y {
      // The greedy match takes y; xs[1..] must then be found in ys, which holds
      // because xs itself, and hence its tail, is found there.
      SubsequenceDropHead(xs, ys);
      assert ([y] + ys)[1..] == ys;
    } else if xs != [] {
      assert ([y] + ys)[1..] == ys;
    }
  }

  lemma {:induction false} SubsequenceDropHead(xs: seq<string>, ys: seq<string>)
    requires xs != [] && IsSubsequence(xs, ys)
    ensures IsSubsequence(xs[1..], ys)
    decreases |ys|, 0
  {
    if xs[0] == ys[0] {
      SubsequenceOfTail(xs[1..], ys[0], ys[1..]);
      assert [ys[0]] + ys[1..] == ys;
    } else {
      SubsequenceDropHead(xs, ys[1..]);
      SubsequenceOfTail(xs[1..], ys[0], ys[1..]);
      assert [ys[0]] + ys[1..] == ys;
    }
  }

  /** The filter keeps relative order: its result is a subsequence of its input. */
  lemma {:induction false} KeptIsSubsequence(paths: seq<string>, ignoreDirs: seq<string>)
    ensures IsSubsequence(Kept(paths, ignoreDirs), paths)
  {
    if paths != [] {
      KeptIsSubsequence(paths[1..], ignoreDirs);
      var rest := Kept(paths[1..], ignoreDirs);
      if IsIgnored(paths[0], ignoreDirs) {
        assert Kept(paths, ignoreDirs) == rest;
        SubsequenceOfTail(rest, paths[0], paths[1..]);
        assert [paths[0]] + paths[1..] == paths;
      } else {
        assert Kept(paths, ignoreDirs) == [paths[0]] + rest;
        assert ([paths[0]] + rest)[1..] == rest;
      }
    }
  }

  /** With no ignore strings nothing is removed. */
  lemma {:induction false} KeptWithoutIgnores(paths: seq<string>)
    ensures Kept(paths, []) == paths
  {
    if paths != [] {
      KeptWithoutIgnores(paths[1..]);
      assert [paths[0]] + paths[1..] == paths;
    }
  }

  /** An empty ignore string is a suffix of every path, so it removes every path. */
  lemma EmptyIgnoreRemovesAll(paths: seq<string>, ignoreDirs: seq<string>)
    requires "" in ignoreDirs
    ensures Kept(paths, ignoreDirs) == []
  {
  }

  /** Filtering twice is filtering once. */
  lemma {:induction false} KeptIdempotent(paths: seq<string>, ignoreDirs: seq<string>)
    ensures Kept(Kept(paths, ignoreDirs), ignoreDirs) == Kept(paths, ignoreDirs)
  {
    if paths != [] {
      KeptIdempotent(paths[1..], ignoreDirs);
      var head := if IsIgnored(paths[0], ignoreDirs) then [] else [paths[0]];
      KeptAppend(head, Kept(paths[1..], ignoreDirs), ignoreDirs);
      if head != [] {
        assert Kept(head, ignoreDirs) == head by {
          assert head[1..] == [];
        }
      }
    }
  }

  /** Filtering one more path appends it exactly when it is not ignored. */
  lemma KeptSnoc(paths: seq<string>, path: string, ignoreDirs: seq<string>)
    ensures Kept(paths + [path], ignoreDirs) ==
      Kept(paths, ignoreDirs) + (if IsIgnored(path, ignoreDirs) then [] else [path])
  {
    KeptAppend(paths, [path], ignoreDirs);
    assert [path][1..] == [];
  }

  /**
   * `slices.DeleteFunc(paths, IsIgnored)`: compacts the kept paths to the front of
   * `a`, in order, and returns how many there are. What is left in `a[n..]` is unspecified.
   */
  method RemoveIgnoredDirs(a: array<string>, ignoreDirs: seq<string>) returns (n: nat)
    modifies a
    ensures n <= a.Length
    ensures a[..n] == Kept(old(a[..]), ignoreDirs)
  {
    ghost var input := a[..];
    n := 0;
    for r := 0 to a.Length
      invariant n <= r
      invariant a[..n] == Kept(input[..r], ignoreDirs)
      invariant forall k :: r <= k < a.Length ==> a[k] == input[k]
    {
      var path := a[r];
      KeptSnoc(input[..r], path, ignoreDirs);
      assert input[..r + 1] == input[..r] + [path];
      if !IsIgnored(path, ignoreDirs) {
        a[n] := path;
        n := n + 1;
      }
    }
    assert input[..a.Length] == input;
  }
}
