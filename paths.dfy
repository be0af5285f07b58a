/**
  The slash-separated paths the tree walker builds. The walker keeps the path of
  the innermost open tree in a string and changes it with two operations of Go's
  path package: Join(base, name) when it enters a subtree, and Split followed by
  Clean when it leaves one. Both are modelled here for paths whose segments are
  entry names, where Clean has nothing to remove; Split is their inverse.
 */
module Paths {
  import opened Objects

  /** No leading or trailing separator and no empty segment. */
  predicate WellFormed(p: string) {
    p == "" ||
    (p[0] != '/' && p[|p| - 1] != '/' &&
     forall i, j :: 0 <= i < j < |p| && p[i] == '/' && p[j] == '/' ==> i + 1 < j)
  }

  /** Index of the last separator in p, or -1 when there is none. */
  function LastSlash(p: string): (k: int)
    ensures -1 <= k < |p|
    ensures k >= 0 ==> p[k] == '/'
    ensures forall j :: k < j < |p| ==> p[j] != '/'
  {
    if p == "" then -1
    else if p[|p| - 1] == '/' then |p| - 1
    else LastSlash(p[..|p| - 1])
  }

  /** path.Join(base, name) for a base built by this module and an entry name. */
  function JoinName(base: string, name: Name): string {
    if base == "" then name else base + "/" + name
  }

  /**
    The directory part of path.Split, with its trailing separator removed by
    path.Clean: everything before the last separator, or "" when there is none.
   */
  function Dir(p: string): (d: string)
    ensures |d| <= |p| && p[..|d|] == d
    ensures LastSlash(p) < 0 ==> d == ""
    ensures LastSlash(p) >= 0 ==> |d| < |p| && p[|d|] == '/' && forall j :: |d| < j < |p| ==> p[j] != '/'
  {
    var k := LastSlash(p);
    if k < 0 then "" else p[..k]
  }

  /** The path of a sequence of entry names, root first. */
  function Join(segs: seq<Name>): (p: string)
    ensures (p == "") == (segs == [])
  {
    if segs == [] then "" else JoinName(Join(segs[..|segs| - 1]), segs[|segs| - 1])
  }

  /** Every joined path is well formed: entry names hold no separator and are never empty. */
  lemma {:induction false} JoinWellFormed(segs: seq<Name>)
    ensures WellFormed(Join(segs))
  {
    if segs != [] {
      var q, n := Join(segs[..|segs| - 1]), segs[|segs| - 1];
      JoinWellFormed(segs[..|segs| - 1]);
      assert n[0] != '/' && n[|n| - 1] != '/';
    }
  }

  /** The segments of a path, the inverse of Join. */
  function Split(p: string): (segs: seq<string>)
  {
    if p == "" then []
    else
      var k := LastSlash(p);
      if k < 0 then [p] else Split(p[..k]) + [p[k + 1..]]
  }

  lemma LastSlashOfJoinName(base: string, n: Name)
    requires base != ""
    ensures LastSlash(JoinName(base, n)) == |base|
  {
    var p := base + "/" + n;
    assert p[|base|] == '/';
  }

  /** Leaving a subtree undoes entering it: Split-then-Clean of Join(base, n) gives base back. */
  lemma DirJoinName(base: string, n: Name)
    ensures Dir(JoinName(base, n)) == base
  {
    if base != "" {
      LastSlashOfJoinName(base, n);
      assert (base + "/" + n)[..|base|] == base;
    }
  }

  /** The path of one more segment is the old path joined with that segment. */
  lemma JoinSnoc(segs: seq<Name>, n: Name)
    ensures Join(segs + [n]) == JoinName(Join(segs), n)
  {
    assert (segs + [n])[..|segs|] == segs;
  }

  /** Splitting a joined path gives back its segments. */
  lemma {:induction false} SplitJoin(segs: seq<Name>)
    ensures Split(Join(segs)) == segs
  {
    if segs != [] {
      var init, n := segs[..|segs| - 1], segs[|segs| - 1];
      assert segs == init + [n];
      JoinSnoc(init, n);
      var q := Join(init);
      if q != "" {
        LastSlashOfJoinName(q, n);
        var p := q + "/" + n;
        assert p[..|q|] == q && p[|q| + 1..] == n;
        SplitJoin(init);
      }
    }
  }
}
