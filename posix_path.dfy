/** The parts of Python's posixpath that the converter uses: basename,
    dirname and join, on '/'-separated strings. */
module PosixPath {

  predicate AllSlashes(s: string)
  {
    forall i :: 0 <= i < |s| ==> s[i] == '/'
  }

  /** p.rfind('/') + 1: the index just after the last '/', or 0 if none. */
  function SlashCut(p: string): (c: nat)
    ensures c <= |p|
    ensures c == 0 || p[c - 1] == '/'
    ensures forall i :: c <= i < |p| ==> p[i] != '/'
  {
    if |p| == 0 then 0
    else if p[|p| - 1] == '/' then |p|
    else SlashCut(p[..|p| - 1])
  }

  /** s.rstrip('/'): the longest prefix of s that does not end in '/'. */
  function RStripSlashes(s: string): (r: string)
    ensures |r| <= |s| && r == s[..|r|]
    ensures r == "" || r[|r| - 1] != '/'
    ensures AllSlashes(s[|r|..])
  {
    if |s| > 0 && s[|s| - 1] == '/' then
      var r := RStripSlashes(s[..|s| - 1]);
      assert s[|r|..] == s[..|s| - 1][|r|..] + ['/'];
      r
    else s
  }

  /** os.path.basename. */
  function Basename(p: string): string
  {
    p[SlashCut(p)..]
  }

  /** os.path.dirname: the head before the last '/', trailing slashes
      removed unless the head is made of slashes only. */
  function Dirname(p: string): string
  {
    var head := p[..SlashCut(p)];
    if head != "" && !AllSlashes(head) then RStripSlashes(head) else head
  }

  /** os.path.join with two arguments. */
  function Join(a: string, b: string): string
  {
    if |b| > 0 && b[0] == '/' then b
    else if a == "" || a[|a| - 1] == '/' then a + b
    else a + "/" + b
  }

  /** The shapes a dirname can take: empty, slashes only, or not ending in '/'. */
  predicate IsDirname(d: string)
  {
    d == "" || AllSlashes(d) || d[|d| - 1] != '/'
  }

  /** SlashCut is the only index with its three properties. */
  lemma CutUnique(p: string, c: nat)
    requires c <= |p|
    requires c == 0 || p[c - 1] == '/'
    requires forall i :: c <= i < |p| ==> p[i] != '/'
    ensures SlashCut(p) == c
  {
  }

  /** Every dirname has one of the shapes of IsDirname. */
  lemma DirnameShape(p: string)
    ensures IsDirname(Dirname(p))
  {
    var head := p[..SlashCut(p)];
    if head != "" && !AllSlashes(head) {
      var r := RStripSlashes(head);
      assert r != "";
    }
  }

  /** A path is its dirname, then slashes, then its basename. */
  lemma Decompose(p: string)
    ensures |Dirname(p)| <= SlashCut(p) && |Basename(p)| == |p| - SlashCut(p)
    ensures p == Dirname(p) + p[|Dirname(p)|..SlashCut(p)] + Basename(p)
    ensures AllSlashes(p[|Dirname(p)|..SlashCut(p)])
  {
    var c := SlashCut(p);
    var head := p[..c];
    var d := Dirname(p);
    if head != "" && !AllSlashes(head) {
      assert p[|d|..c] == head[|d|..];
    } else {
      assert p[|d|..c] == [];
    }
    assert p == p[..|d|] + p[|d|..c] + p[c..];
  }

  /** RStripSlashes is the only prefix with its three properties. */
  lemma {:induction false} RStripUnique(s: string, r: string)
    requires |r| <= |s| && r == s[..|r|]
    requires r == "" || r[|r| - 1] != '/'
    requires AllSlashes(s[|r|..])
    ensures RStripSlashes(s) == r
    decreases |s|
  {
    if |s| > |r| {
      assert s[|s| - 1] == s[|r|..][|s| - 1 - |r|];
      assert s[..|s| - 1][|r|..] == s[|r|..|s| - 1];
      RStripUnique(s[..|s| - 1], r);
    } else {
      assert s == r;
    }
  }

  /** The dirname is the only prefix that is followed by slashes alone up to
      the basename and either is empty, is slashes alone and reaches the
      basename, or does not end in '/'. */
  lemma DirnameUnique(p: string, d: string)
    requires |d| + |Basename(p)| <= |p|
    requires p == d + p[|d|..|p| - |Basename(p)|] + Basename(p)
    requires AllSlashes(p[|d|..|p| - |Basename(p)|])
    requires (|d| + |Basename(p)| == |p| && AllSlashes(d)) || (d != "" && d[|d| - 1] != '/')
    ensures d == Dirname(p)
  {
    var c := SlashCut(p);
    var head := p[..c];
    assert |Basename(p)| == |p| - c;
    assert d == p[..|d|];
    assert head[..|d|] == d;
    assert head[|d|..] == p[|d|..c];
    if d != "" && d[|d| - 1] != '/' {
      assert head[|d| - 1] != '/';
      RStripUnique(head, d);
    } else {
      assert head == d;
    }
  }

  /** Joining a directory with a slash-free name yields that name as basename. */
  lemma JoinBasename(d: string, n: string)
    requires '/' !in n
    ensures Basename(Join(d, n)) == n
  {
    var j := Join(d, n);
    if d == "" || d[|d| - 1] == '/' {
      assert j == d + n;
      CutUnique(j, |d|);
      assert j[|d|..] == n;
    } else {
      assert j == d + "/" + n;
      CutUnique(j, |d| + 1);
      assert j[|d| + 1..] == n;
    }
  }

  /** Joining a dirname with a slash-free name stays in that directory. */
  lemma JoinDirname(d: string, n: string)
    requires IsDirname(d)
    requires '/' !in n
    ensures Dirname(Join(d, n)) == d
  {
    var j := Join(d, n);
    if d == "" {
      assert j == n;
      CutUnique(j, 0);
    } else if d[|d| - 1] == '/' {
      assert j == d + n;
      CutUnique(j, |d|);
      assert j[..|d|] == d;
    } else {
      assert j == d + "/" + n;
      CutUnique(j, |d| + 1);
      var head := j[..|d| + 1];
      assert head == d + "/";
      assert !AllSlashes(head) by { assert head[|d| - 1] != '/'; }
      assert head[..|head| - 1] == d;
    }
  }
}
