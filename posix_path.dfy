/** The three functions of Python's `posixpath` (the `os.path` of a POSIX system) that the
    downloader applies to paths and URLs: `dirname`, two-argument `join` and `splitext`. Paths
    are plain strings; nothing here looks at a file system. */
module PosixPath {
  import opened Text

  const Sep: char := '/'
  const ExtSep: char := '.'

  /** `s.rfind(c)`: the index of the last `c` in `s`, or -1. */
  function RFind(s: string, c: char): (r: int)
    ensures -1 <= r < |s|
    ensures r >= 0 ==> s[r] == c
    ensures forall j :: r < j < |s| ==> s[j] != c
    decreases |s|
  {
    if |s| == 0 then -1
    else if s[|s| - 1] == c then |s| - 1
    else RFind(s[..|s| - 1], c)
  }

  predicate AllAre(s: string, c: char)
  {
    forall i :: 0 <= i < |s| ==> s[i] == c
  }

  /** `s.rstrip(c)` for a single character `c`. */
  function RStrip(s: string, c: char): (r: string)
    ensures StartsWith(s, r)
    ensures |r| > 0 ==> r[|r| - 1] != c
    ensures AllAre(s[|r|..], c)
    decreases |s|
  {
    if |s| > 0 && s[|s| - 1] == c then RStrip(s[..|s| - 1], c) else s
  }

  /** `posixpath.dirname(p)`: everything up to the last slash, with trailing slashes removed
      unless the head consists of slashes only. */
  function Dirname(p: string): (r: string)
    ensures |r| <= |p|
    ensures StartsWith(p, r)
  {
    var i := RFind(p, Sep) + 1;
    var head := p[..i];
    if head != "" && !AllAre(head, Sep) then RStrip(head, Sep) else head
  }

  /** `posixpath.join(a, b)`: an absolute `b` replaces `a`; otherwise `b` is appended after one
      slash, which is not doubled when `a` is empty or already ends with one. */
  function Join(a: string, b: string): (r: string)
    ensures EndsWith(r, b)
  {
    if StartsWith(b, [Sep]) then b
    else if a == "" || EndsWith(a, [Sep]) then a + b
    else a + [Sep] + b
  }

  /** Some character of `p[lo..hi]` is not a dot. */
  predicate NonDotIn(p: string, lo: int, hi: int)
    requires 0 <= lo && hi <= |p|
  {
    exists k :: lo <= k < hi && p[k] != ExtSep
  }

  /** `posixpath.splitext(p)`: the extension starts at the last dot of the last path component,
      provided that component has a character other than a dot before it (so `.bashrc` has no
      extension); otherwise the extension is empty. Returns `(root, ext)`. */
  function SplitExt(p: string): (r: (string, string))
    ensures r.0 + r.1 == p
    ensures r.1 == "" || (r.1[0] == ExtSep && forall i :: 0 <= i < |r.1| ==> r.1[i] != Sep)
  {
    var sepIndex := RFind(p, Sep);
    var dotIndex := RFind(p, ExtSep);
    if dotIndex > sepIndex && NonDotIn(p, sepIndex + 1, dotIndex) then
      assert p[..dotIndex] + p[dotIndex..] == p;
      (p[..dotIndex], p[dotIndex..])
    else
      (p, "")
  }

  /** `os.path.splitext(p)[1]` */
  function Ext(p: string): (e: string)
  {
    SplitExt(p).1
  }

  /** Characters that are not `c` appended after `x` do not move the last `c`. */
  lemma {:induction false} RFindIgnoresSuffix(x: string, c: char, t: string)
    requires forall i :: 0 <= i < |t| ==> t[i] != c
    ensures RFind(x + t, c) == RFind(x, c)
    decreases |t|
  {
    if t == [] {
      assert x + t == x;
    } else {
      var s := x + t;
      assert s[..|s| - 1] == x + t[..|t| - 1];
      assert s[|s| - 1] == t[|t| - 1];
      RFindIgnoresSuffix(x, c, t[..|t| - 1]);
    }
  }

  /** The extension is everything from the last dot, when that dot is in the last path
      component and follows a character that is neither a dot nor a slash: `splitext("a/b.jpg")`
      is `("a/b", ".jpg")`. */
  lemma ExtAfterLastDot(x: string, t: string)
    requires |x| > 0 && x[|x| - 1] != ExtSep && x[|x| - 1] != Sep
    requires forall i :: 0 <= i < |t| ==> t[i] != ExtSep && t[i] != Sep
    ensures SplitExt(x + [ExtSep] + t) == (x, [ExtSep] + t)
    ensures Ext(x + [ExtSep] + t) == [ExtSep] + t
  {
    var p := x + [ExtSep] + t;
    RFindAfterLast(x, ExtSep, t);
    assert p == x + ([ExtSep] + t);
    RFindIgnoresSuffix(x, Sep, [ExtSep] + t);
    assert RFind(p, Sep) < |x| - 1;
    assert p[|x| - 1] != ExtSep;
    assert NonDotIn(p, RFind(p, Sep) + 1, |x|);
    assert p[..|x|] == x;
    assert p[|x|..] == [ExtSep] + t;
  }

  /** A path with no slash at all, such as a bare relative directory name, has the empty
      string as its directory. */
  lemma DirnameWithoutSlash(p: string)
    requires forall i :: 0 <= i < |p| ==> p[i] != Sep
    ensures Dirname(p) == ""
  {
  }

  lemma {:induction false} RStripAppended(s: string, c: char)
    ensures RStrip(s + [c], c) == RStrip(s, c)
  {
    assert (s + [c])[..|s + [c]| - 1] == s;
  }

  lemma {:induction false} RFindAfterLast(x: string, c: char, leaf: string)
    requires forall i :: 0 <= i < |leaf| ==> leaf[i] != c
    ensures RFind(x + [c] + leaf, c) == |x|
    decreases |leaf|
  {
    var s := x + [c] + leaf;
    if leaf != [] {
      var shorter := leaf[..|leaf| - 1];
      assert s[..|s| - 1] == x + [c] + shorter;
      assert s[|s| - 1] == leaf[|leaf| - 1];
      RFindAfterLast(x, c, shorter);
    }
  }

  /** The directory of `x/leaf`, for a leaf without slashes, is `x` without trailing slashes. */
  lemma DirnameAfterSlash(x: string, leaf: string)
    requires forall i :: 0 <= i < |leaf| ==> leaf[i] != Sep
    requires !AllAre(x, Sep)
    ensures Dirname(x + [Sep] + leaf) == RStrip(x, Sep)
  {
    var p := x + [Sep] + leaf;
    RFindAfterLast(x, Sep, leaf);
    var head := p[..|x| + 1];
    assert head == x + [Sep];
    var k :| 0 <= k < |x| && x[k] != Sep;
    assert head[k] == x[k];
    RStripAppended(x, Sep);
  }

  /** The directory of a file joined onto a directory is that directory without its trailing
      slashes: `dirname(join(d, leaf))` gives back `d`, so preparing the directory of a
      destination built by `join` prepares the destination directory itself. */
  lemma DirnameOfJoin(dir: string, leaf: string)
    requires leaf != ""
    requires forall i :: 0 <= i < |leaf| ==> leaf[i] != Sep
    requires !AllAre(dir, Sep)
    ensures Dirname(Join(dir, leaf)) == RStrip(dir, Sep)
  {
    assert leaf[0] != Sep;
    assert !StartsWith(leaf, [Sep]);
    if EndsWith(dir, [Sep]) {
      var x := dir[..|dir| - 1];
      assert dir == x + [Sep];
      assert Join(dir, leaf) == x + [Sep] + leaf;
      assert !AllAre(x, Sep) by {
        var k :| 0 <= k < |dir| && dir[k] != Sep;
        assert k < |x| && x[k] == dir[k];
      }
      DirnameAfterSlash(x, leaf);
      RStripAppended(x, Sep);
    } else {
      assert Join(dir, leaf) == dir + [Sep] + leaf;
      DirnameAfterSlash(dir, leaf);
    }
  }
}
