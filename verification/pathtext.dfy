/** The two pieces of Python's POSIX path module (posixpath) the launcher
    relies on: splitext (split at the last dot of the basename, leading
    dots do not count) and join. The separator is '/' only: there is no
    alternative separator and no drive. */
module PathText {

  const Sep: char := '/'
  const ExtSep: char := '.'

  /** str.rfind for one character: the index of its last occurrence, or -1. */
  function RFind(s: string, c: char): (i: int)
    ensures -1 <= i < |s|
    ensures i >= 0 ==> s[i] == c
    ensures forall j :: i < j < |s| ==> s[j] != c
  {
    if |s| == 0 then -1
    else if s[|s| - 1] == c then |s| - 1
    else RFind(s[..|s| - 1], c)
  }

  /** The scan of splitext's inner loop: does s[lo..hi] hold a character
      other than a dot? */
  function HasNonDot(s: string, lo: int, hi: int): (b: bool)
    requires 0 <= lo <= hi <= |s|
    ensures b <==> exists k :: lo <= k < hi && s[k] != ExtSep
    decreases hi - lo
  {
    if lo == hi then false
    else if s[lo] != ExtSep then true
    else HasNonDot(s, lo + 1, hi)
  }

  /** Independent description of a split point: index i is a dot, nothing
      after it is a dot or a separator, and the part of the basename in
      front of it is not made of dots only. */
  ghost predicate ExtensionAt(p: string, i: int)
  {
    && 0 <= i < |p|
    && p[i] == ExtSep
    && (forall j :: i < j < |p| ==> p[j] != ExtSep && p[j] != Sep)
    && (exists k :: 0 <= k < i && p[k] != ExtSep && p[k] != Sep
                    && forall m :: k < m < i ==> p[m] != Sep)
  }

  /** os.path.splitext: (root, ext) with root + ext == p. */
  function SplitExt(p: string): (r: (string, string))
    ensures r.0 + r.1 == p
    ensures r.1 == [] || (r.1[0] == ExtSep && forall j :: 1 <= j < |r.1| ==> r.1[j] != ExtSep && r.1[j] != Sep)
  {
    var sep := RFind(p, Sep);
    var dot := RFind(p, ExtSep);
    if dot > sep && HasNonDot(p, sep + 1, dot) then (p[..dot], p[dot..]) else (p, [])
  }

  /** The stem part of splitext, `splitext(p)[0]`. */
  function Stem(p: string): string
  {
    SplitExt(p).0
  }

  /** The extension part of splitext, `splitext(p)[1]`. */
  function Extension(p: string): string
  {
    SplitExt(p).1
  }

  /** splitext splits exactly at the split point when there is one, and
      returns the whole path with an empty extension when there is none. */
  lemma SplitExtCharacterised(p: string)
    ensures SplitExt(p).1 != [] <==> exists i :: ExtensionAt(p, i)
    ensures forall i :: ExtensionAt(p, i) ==> SplitExt(p) == (p[..i], p[i..])
  {
    var sep := RFind(p, Sep);
    var dot := RFind(p, ExtSep);
    forall i | ExtensionAt(p, i)
      ensures dot == i && sep < i && HasNonDot(p, sep + 1, dot)
    {
      var k :| 0 <= k < i && p[k] != ExtSep && p[k] != Sep
               && forall m :: k < m < i ==> p[m] != Sep;
      assert sep < i;
      assert k > sep;
    }
    if SplitExt(p).1 != [] {
      assert dot > sep && HasNonDot(p, sep + 1, dot);
      var k :| sep + 1 <= k < dot && p[k] != ExtSep;
      assert ExtensionAt(p, dot);
    }
  }

  /** os.path.join(base, leaf) for one leaf component. */
  function Join(base: string, leaf: string): (r: string)
    ensures |leaf| > 0 && leaf[0] == Sep ==> r == leaf
    ensures !(|leaf| > 0 && leaf[0] == Sep) ==> r == base + leaf || r == base + [Sep] + leaf
    ensures !(|leaf| > 0 && leaf[0] == Sep) ==> (r == base + leaf <==> base == [] || base[|base| - 1] == Sep)
    ensures |r| >= |leaf| && r[|r| - |leaf|..] == leaf
  {
    if |leaf| > 0 && leaf[0] == Sep then leaf
    else if base == [] || base[|base| - 1] == Sep then base + leaf
    else base + [Sep] + leaf
  }

  /** A split point of a leaf is a split point of the leaf behind any
      prefix. */
  lemma SplitPointShifts(pre: string, leaf: string, i: int)
    requires 0 <= i < |leaf| && ExtensionAt(leaf, i)
    ensures ExtensionAt(pre + leaf, |pre| + i)
  {
    var r := pre + leaf;
    var n := |pre|;
    var k :| 0 <= k < i && leaf[k] != ExtSep && leaf[k] != Sep
             && forall m :: k < m < i ==> leaf[m] != Sep;
    assert r[n + k] == leaf[k];
    assert forall m :: n + k < m < n + i ==> r[m] == leaf[m - n];
    assert forall m :: n + i < m < |r| ==> r[m] == leaf[m - n];
  }

  /** Conversely, a split point behind a directory prefix ending in a
      separator is a split point of the leaf. */
  lemma SplitPointUnshifts(pre: string, leaf: string, i: int)
    requires pre == [] || pre[|pre| - 1] == Sep
    requires 0 <= i < |leaf| && ExtensionAt(pre + leaf, |pre| + i)
    ensures ExtensionAt(leaf, i)
  {
    var r := pre + leaf;
    var n := |pre|;
    var k :| 0 <= k < n + i && r[k] != ExtSep && r[k] != Sep
             && forall m :: k < m < n + i ==> r[m] != Sep;
    assert n > 0 ==> r[n - 1] == Sep;
    assert k >= n;
    assert leaf[k - n] == r[k];
    forall m | k - n < m < i
      ensures leaf[m] != Sep
    {
      assert leaf[m] == r[m + n];
    }
    forall m | i < m < |leaf|
      ensures leaf[m] != ExtSep && leaf[m] != Sep
    {
      assert leaf[m] == r[m + n];
    }
    assert leaf[i] == r[n + i];
  }

  /** No split point lies in a directory prefix ending in a separator. */
  lemma NoSplitInPrefix(pre: string, leaf: string, j: int)
    requires pre == [] || pre[|pre| - 1] == Sep
    requires 0 <= j < |pre|
    ensures !ExtensionAt(pre + leaf, j)
  {
    assert (pre + leaf)[|pre| - 1] == Sep;
  }

  /** A directory prefix ending in a separator neither supplies nor steals
      the split point of what follows it. */
  lemma PrefixKeepsExtension(pre: string, leaf: string)
    requires pre == [] || pre[|pre| - 1] == Sep
    ensures Extension(pre + leaf) == Extension(leaf)
  {
    SplitExtCharacterised(leaf);
    if Extension(leaf) != [] {
      var i :| ExtensionAt(leaf, i);
      PrefixKeepsSplitPoint(pre, leaf, i);
    } else {
      PrefixAddsNoSplitPoint(pre, leaf);
    }
  }

  lemma PrefixKeepsSplitPoint(pre: string, leaf: string, i: int)
    requires ExtensionAt(leaf, i)
    ensures Extension(pre + leaf) == Extension(leaf)
  {
    var r := pre + leaf;
    SplitPointShifts(pre, leaf, i);
    SplitsAt(r, |pre| + i);
    SplitsAt(leaf, i);
    assert r[|pre| + i..] == leaf[i..];
  }

  lemma SplitsAt(p: string, i: int)
    requires ExtensionAt(p, i)
    ensures Extension(p) == p[i..]
  {
    SplitExtCharacterised(p);
  }

  lemma PrefixAddsNoSplitPoint(pre: string, leaf: string)
    requires pre == [] || pre[|pre| - 1] == Sep
    requires Extension(leaf) == []
    ensures Extension(pre + leaf) == []
  {
    var r := pre + leaf;
    SplitExtCharacterised(r);
    if Extension(r) != [] {
      var j :| ExtensionAt(r, j);
      if j < |pre| {
        NoSplitInPrefix(pre, leaf, j);
      } else {
        SplitPointUnshifts(pre, leaf, j - |pre|);
        SplitExtCharacterised(leaf);
      }
    }
  }

  /** Joining a leaf to a directory keeps the leaf's extension. */
  lemma JoinKeepsExtension(base: string, leaf: string)
    ensures Extension(Join(base, leaf)) == Extension(leaf)
  {
    var pre: string :=
      if |leaf| > 0 && leaf[0] == Sep then []
      else if base == [] || base[|base| - 1] == Sep then base
      else base + [Sep];
    assert Join(base, leaf) == pre + leaf;
    PrefixKeepsExtension(pre, leaf);
  }
}
