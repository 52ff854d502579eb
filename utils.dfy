/**
 * Rune widths and the small helpers of the editor core: a memoised East
 * Asian Width lookup, display widths of texts, right padding, splitting an
 * integer into near-equal parts and splitting a path into its components.
 */
module Utils {
  import opened Wrappers
  import opened Runes

  /** The larger of a and b. */
  function Max(a: int, b: int): int
  {
    if a < b then b else a
  }

  /** The East Asian Width property of a rune (Unicode Standard Annex #11). */
  datatype WidthKind = Neutral | EastAsianAmbiguous | EastAsianWide | EastAsianNarrow | EastAsianFullwidth | EastAsianHalfwidth

  /** Columns a rune of kind k takes: two for Ambiguous, Wide and Fullwidth, one otherwise. */
  function KindWidth(k: WidthKind): (w: nat)
    ensures w == 1 || w == 2
  {
    if k == EastAsianAmbiguous || k == EastAsianWide || k == EastAsianFullwidth then 2 else 1
  }

  /** Sum of the intrinsic widths of the runes of s. */
  function WidthSum(kindOf: Rune -> WidthKind, s: Text): nat
  {
    if s == [] then 0 else WidthSum(kindOf, s[..|s| - 1]) + KindWidth(kindOf(s[|s| - 1]))
  }

  /** The process-wide rune width cache. The Unicode table itself is the constant kindOf. */
  class WidthCache {
    const kindOf: Rune -> WidthKind
    var widths: map<Rune, nat>

    /** The cache only ever holds the width the table gives for that rune. */
    ghost predicate Valid()
      reads this
    {
      forall r :: r in widths ==> widths[r] == KindWidth(kindOf(r))
    }

    constructor (kindOf: Rune -> WidthKind)
      ensures Valid() && this.kindOf == kindOf && widths == map[]
    {
      this.kindOf := kindOf;
      widths := map[];
    }

    /** runeWidth: a cached width is returned as stored; otherwise it is computed and stored. */
    method RuneWidth(r: Rune) returns (w: nat)
      requires Valid()
      modifies this`widths
      ensures Valid()
      ensures w == KindWidth(kindOf(r)) && (w == 1 || w == 2)
      ensures r in old(widths) ==> widths == old(widths)
      ensures widths == old(widths)[r := w]
    {
      if r in widths {
        return widths[r];
      }
      var kind := kindOf(r);
      w := 1;
      if kind == EastAsianAmbiguous || kind == EastAsianWide || kind == EastAsianFullwidth {
        w := 2;
      }
      widths := widths[r := w];
    }
  }

  /** Width is additive over concatenation. */
  lemma {:induction false} WidthSumAppend(kindOf: Rune -> WidthKind, a: Text, b: Text)
    ensures WidthSum(kindOf, a + b) == WidthSum(kindOf, a) + WidthSum(kindOf, b)
    decreases |b|
  {
    if b == [] {
      assert a + b == a;
    } else {
      var b' := b[..|b| - 1];
      assert (a + b)[..|a + b| - 1] == a + b';
      WidthSumAppend(kindOf, a, b');
    }
  }

  /** Every rune takes one or two columns, so the width of s lies between |s| and 2|s|. */
  lemma {:induction false} WidthSumBounds(kindOf: Rune -> WidthKind, s: Text)
    ensures |s| <= WidthSum(kindOf, s) <= 2 * |s|
  {
    if s != [] {
      WidthSumBounds(kindOf, s[..|s| - 1]);
    }
  }

  /** displayWidth: the sum of the rune widths of s. */
  method DisplayWidth(cache: WidthCache, s: Text) returns (l: nat)
    requires cache.Valid()
    modifies cache`widths
    ensures cache.Valid()
    ensures l == WidthSum(cache.kindOf, s)
  {
    l := 0;
    for k := 0 to |s|
      invariant cache.Valid()
      invariant l == WidthSum(cache.kindOf, s[..k])
    {
      var w := cache.RuneWidth(s[k]);
      assert s[..k + 1][..k] == s[..k];
      l := l + w;
    }
    assert s[..|s|] == s;
  }

  /**
   * runesDisplayWidth: the same sum over a rune slice. Text is already a rune
   * sequence here, so it agrees with DisplayWidth on every input.
   */
  method RunesDisplayWidth(cache: WidthCache, runes: Text) returns (l: nat)
    requires cache.Valid()
    modifies cache`widths
    ensures cache.Valid()
    ensures l == WidthSum(cache.kindOf, runes)
  {
    l := 0;
    for k := 0 to |runes|
      invariant cache.Valid()
      invariant l == WidthSum(cache.kindOf, runes[..k])
    {
      var w := cache.RuneWidth(runes[k]);
      assert runes[..k + 1][..k] == runes[..k];
      l := l + w;
    }
    assert runes[..|runes|] == runes;
  }

  function Repeat<T>(x: T, n: nat): (r: seq<T>)
    ensures |r| == n && forall k :: 0 <= k < n ==> r[k] == x
  {
    seq(n, _ => x)
  }

  /**
   * rightPad: s followed by l - displayWidth(s) copies of pad. A negative
   * count makes strings.Repeat panic; that outcome is None.
   */
  method RightPad(cache: WidthCache, s: Text, pad: Rune, l: int) returns (r: Option<Text>)
    requires cache.Valid()
    modifies cache`widths
    ensures cache.Valid()
    ensures r.None? <==> l < WidthSum(cache.kindOf, s)
    ensures r.Some? ==> |r.value| == |s| + (l - WidthSum(cache.kindOf, s)) && r.value[..|s|] == s
    ensures r.Some? ==> forall k :: |s| <= k < |r.value| ==> r.value[k] == pad
  {
    var w := DisplayWidth(cache, s);
    var padLen := l - w;
    if padLen < 0 {
      return None;
    }
    r := Some(s + Repeat(pad, padLen));
  }

  /** Padding with a single-width rune reaches exactly the requested display width. */
  lemma PaddedWidth(kindOf: Rune -> WidthKind, s: Text, pad: Rune, l: int)
    requires KindWidth(kindOf(pad)) == 1
    requires WidthSum(kindOf, s) <= l
    ensures WidthSum(kindOf, s + Repeat(pad, l - WidthSum(kindOf, s))) == l
  {
    var n := l - WidthSum(kindOf, s);
    WidthSumAppend(kindOf, s, Repeat(pad, n));
    RepeatWidth(kindOf, pad, n);
  }

  lemma {:induction false} RepeatWidth(kindOf: Rune -> WidthKind, pad: Rune, n: nat)
    requires KindWidth(kindOf(pad)) == 1
    ensures WidthSum(kindOf, Repeat(pad, n)) == n
  {
    if n > 0 {
      assert Repeat(pad, n)[..n - 1] == Repeat(pad, n - 1);
      RepeatWidth(kindOf, pad, n - 1);
    }
  }

  /** Go's integer division, which truncates toward zero. */
  function TruncDiv(a: int, b: int): (q: int)
    requires b != 0
    ensures a >= 0 && b > 0 ==> q == a / b
  {
    var m := (if a < 0 then -a else a) / (if b < 0 then -b else b);
    if (a < 0) == (b < 0) then m else -m
  }

  /** The near-equal partition that split promises for a count i >= 0 and n > 0 parts. */
  function Parts(i: nat, n: nat): (r: seq<int>)
    requires n > 0
    ensures |r| == n
  {
    seq(n, k => if k < i % n then i / n + 1 else i / n)
  }

  /**
   * split(i, n): i - base*n entries of base + 1, then base until there are n
   * entries, where base is i / n truncated. A zero n divides by zero, which the
   * caller must not do.
   */
  method Split(i: int, n: int) returns (ret: seq<int>)
    requires n != 0
    ensures var base := TruncDiv(i, n); var res := i - base * n;
      && |ret| == Max(Max(res, 0), n)
      && forall k :: 0 <= k < |ret| ==> ret[k] == (if k < res then base + 1 else base)
    ensures n > 0 && i >= 0 ==> ret == Parts(i, n)
  {
    var base := TruncDiv(i, n);
    var res := i - base * n;
    ret := [];
    var k := 0;
    while k < res
      invariant 0 <= k <= Max(res, 0)
      invariant |ret| == k
      invariant forall j :: 0 <= j < k ==> ret[j] == base + 1
    {
      ret := ret + [base + 1];
      k := k + 1;
    }
    while |ret| < n
      invariant Max(res, 0) <= |ret| <= Max(Max(res, 0), n)
      invariant forall j :: 0 <= j < |ret| ==> ret[j] == (if j < res then base + 1 else base)
      decreases n - |ret|
    {
      ret := ret + [base];
    }
    if n > 0 && i >= 0 {
      assert res == i % n;
    }
  }

  function Sum(s: seq<int>): int
  {
    if s == [] then 0 else Sum(s[..|s| - 1]) + s[|s| - 1]
  }

  /** The parts of split add up to i. */
  lemma SplitSum(i: nat, n: nat)
    requires n > 0
    ensures Sum(Parts(i, n)) == i
  {
    var p := Parts(i, n);
    PartsPrefixSum(i, n, n);
    assert p[..n] == p;
    assert n * (i / n) + i % n == i;
  }

  lemma {:induction false} PartsPrefixSum(i: nat, n: nat, k: nat)
    requires 0 < n && k <= n
    ensures Sum(Parts(i, n)[..k]) == k * (i / n) + (if k < i % n then k else i % n)
  {
    var p := Parts(i, n);
    if k > 0 {
      assert p[..k][..k - 1] == p[..k - 1];
      PartsPrefixSum(i, n, k - 1);
      assert k * (i / n) == (k - 1) * (i / n) + i / n;
    }
  }

  /** The parts never increase along the list and differ by at most one. */
  lemma SplitBalanced(i: nat, n: nat)
    requires n > 0
    ensures forall a, b :: 0 <= a <= b < n ==> Parts(i, n)[b] <= Parts(i, n)[a] <= Parts(i, n)[b] + 1
  {
  }

  /** Index of the last c in s, or -1. */
  function LastIndex(s: Text, c: Rune): (i: int)
    ensures -1 <= i < |s|
    ensures i >= 0 ==> s[i] == c
    ensures forall k :: i < k < |s| ==> s[k] != c
  {
    if s == [] then -1
    else if s[|s| - 1] == c then |s| - 1
    else LastIndex(s[..|s| - 1], c)
  }

  const Dot: Rune := 46

  /** The component that starts at index j of p is "." or "..". */
  predicate DotComponentAt(p: Text, j: nat)
  {
    || (j < |p| && p[j] == Dot && (j + 1 == |p| || p[j + 1] == Slash))
    || (j + 1 < |p| && p[j] == Dot && p[j + 1] == Dot && (j + 2 == |p| || p[j + 2] == Slash))
  }

  /** An absolute path that filepath.Clean leaves as it is. */
  predicate IsCleanAbsolute(p: Text)
  {
    && |p| > 0 && p[0] == Slash
    && (p == [Slash] || p[|p| - 1] != Slash)
    && (forall k :: 0 <= k < |p| - 1 ==> !(p[k] == Slash && p[k + 1] == Slash))
    && (forall k :: 0 <= k < |p| && p[k] == Slash ==> !DotComponentAt(p, k + 1))
  }

  /** "/" followed by the components separated by "/". */
  function JoinAbsolute(parts: seq<Text>): Text
    requires |parts| >= 1
  {
    if |parts| == 1 then [Slash] + parts[0]
    else JoinAbsolute(parts[..|parts| - 1]) + [Slash] + parts[|parts| - 1]
  }

  /**
   * splitDir: filepath.Split cuts after the last separator; a parent of "/" ends
   * the recursion. For a clean path the parent directory "/a/b/" is cleaned to
   * "/a/b", the path without its trailing separator.
   */
  function SplitDir(p: Text): (r: seq<Text>)
    requires IsCleanAbsolute(p)
    ensures |r| >= 1
    ensures JoinAbsolute(r) == p
    ensures forall k :: 0 <= k < |r| ==> Slash !in r[k]
    decreases |p|
  {
    var i := LastIndex(p, Slash);
    assert i >= 0;
    var dir, name := p[..i + 1], p[i + 1..];
    NameAfterLastSlash(p, i);
    if dir == [Slash] then
      assert i == 0 && p[..i] == [];
      [name]
    else
      CleanParent(p, i);
      SplitDir(p[..i]) + [name]
  }

  /** The text after the last separator holds none, and the path is its parent, a separator and it. */
  lemma NameAfterLastSlash(p: Text, i: int)
    requires 0 <= i < |p| && p[i] == Slash
    requires forall k :: i < k < |p| ==> p[k] != Slash
    ensures Slash !in p[i + 1..]
    ensures p == p[..i] + [Slash] + p[i + 1..]
  {
  }

  /** The parent of a clean absolute path, without its trailing separator, is clean too. */
  lemma CleanParent(p: Text, i: int)
    requires IsCleanAbsolute(p)
    requires i == LastIndex(p, Slash) && p[..i + 1] != [Slash]
    ensures 0 < i < |p| && IsCleanAbsolute(p[..i])
  {
  }
}
