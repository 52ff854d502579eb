/**
 * Segments: runs of lines that a buffer view is cut into, with the total
 * line count, slicing by line range and a memoised digest of each run.
 */
module Segments {
  import opened Runes
  import opened LineLayout
  import opened Moments

  /** The value the hash function returns for a byte stream. */
  type Digest = seq<Byte>

  class Segment {
    const lines: seq<Line>
    var sumDone: bool
    var sum: Digest

    /** Once computed, the digest is the hash of the UTF-8 bytes of the concatenated contents. */
    ghost predicate Valid(hash: seq<Byte> -> Digest)
      reads this`sumDone, this`sum
    {
      sumDone ==> sum == hash(Encode(Join(ContentsOf(lines))))
    }

    /** A segment literal: the lines, no digest yet. */
    constructor (lines: seq<Line>)
      ensures this.lines == lines && !sumDone
    {
      this.lines := lines;
      sumDone := false;
      sum := [];
    }

    /** Sum: feed every line's content to a fresh hash once; later calls return the stored digest. */
    method Sum(hash: seq<Byte> -> Digest) returns (d: Digest)
      requires Valid(hash)
      modifies this`sumDone, this`sum
      ensures Valid(hash) && sumDone
      ensures d == hash(Encode(Join(ContentsOf(lines))))
      ensures old(sumDone) ==> unchanged(this)
    {
      if !sumDone {
        var cs := ContentsOf(lines);
        var written: seq<Byte> := [];
        for k := 0 to |lines|
          invariant written == Encode(Join(cs[..k]))
        {
          JoinSnoc(cs, k);
          EncodeAppend(Join(cs[..k]), cs[k]);
          written := written + Encode(lines[k].content);
        }
        assert cs[..|lines|] == cs;
        sum := hash(written);
        sumDone := true;
      }
      d := sum;
    }
  }

  /** The number of lines in the segments, segment by segment. */
  function LineCount(ss: seq<Segment>): nat
  {
    if ss == [] then 0 else LineCount(ss[..|ss| - 1]) + |ss[|ss| - 1].lines|
  }

  /** The lines of the segments, one segment after another. */
  function AllLines(ss: seq<Segment>): seq<Line>
  {
    if ss == [] then [] else AllLines(ss[..|ss| - 1]) + ss[|ss| - 1].lines
  }

  /** The line count is the length of the flattened lines. */
  lemma {:induction false} LineCountIsLength(ss: seq<Segment>)
    ensures LineCount(ss) == |AllLines(ss)|
    decreases |ss|
  {
    if ss != [] {
      LineCountIsLength(ss[..|ss| - 1]);
    }
  }

  lemma AllLinesSnoc(ss: seq<Segment>, i: nat)
    requires i < |ss|
    ensures AllLines(ss[..i + 1]) == AllLines(ss[..i]) + ss[i].lines
    ensures LineCount(ss[..i + 1]) == LineCount(ss[..i]) + |ss[i].lines|
  {
    assert ss[..i + 1][..i] == ss[..i];
  }

  /** The lines of the first i segments start the lines of all of them. */
  lemma {:induction false} AllLinesPrefix(ss: seq<Segment>, i: nat)
    requires i <= |ss|
    ensures |AllLines(ss[..i])| <= |AllLines(ss)|
    ensures AllLines(ss)[..|AllLines(ss[..i])|] == AllLines(ss[..i])
    decreases |ss| - i
  {
    if i == |ss| {
      assert ss[..i] == ss;
    } else {
      AllLinesPrefix(ss, i + 1);
      AllLinesSnoc(ss, i);
    }
  }

  /** The lines of the segments are the first one's lines followed by the rest's. */
  lemma {:induction false} AllLinesCons(ss: seq<Segment>)
    requires ss != []
    ensures AllLines(ss) == ss[0].lines + AllLines(ss[1..])
    decreases |ss|
  {
    if |ss| > 1 {
      var n := |ss| - 1;
      AllLinesCons(ss[..n]);
      assert ss[..n][1..] == ss[1..][..n - 1];
      assert ss[..n][0] == ss[0];
    } else {
      assert ss[..0] == [] && ss[1..] == [];
    }
  }

  /** Segments.Len: the accumulated line counts. */
  method Len(ss: seq<Segment>) returns (l: nat)
    ensures l == LineCount(ss)
  {
    l := 0;
    for i := 0 to |ss|
      invariant l == LineCount(ss[..i])
    {
      AllLinesSnoc(ss, i);
      l := l + |ss[i].lines|;
    }
    assert ss[..|ss|] == ss;
  }

  /** The start bound as Sub uses it: negative becomes 0. */
  function ClampStart(start: int): (s: nat)
    ensures start <= s && (s == 0 || s == start)
  {
    if start < 0 then 0 else start
  }

  /** The end bound as Sub uses it: negative or past the end becomes the line count. */
  function ClampEnd(end: int, l: nat): (e: nat)
    ensures e <= l
  {
    if end < 0 || end > l then l else end
  }

  /** The lines Sub(start, end) keeps: the clamped range of the flattened lines, empty when it is inverted. */
  function SubLines(ss: seq<Segment>, start: int, end: int): (r: seq<Line>)
  {
    LineCountIsLength(ss);
    var a, b := ClampStart(start), ClampEnd(end, LineCount(ss));
    if a < b then AllLines(ss)[a..b] else []
  }

  /** The number of lines Sub keeps: b - a for bounds already in range, and never negative. */
  lemma SubLinesLength(ss: seq<Segment>, start: int, end: int)
    ensures |SubLines(ss, start, end)| == if ClampStart(start) < ClampEnd(end, LineCount(ss)) then ClampEnd(end, LineCount(ss)) - ClampStart(start) else 0
    ensures 0 <= start <= end <= LineCount(ss) ==> |SubLines(ss, start, end)| == end - start
  {
    LineCountIsLength(ss);
  }

  /**
   * One segment of Sub's result, described by where it comes from: the input
   * segment idx itself, or a new segment over lines lo..hi of it.
   */
  datatype Part = Whole(idx: nat) | Cut(idx: nat, lo: nat, hi: nat)

  /** The first line of segment p.idx that the part covers. */
  function Lo(p: Part): nat
  {
    if p.Whole? then 0 else p.lo
  }

  /** One past the last line of segment p.idx that the part covers (0 for a segment that does not exist). */
  function Hi(ss: seq<Segment>, p: Part): nat
  {
    if p.Cut? then p.hi else if p.idx < |ss| then |ss[p.idx].lines| else 0
  }

  /** The part names an input segment and a line range inside it. */
  predicate PartOk(ss: seq<Segment>, p: Part)
  {
    p.idx < |ss| && Lo(p) <= Hi(ss, p) <= |ss[p.idx].lines|
  }

  predicate PartsOk(ss: seq<Segment>, ps: seq<Part>)
  {
    forall k :: 0 <= k < |ps| ==> PartOk(ss, ps[k])
  }

  /** r is the part: the input segment itself for a whole part, a segment with the cut lines otherwise. */
  ghost predicate RealizesPart(ss: seq<Segment>, r: Segment, p: Part)
  {
    && PartOk(ss, p)
    && (p.Whole? ==> r == ss[p.idx])
    && (p.Cut? ==> r.lines == ss[p.idx].lines[p.lo..p.hi])
  }

  /** ret is made of the parts, one segment per part. */
  ghost predicate Realizes(ret: seq<Segment>, ss: seq<Segment>, ps: seq<Part>)
  {
    |ret| == |ps| && forall k {:trigger RealizesPart(ss, ret[k], ps[k])} :: 0 <= k < |ps| ==> RealizesPart(ss, ret[k], ps[k])
  }

  /** Sub's first loop on parts: segments from i on, until n lines are taken; the last is cut when n ends inside it. */
  function TakeParts(ss: seq<Segment>, n: nat, i: nat): seq<Part>
    requires i <= |ss|
    decreases |ss| - i
  {
    if n == 0 || i == |ss| then []
    else if n < |ss[i].lines| then [Cut(i, 0, n)]
    else [Whole(i)] + TakeParts(ss, n - |ss[i].lines|, i + 1)
  }

  /** Sub's second loop on parts: drop n lines from the front; the first part kept is cut when n ends inside it. */
  function DropParts(ss: seq<Segment>, ps: seq<Part>, n: nat): seq<Part>
  {
    if n == 0 || ps == [] then ps
    else if n >= Hi(ss, ps[0]) - Lo(ps[0]) then DropParts(ss, ps[1..], n - (Hi(ss, ps[0]) - Lo(ps[0])))
    else [Cut(ps[0].idx, Lo(ps[0]) + n, Hi(ss, ps[0]))] + ps[1..]
  }

  /** The parts Sub(start, end) returns. */
  function SubParts(ss: seq<Segment>, start: int, end: int): seq<Part>
  {
    DropParts(ss, TakeParts(ss, ClampEnd(end, LineCount(ss)), 0), ClampStart(start))
  }

  /** The first i parts of a run of whole segments from 0. */
  function Wholes(i: nat): (ps: seq<Part>)
    ensures |ps| == i && forall k :: 0 <= k < i ==> ps[k] == Whole(k)
  {
    seq(i, k requires 0 <= k < i => Whole(k))
  }

  /**
   * Segments.Sub: the segments holding lines start..end; segments inside the
   * range are shared, and a new segment, without a digest, is made only where
   * a bound falls strictly inside a segment (SubPartsShape: only the first and
   * the last part can be cut).
   */
  method Sub(ss: seq<Segment>, start: int, end: int) returns (ret: seq<Segment>)
    ensures AllLines(ret) == SubLines(ss, start, end)
    ensures Realizes(ret, ss, SubParts(ss, start, end))
    ensures forall s :: s in ret ==> s in ss || (fresh(s) && !s.sumDone)
    ensures forall k :: 0 < k < |ret| - 1 ==> ret[k] in ss
  {
    var start := start;
    var end := end;
    if start < 0 {
      start := 0;
    }
    var l := Len(ss);
    if end < 0 || end > l {
      end := l;
    }
    LineCountIsLength(ss);
    ret := SubRange(ss, start, end);
  }

  /** Sub once its bounds are clamped: the first loop, then the second. */
  method SubRange(ss: seq<Segment>, start: nat, end: nat) returns (ret: seq<Segment>)
    requires end <= LineCount(ss) && LineCount(ss) == |AllLines(ss)|
    ensures AllLines(ret) == if start < end then AllLines(ss)[start..end] else []
    ensures Realizes(ret, ss, SubParts(ss, start, end))
    ensures forall s :: s in ret ==> s in ss || (fresh(s) && !s.sumDone)
    ensures forall k :: 0 < k < |ret| - 1 ==> ret[k] in ss
  {
    var kept := TakeLines(ss, end);
    ghost var taken := TakeParts(ss, end, 0);
    ret := DropLines(ss, kept, taken, start);
    assert SubParts(ss, start, end) == DropParts(ss, taken, start);
    if start < end {
      assert AllLines(ss)[..end][start..] == AllLines(ss)[start..end];
    }
    SubInner(ss, ret, start, end);
  }

  /** The segments strictly inside Sub's result are input segments. */
  lemma SubInner(ss: seq<Segment>, ret: seq<Segment>, start: int, end: int)
    requires Realizes(ret, ss, SubParts(ss, start, end))
    ensures forall k :: 0 < k < |ret| - 1 ==> ret[k] in ss
  {
    var parts := SubParts(ss, start, end);
    SubPartsShape(ss, start, end);
    forall k | 0 < k < |ret| - 1 ensures ret[k] in ss {
      assert RealizesPart(ss, ret[k], parts[k]);
    }
  }

  /** Sub's first loop: the segments holding the first end lines, the last one cut if need be. */
  method TakeLines(ss: seq<Segment>, end: nat) returns (ret: seq<Segment>)
    requires end <= LineCount(ss) && LineCount(ss) == |AllLines(ss)|
    ensures AllLines(ret) == AllLines(ss)[..end]
    ensures Realizes(ret, ss, TakeParts(ss, end, 0))
    ensures forall s :: s in ret ==> s in ss || (fresh(s) && !s.sumDone)
  {
    var n := end;
    var i := 0;
    ret := [];
    while n > 0 && i < |ss|
      invariant 0 <= i <= |ss| && 0 <= n
      invariant ret == ss[..i] && LineCount(ss[..i]) + n == end
      invariant TakeParts(ss, end, 0) == Wholes(i) + TakeParts(ss, n, i)
    {
      var segment := ss[i];
      AllLinesSnoc(ss, i);
      if n < |segment.lines| {
        segment := new Segment(segment.lines[..n]);
        ret := ret + [segment];
        break;
      } else {
        assert Wholes(i + 1) == Wholes(i) + [Whole(i)];
        ret := ret + [segment];
        i := i + 1;
        n := n - |segment.lines|;
      }
    }
    FirstLoopKeeps(ss, ret, i, n, end);
    TakeRealized(ss, end, i, n, ret);
  }

  /** After Sub's first loop the kept segments are the parts TakeParts describes, with a cut only at i. */
  lemma TakeRealized(ss: seq<Segment>, end: nat, i: nat, n: nat, ret: seq<Segment>)
    requires i <= |ss| && TakeParts(ss, end, 0) == Wholes(i) + TakeParts(ss, n, i)
    requires
      || (ret == ss[..i] && (n == 0 || i == |ss|))
      || (i < |ss| && 0 < n < |ss[i].lines| && |ret| == i + 1 && ret[..i] == ss[..i] && ret[i].lines == ss[i].lines[..n])
    ensures Realizes(ret, ss, TakeParts(ss, end, 0))
    ensures forall k :: 0 <= k < |ret| && TakeParts(ss, end, 0)[k].Cut? ==> k == i
  {
    var ps := TakeParts(ss, end, 0);
    if ret == ss[..i] && (n == 0 || i == |ss|) {
      assert ps == Wholes(i);
    } else {
      assert ps == Wholes(i) + [Cut(i, 0, n)];
      assert forall k :: 0 <= k < i ==> ret[k] == ret[..i][k];
    }
  }

  /** Sub's second loop: drop the first start lines, cutting the segment the start falls in. */
  method DropLines(ghost ss: seq<Segment>, kept: seq<Segment>, ghost ps: seq<Part>, start: nat) returns (ret: seq<Segment>)
    requires Realizes(kept, ss, ps)
    ensures AllLines(ret) == if start <= |AllLines(kept)| then AllLines(kept)[start..] else []
    ensures Realizes(ret, ss, DropParts(ss, ps, start))
    ensures forall s :: s in ret ==> s in kept || (fresh(s) && !s.sumDone)
  {
    ghost var all := AllLines(kept);
    ghost var d := 0;
    ghost var cut := false;
    ret := kept;
    var n := start;
    var i := 0;
    while n > 0 && i < |ret|
      invariant i == 0 && 0 <= n <= start && 0 <= d <= |kept| && !cut
      invariant start - n <= |all| && AllLines(ret) == all[start - n..]
      invariant ret == kept[d..]
      invariant DropParts(ss, ps, start) == DropParts(ss, ps[d..], n)
    {
      var segment := ret[i];
      PartLength(kept, ss, ps, d);
      if n >= |segment.lines| {
        DropFirst(ret, all, start, n);
        DropStep(ss, ps, d, n);
        ret := ret[1..];
        d := d + 1;
        n := n - |segment.lines|;
      } else {
        var newSegment := new Segment(segment.lines[n..]);
        CutFirst(ret, newSegment, all, start, n);
        ret := ret[0 := newSegment];
        assert AllLines(ret) == all[start..];
        cut := true;
        break;
      }
    }
    DropRealized(ss, kept, ps, start, d, n, ret, cut);
    DropLeaves(all, start, n, ret, cut);
  }

  /** After Sub's second loop the lines left are those from start on, or none when start is past the end. */
  lemma DropLeaves(all: seq<Line>, start: nat, n: nat, ret: seq<Segment>, cut: bool)
    requires cut ==> start <= |all| && AllLines(ret) == all[start..]
    requires !cut ==> n <= start && start - n <= |all| && AllLines(ret) == all[start - n..] && (n == 0 || ret == [])
    ensures AllLines(ret) == if start <= |all| then all[start..] else []
  {
  }

  /** Line counts agree with the parts: a kept segment holds as many lines as its part covers. */
  lemma PartLength(kept: seq<Segment>, ss: seq<Segment>, ps: seq<Part>, d: nat)
    requires Realizes(kept, ss, ps) && d < |kept|
    ensures PartOk(ss, ps[d]) && |kept[d].lines| == Hi(ss, ps[d]) - Lo(ps[d])
  {
    assert RealizesPart(ss, kept[d], ps[d]);
  }

  /** Dropping a whole first part moves on to the next one. */
  lemma DropStep(ss: seq<Segment>, ps: seq<Part>, d: nat, n: nat)
    requires d < |ps| && n > 0 && n >= Hi(ss, ps[d]) - Lo(ps[d])
    ensures DropParts(ss, ps[d..], n) == DropParts(ss, ps[d + 1..], n - (Hi(ss, ps[d]) - Lo(ps[d])))
  {
    assert ps[d..][1..] == ps[d + 1..];
  }

  /** After Sub's second loop the segments kept are the parts DropParts describes. */
  lemma DropRealized(ss: seq<Segment>, kept: seq<Segment>, ps: seq<Part>, start: nat, d: nat, n: nat, ret: seq<Segment>, cut: bool)
    requires Realizes(kept, ss, ps) && d <= |kept|
    requires DropParts(ss, ps, start) == DropParts(ss, ps[d..], n)
    requires !cut ==> ret == kept[d..] && (n == 0 || d == |kept|)
    requires cut ==>
      && d < |kept| && 0 < n < |kept[d].lines| && |ret| == |kept| - d
      && ret[1..] == kept[d + 1..] && ret[0].lines == kept[d].lines[n..]
    ensures var qs := DropParts(ss, ps, start);
      && Realizes(ret, ss, qs) && |ret| == |kept| - d && |ps| == |kept|
      && (ret != [] ==> ret[1..] == kept[d + 1..] && qs[1..] == ps[d + 1..])
      && (ret != [] && !cut ==> ret[0] == kept[d] && qs[0] == ps[d])
  {
    var qs := DropParts(ss, ps, start);
    if !cut {
      assert qs == ps[d..];
    } else {
      var rest := kept[d..];
      assert ps[d..][1..] == ps[d + 1..];
      RealizesCut(rest, ss, ps[d..], n, ret[0]);
      assert ret == rest[0 := ret[0]];
    }
  }

  /** Parts of consecutive segments, each cut non-empty and strictly inside its segment. */
  predicate Tidy(ss: seq<Segment>, ps: seq<Part>)
  {
    && PartsOk(ss, ps)
    && (forall k :: 0 < k < |ps| ==> ps[k].idx == ps[k - 1].idx + 1)
    && (forall k :: 0 <= k < |ps| && ps[k].Cut? ==>
          ps[k].lo < ps[k].hi && (0 < ps[k].lo || ps[k].hi < |ss[ps[k].idx].lines|))
  }

  /** The first loop cuts at most the last segment it takes, and only strictly inside it. */
  lemma {:induction false} TakePartsShape(ss: seq<Segment>, n: nat, i: nat)
    requires i <= |ss|
    ensures var ps := TakeParts(ss, n, i);
      Tidy(ss, ps) && forall k :: 0 <= k < |ps| && ps[k].Cut? ==> k == |ps| - 1
    decreases |ss| - i
  {
    if n != 0 && i != |ss| && n >= |ss[i].lines| {
      TakePartsShape(ss, n - |ss[i].lines|, i + 1);
    }
  }

  /** The second loop adds at most one cut, at the front, strictly inside its segment. */
  lemma {:induction false} DropPartsShape(ss: seq<Segment>, ps: seq<Part>, n: nat)
    requires Tidy(ss, ps) && forall k :: 0 <= k < |ps| && ps[k].Cut? ==> k == |ps| - 1
    ensures var qs := DropParts(ss, ps, n);
      Tidy(ss, qs) && forall k :: 0 <= k < |qs| && qs[k].Cut? ==> k == 0 || k == |qs| - 1
    decreases |ps|
  {
    if n != 0 && ps != [] && n >= Hi(ss, ps[0]) - Lo(ps[0]) {
      DropPartsShape(ss, ps[1..], n - (Hi(ss, ps[0]) - Lo(ps[0])));
    }
  }

  /**
   * Sub's result runs over consecutive input segments, makes a new segment only
   * where a bound falls strictly inside one, and does so at most at its two ends.
   */
  lemma SubPartsShape(ss: seq<Segment>, start: int, end: int)
    ensures var ps := SubParts(ss, start, end);
      Tidy(ss, ps) && forall k :: 0 <= k < |ps| && ps[k].Cut? ==> k == 0 || k == |ps| - 1
  {
    var e := ClampEnd(end, LineCount(ss));
    TakePartsShape(ss, e, 0);
    DropPartsShape(ss, TakeParts(ss, e, 0), ClampStart(start));
  }

  /** Line counts of prefixes grow with the prefix. */
  lemma {:induction false} LineCountMonotone(ss: seq<Segment>, i: nat, j: nat)
    requires i <= j <= |ss|
    ensures LineCount(ss[..i]) <= LineCount(ss[..j])
    decreases j - i
  {
    if i < j {
      LineCountMonotone(ss, i, j - 1);
      AllLinesSnoc(ss, j - 1);
    }
  }

  /** Taking up to a segment boundary takes whole segments only. */
  lemma {:induction false} TakeOnBoundary(ss: seq<Segment>, i: nat, b: nat, n: nat)
    requires i <= b <= |ss| && LineCount(ss[..i]) + n == LineCount(ss[..b])
    ensures forall k :: 0 <= k < |TakeParts(ss, n, i)| ==> TakeParts(ss, n, i)[k] == Whole(i + k)
    decreases |ss| - i
  {
    if n != 0 {
      assert i < b;
      AllLinesSnoc(ss, i);
      LineCountMonotone(ss, i + 1, b);
      assert |ss[i].lines| <= n;
      TakeOnBoundary(ss, i + 1, b, n - |ss[i].lines|);
      var rest := TakeParts(ss, n - |ss[i].lines|, i + 1);
      assert TakeParts(ss, n, i) == [Whole(i)] + rest;
      forall k | 0 < k < |rest| + 1 ensures ([Whole(i)] + rest)[k] == Whole(i + k) {
        assert rest[k - 1] == Whole(i + 1 + (k - 1));
      }
    }
  }

  /** Dropping whole segments up to a segment boundary never cuts one. */
  lemma {:induction false} DropOnBoundary(ss: seq<Segment>, ps: seq<Part>, i: nat, a: nat, n: nat)
    requires PartsOk(ss, ps) && forall k :: 0 <= k < |ps| ==> ps[k] == Whole(i + k)
    requires i <= a <= |ss| && LineCount(ss[..i]) + n == LineCount(ss[..a])
    ensures forall p :: p in DropParts(ss, ps, n) ==> p.Whole?
    decreases |ps|
  {
    if n != 0 && ps != [] {
      assert i < a;
      AllLinesSnoc(ss, i);
      LineCountMonotone(ss, i + 1, a);
      DropOnBoundary(ss, ps[1..], i + 1, a, n - |ss[i].lines|);
    }
  }

  /** With both bounds on segment boundaries, Sub returns input segments only and makes no new one. */
  lemma SubOnBoundaries(ss: seq<Segment>, a: nat, b: nat)
    requires a <= |ss| && b <= |ss|
    ensures forall p :: p in SubParts(ss, LineCount(ss[..a]), LineCount(ss[..b])) ==> p.Whole?
  {
    LineCountMonotone(ss, b, |ss|);
    assert ss[..|ss|] == ss;
    assert ss[..0] == [];
    TakeOnBoundary(ss, 0, b, LineCount(ss[..b]));
    TakePartsShape(ss, LineCount(ss[..b]), 0);
    DropOnBoundary(ss, TakeParts(ss, LineCount(ss[..b]), 0), 0, a, LineCount(ss[..a]));
  }

  /** Sub(0, n) over a first segment of n > 0 lines returns that very segment. */
  lemma SubFirstSegment(ss: seq<Segment>)
    requires ss != [] && ss[0].lines != []
    ensures SubParts(ss, 0, |ss[0].lines|) == [Whole(0)]
  {
    AllLinesSnoc(ss, 0);
    assert ss[..0] == [];
    LineCountMonotone(ss, 1, |ss|);
    assert ss[..|ss|] == ss;
    var n := |ss[0].lines|;
    assert ClampEnd(n, LineCount(ss)) == n;
    assert TakeParts(ss, n, 0) == [Whole(0)] + TakeParts(ss, 0, 1) == [Whole(0)];
  }

  /** A result of Sub whose bounds both fall on segment boundaries holds input segments only. */
  lemma SharedOnBoundaries(ss: seq<Segment>, a: nat, b: nat, ret: seq<Segment>)
    requires a <= |ss| && b <= |ss|
    requires Realizes(ret, ss, SubParts(ss, LineCount(ss[..a]), LineCount(ss[..b])))
    ensures forall s :: s in ret ==> s in ss
  {
    var ps := SubParts(ss, LineCount(ss[..a]), LineCount(ss[..b]));
    SubOnBoundaries(ss, a, b);
    forall s | s in ret ensures s in ss {
      var k :| 0 <= k < |ret| && ret[k] == s;
      assert ps[k] in ps;
      assert RealizesPart(ss, ret[k], ps[k]);
    }
  }

  /** Sub(0, n) over a first segment of n > 0 lines returns exactly that segment object. */
  lemma SubFirstShared(ss: seq<Segment>, ret: seq<Segment>)
    requires ss != [] && ss[0].lines != []
    requires Realizes(ret, ss, SubParts(ss, 0, |ss[0].lines|))
    ensures ret == [ss[0]]
  {
    var ps := SubParts(ss, 0, |ss[0].lines|);
    SubFirstSegment(ss);
    assert RealizesPart(ss, ret[0], ps[0]);
  }

  /** Cutting the first n lines off the first segment realizes the cut part. */
  lemma RealizesCut(ret: seq<Segment>, ss: seq<Segment>, ps: seq<Part>, n: nat, first: Segment)
    requires Realizes(ret, ss, ps) && ret != [] && n < |ret[0].lines| && first.lines == ret[0].lines[n..]
    ensures n < Hi(ss, ps[0]) - Lo(ps[0])
    ensures Realizes(ret[0 := first], ss, [Cut(ps[0].idx, Lo(ps[0]) + n, Hi(ss, ps[0]))] + ps[1..])
  {
    var p := ps[0];
    assert RealizesPart(ss, ret[0], p);
    assert ss[p.idx].lines[Lo(p)..Hi(ss, p)][n..] == ss[p.idx].lines[Lo(p) + n..Hi(ss, p)];
    if p.Whole? {
      assert ss[p.idx].lines[0..|ss[p.idx].lines|] == ss[p.idx].lines;
    }
    var ret', ps' := ret[0 := first], [Cut(p.idx, Lo(p) + n, Hi(ss, p))] + ps[1..];
    forall k | 0 <= k < |ps'| ensures RealizesPart(ss, ret'[k], ps'[k]) {
      if k > 0 {
        assert RealizesPart(ss, ret[k], ps[k]);
      }
    }
  }

  /** Sub's second loop drops a first segment that lies wholly before the start. */
  lemma DropFirst(ret: seq<Segment>, kept: seq<Line>, start: nat, n: nat)
    requires ret != [] && n >= |ret[0].lines|
    requires n <= start && start - n <= |kept| && AllLines(ret) == kept[start - n..]
    ensures start - (n - |ret[0].lines|) <= |kept|
    ensures AllLines(ret[1..]) == kept[start - (n - |ret[0].lines|)..]
  {
    AllLinesCons(ret);
  }

  /** Sub's second loop cuts the first segment at the start. */
  lemma CutFirst(ret: seq<Segment>, first: Segment, kept: seq<Line>, start: nat, n: nat)
    requires ret != [] && n < |ret[0].lines| && first.lines == ret[0].lines[n..]
    requires n <= start && start - n <= |kept| && AllLines(ret) == kept[start - n..]
    ensures start <= |kept| && AllLines(ret[0 := first]) == kept[start..]
  {
    AllLinesCons(ret);
    AllLinesCons(ret[0 := first]);
    assert ret[0 := first][1..] == ret[1..];
  }

  /** After Sub's first loop the kept segments hold the first end lines. */
  lemma FirstLoopKeeps(ss: seq<Segment>, ret: seq<Segment>, i: nat, n: nat, end: nat)
    requires i <= |ss| && end <= LineCount(ss) && LineCount(ss) == |AllLines(ss)|
    requires
      || (ret == ss[..i] && LineCount(ss[..i]) + n == end && (n == 0 || i == |ss|))
      || (i < |ss| && 0 < n < |ss[i].lines| && LineCount(ss[..i]) + n == end
          && |ret| == i + 1 && ret[..i] == ss[..i] && ret[i].lines == ss[i].lines[..n])
    ensures AllLines(ret) == AllLines(ss)[..end]
  {
    LineCountIsLength(ss[..i]);
    AllLinesPrefix(ss, i);
    if ret == ss[..i] && LineCount(ss[..i]) + n == end && (n == 0 || i == |ss|) {
      if i == |ss| {
        assert ss[..i] == ss;
      }
    } else {
      AllLinesSnoc(ss, i);
      AllLinesPrefix(ss, i + 1);
      LineCountIsLength(ss[..i + 1]);
      assert ret[..i] == ret[..|ret| - 1];
      var pre := AllLines(ss[..i]);
      assert AllLines(ret) == pre + ss[i].lines[..n];
      assert AllLines(ss)[..end] == (pre + ss[i].lines)[..end];
    }
  }
}
