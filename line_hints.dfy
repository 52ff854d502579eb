/**
 * The line hint index: annotations keyed by (moment id, line number), kept
 * sorted so that an annotation is found or placed by binary search, and
 * refreshed each main-loop cycle by re-collecting and pruning stale entries.
 */
module LineHints {
  import opened Wrappers
  import opened Moments

  datatype LineHint = LineHint(moment: Moment, line: int, hints: seq<string>, mark: int)

  /** The sort key of an entry: its moment's id, then its line. */
  datatype Key = Key(id: int, line: int)

  function KeyOf(h: LineHint): Key
  {
    Key(h.moment.id, h.line)
  }

  /** The lexicographic order the index is sorted by. */
  predicate Less(a: Key, b: Key)
  {
    a.id < b.id || (a.id == b.id && a.line < b.line)
  }

  /** Strictly ascending keys: sorted, and no key twice. */
  predicate Sorted(hs: seq<LineHint>)
  {
    forall i, j :: 0 <= i < j < |hs| ==> Less(KeyOf(hs[i]), KeyOf(hs[j]))
  }

  /** The index of the entry with the given key, if any. */
  function Find(hs: seq<LineHint>, key: Key): (r: Option<nat>)
    ensures r.Some? ==> r.value < |hs| && KeyOf(hs[r.value]) == key
    ensures r.None? ==> forall k :: 0 <= k < |hs| ==> KeyOf(hs[k]) != key
  {
    if hs == [] then None
    else if KeyOf(hs[0]) == key then Some(0)
    else
      match Find(hs[1..], key)
      case None => assert forall k :: 1 <= k < |hs| ==> hs[k] == hs[1..][k - 1]; None
      case Some(k) => Some(k + 1)
  }

  /** Where a missing key goes: the number of leading entries with smaller keys. */
  function LowerBound(hs: seq<LineHint>, key: Key): (r: nat)
    ensures r <= |hs|
    ensures forall k :: 0 <= k < r ==> Less(KeyOf(hs[k]), key)
    ensures r < |hs| ==> !Less(KeyOf(hs[r]), key)
  {
    if hs == [] || !Less(KeyOf(hs[0]), key) then 0
    else
      var r := LowerBound(hs[1..], key);
      assert forall k :: 1 <= k < r + 1 ==> hs[k] == hs[1..][k - 1];
      r + 1
  }

  /**
   * The entries after add(moment, line, strs) with the current mark: an entry
   * with the key and the same strings only takes the mark; one with other
   * strings is replaced; a missing key is inserted in order.
   */
  function Added(hs: seq<LineHint>, moment: Moment, line: int, strs: seq<string>, mark: int): seq<LineHint>
  {
    match Find(hs, Key(moment.id, line))
    case Some(h) =>
      if hs[h].hints == strs then hs[h := hs[h].(mark := mark)]
      else hs[h := LineHint(moment, line, strs, mark)]
    case None =>
      var i := LowerBound(hs, Key(moment.id, line));
      hs[..i] + [LineHint(moment, line, strs, mark)] + hs[i..]
  }

  /** Whether add(moment, line, strs) sets changed: unless the key is there with the same strings. */
  predicate AddChanges(hs: seq<LineHint>, moment: Moment, line: int, strs: seq<string>)
  {
    match Find(hs, Key(moment.id, line))
    case Some(h) => hs[h].hints != strs
    case None => true
  }

  /** In a sorted index the entry with a key is the only one, so it is the one Find returns. */
  lemma FindUnique(hs: seq<LineHint>, key: Key, h: nat)
    requires Sorted(hs) && h < |hs| && KeyOf(hs[h]) == key
    ensures Find(hs, key) == Some(h)
  {
  }

  /** In a sorted index, a key greater than the entries before i and less than the rest goes at i. */
  lemma {:induction false} LowerBoundUnique(hs: seq<LineHint>, key: Key, i: nat)
    requires i <= |hs|
    requires forall k :: 0 <= k < i ==> Less(KeyOf(hs[k]), key)
    requires forall k :: i <= k < |hs| ==> Less(key, KeyOf(hs[k]))
    ensures LowerBound(hs, key) == i
    decreases i
  {
    if i == 0 {
      if hs != [] {
        assert Less(key, KeyOf(hs[0]));
      }
    } else {
      assert Less(KeyOf(hs[0]), key);
      forall k | 0 <= k < i - 1 ensures Less(KeyOf(hs[1..][k]), key) {
        assert hs[1..][k] == hs[k + 1];
      }
      forall k | i - 1 <= k < |hs| - 1 ensures Less(key, KeyOf(hs[1..][k])) {
        assert hs[1..][k] == hs[k + 1];
      }
      LowerBoundUnique(hs[1..], key, i - 1);
    }
  }

  /** add on a key the binary search found at h. */
  lemma AddedAt(hs: seq<LineHint>, moment: Moment, line: int, strs: seq<string>, mark: int, h: nat)
    requires Sorted(hs) && h < |hs| && KeyOf(hs[h]) == Key(moment.id, line)
    ensures Added(hs, moment, line, strs, mark) ==
      if hs[h].hints == strs then hs[h := hs[h].(mark := mark)] else hs[h := LineHint(moment, line, strs, mark)]
    ensures AddChanges(hs, moment, line, strs) == (hs[h].hints != strs)
  {
  }

  /** add on a key the binary search placed at i. */
  lemma AddedInsert(hs: seq<LineHint>, moment: Moment, line: int, strs: seq<string>, mark: int, i: nat)
    requires Sorted(hs) && i <= |hs|
    requires forall k :: 0 <= k < i ==> Less(KeyOf(hs[k]), Key(moment.id, line))
    requires forall k :: i <= k < |hs| ==> Less(Key(moment.id, line), KeyOf(hs[k]))
    ensures Added(hs, moment, line, strs, mark) == hs[..i] + [LineHint(moment, line, strs, mark)] + hs[i..]
    ensures AddChanges(hs, moment, line, strs)
  {
  }

  /** add keeps the index strictly sorted. */
  lemma AddedSorted(hs: seq<LineHint>, moment: Moment, line: int, strs: seq<string>, mark: int)
    requires Sorted(hs)
    ensures Sorted(Added(hs, moment, line, strs, mark))
  {
  }

  /** The keys of the entries. */
  function Keys(hs: seq<LineHint>): set<Key>
  {
    set h | h in hs :: KeyOf(h)
  }

  /** The keys of the entries carrying mark. */
  function MarkedKeys(hs: seq<LineHint>, mark: int): set<Key>
  {
    set h | h in hs && h.mark == mark :: KeyOf(h)
  }

  /**
   * After add the key is present with the strings and the current mark, the
   * keys are the old ones plus it, and the keys carrying the current mark
   * gain exactly it.
   */
  lemma AddedContents(hs: seq<LineHint>, moment: Moment, line: int, strs: seq<string>, mark: int)
    requires Sorted(hs)
    ensures var r := Added(hs, moment, line, strs, mark);
      && |r| == (if Find(hs, Key(moment.id, line)).Some? then |hs| else |hs| + 1)
      && Keys(r) == Keys(hs) + {Key(moment.id, line)}
      && MarkedKeys(r, mark) == MarkedKeys(hs, mark) + {Key(moment.id, line)}
      && (forall h :: h in hs && KeyOf(h) != Key(moment.id, line) ==> h in r)
      && (forall h :: h in r && KeyOf(h) != Key(moment.id, line) ==> h in hs)
      && exists k :: 0 <= k < |r| && KeyOf(r[k]) == Key(moment.id, line) && r[k].hints == strs && r[k].mark == mark
  {
    var key := Key(moment.id, line);
    var r := Added(hs, moment, line, strs, mark);
    var k := if Find(hs, key).Some? then Find(hs, key).value else LowerBound(hs, key);
    if Find(hs, key).Some? {
      AddedFoundOthers(hs, moment, line, strs, mark);
    } else {
      AddedInsertOthers(hs, moment, line, strs, mark);
    }
    assert KeyOf(r[k]) == key && r[k].hints == strs && r[k].mark == mark;
    SameOtherKeys(hs, r, key, mark, r[k]);
  }

  lemma AddedFoundOthers(hs: seq<LineHint>, moment: Moment, line: int, strs: seq<string>, mark: int)
    requires Find(hs, Key(moment.id, line)).Some?
    ensures var r := Added(hs, moment, line, strs, mark);
      && (forall h :: h in hs && KeyOf(h) != Key(moment.id, line) ==> h in r)
      && (forall h :: h in r && KeyOf(h) != Key(moment.id, line) ==> h in hs)
  {
  }

  lemma AddedInsertOthers(hs: seq<LineHint>, moment: Moment, line: int, strs: seq<string>, mark: int)
    requires Find(hs, Key(moment.id, line)).None?
    ensures var r := Added(hs, moment, line, strs, mark);
      && (forall h :: h in hs ==> h in r)
      && (forall h :: h in r && KeyOf(h) != Key(moment.id, line) ==> h in hs)
  {
  }

  /** Two indexes that agree on every entry with another key agree on its keys up to that key. */
  lemma SameOtherKeys(hs: seq<LineHint>, r: seq<LineHint>, key: Key, mark: int, w: LineHint)
    requires forall h :: h in hs && KeyOf(h) != key ==> h in r
    requires forall h :: h in r && KeyOf(h) != key ==> h in hs
    requires w in r && KeyOf(w) == key && w.mark == mark
    ensures Keys(r) == Keys(hs) + {key}
    ensures MarkedKeys(r, mark) == MarkedKeys(hs, mark) + {key}
  {
  }

  /** The entries a prune keeps: those carrying the current mark, in order. */
  function KeepMarked(hs: seq<LineHint>, mark: int): (r: seq<LineHint>)
    ensures |r| <= |hs|
  {
    if hs == [] then []
    else
      var rest := KeepMarked(hs[..|hs| - 1], mark);
      if hs[|hs| - 1].mark == mark then rest + [hs[|hs| - 1]] else rest
  }

  /** Pruning keeps exactly the entries carrying the mark. */
  lemma {:induction false} KeepMarkedMembers(hs: seq<LineHint>, mark: int)
    ensures forall h :: h in KeepMarked(hs, mark) <==> h in hs && h.mark == mark
    decreases |hs|
  {
    if hs != [] {
      var n := |hs| - 1;
      KeepMarkedMembers(hs[..n], mark);
      assert hs == hs[..n] + [hs[n]];
    }
  }

  lemma KeepMarkedMember(hs: seq<LineHint>, mark: int, h: LineHint)
    ensures h in KeepMarked(hs, mark) <==> h in hs && h.mark == mark
  {
  }

  /** Pruning keeps the order, so a sorted index stays sorted. */
  lemma {:induction false} KeepMarkedSorted(hs: seq<LineHint>, mark: int)
    requires Sorted(hs)
    ensures Sorted(KeepMarked(hs, mark))
    decreases |hs|
  {
    if hs != [] {
      var n := |hs| - 1;
      var init := hs[..n];
      KeepMarkedSorted(init, mark);
      KeepMarkedMembers(init, mark);
      var r := KeepMarked(hs, mark);
      if hs[n].mark == mark {
        var rest := KeepMarked(init, mark);
        assert r == rest + [hs[n]];
        forall a | 0 <= a < |r| - 1 ensures Less(KeyOf(r[a]), KeyOf(hs[n])) {
          assert r[a] == rest[a];
          assert rest[a] in rest;
          KeepMarkedMember(init, mark, rest[a]);
          assert rest[a] in init;
          var k :| 0 <= k < n && init[k] == r[a];
          assert hs[k] == r[a];
        }
      }
    }
  }

  /** A prune that removes nothing leaves the entries as they are. */
  lemma {:induction false} KeepMarkedAll(hs: seq<LineHint>, mark: int)
    ensures |KeepMarked(hs, mark)| == |hs| ==> KeepMarked(hs, mark) == hs
    decreases |hs|
  {
    if hs != [] {
      var n := |hs| - 1;
      KeepMarkedAll(hs[..n], mark);
      assert hs == hs[..n] + [hs[n]];
    }
  }

  /** The keys left after pruning are the keys that carried the mark. */
  lemma KeepMarkedKeys(hs: seq<LineHint>, mark: int)
    ensures Keys(KeepMarked(hs, mark)) == MarkedKeys(hs, mark)
  {
    KeepMarkedMembers(hs, mark);
    var r := KeepMarked(hs, mark);
    forall k | k in MarkedKeys(hs, mark) ensures k in Keys(r) {
      var x :| x in hs && x.mark == mark && KeyOf(x) == k;
      assert x in r;
    }
    forall k | k in Keys(r) ensures k in MarkedKeys(hs, mark) {
      var x :| x in r && KeyOf(x) == k;
      assert x in hs && x.mark == mark;
    }
  }

  /** A supplied annotation: the moment, line and strings a collector passes to add. */
  datatype Supply = Supply(moment: Moment, line: int, strs: seq<string>)

  function SupplyKey(s: Supply): Key
  {
    Key(s.moment.id, s.line)
  }

  /** The keys of the annotations supplied. */
  function SuppliedKeys(ss: seq<Supply>): set<Key>
  {
    set s | s in ss :: SupplyKey(s)
  }

  lemma SuppliedKeysSnoc(ss: seq<Supply>, s: nat)
    requires s < |ss|
    ensures SuppliedKeys(ss[..s + 1]) == SuppliedKeys(ss[..s]) + {SupplyKey(ss[s])}
  {
  }

  /** The entries after a cycle's adds, one supply after another, each taking the given mark. */
  function Collected(hs: seq<LineHint>, ss: seq<Supply>, mark: int): seq<LineHint>
  {
    if ss == [] then hs
    else
      var s := ss[|ss| - 1];
      Added(Collected(hs, ss[..|ss| - 1], mark), s.moment, s.line, s.strs, mark)
  }

  /** Whether one of a cycle's adds sets changed. */
  predicate CollectChanges(hs: seq<LineHint>, ss: seq<Supply>, mark: int)
  {
    if ss == [] then false
    else
      var s := ss[|ss| - 1];
      CollectChanges(hs, ss[..|ss| - 1], mark) || AddChanges(Collected(hs, ss[..|ss| - 1], mark), s.moment, s.line, s.strs)
  }

  /** A cycle's adds keep the index sorted. */
  lemma {:induction false} CollectedSorted(hs: seq<LineHint>, ss: seq<Supply>, mark: int)
    requires Sorted(hs)
    ensures Sorted(Collected(hs, ss, mark))
    decreases |ss|
  {
    if ss != [] {
      var p, s := ss[..|ss| - 1], ss[|ss| - 1];
      CollectedSorted(hs, p, mark);
      AddedSorted(Collected(hs, p, mark), s.moment, s.line, s.strs, mark);
    }
  }

  /** An entry whose key no add of the cycle names is still there, untouched, after the adds. */
  lemma {:induction false} CollectedKeepsUnsupplied(hs: seq<LineHint>, ss: seq<Supply>, mark: int, h: LineHint)
    requires Sorted(hs) && h in hs && KeyOf(h) !in SuppliedKeys(ss)
    ensures h in Collected(hs, ss, mark)
    decreases |ss|
  {
    if ss != [] {
      var p, s := ss[..|ss| - 1], ss[|ss| - 1];
      assert SuppliedKeys(ss) == SuppliedKeys(p) + {SupplyKey(s)} by {
        SuppliedKeysSnoc(ss, |ss| - 1);
        assert ss[..|ss|] == ss;
      }
      CollectedKeepsUnsupplied(hs, p, mark, h);
      CollectedSorted(hs, p, mark);
      AddedContents(Collected(hs, p, mark), s.moment, s.line, s.strs, mark);
    }
  }

  /** Pruning shortens a list that holds an entry without the mark. */
  lemma PruneDropsStale(hs: seq<LineHint>, mark: int, h: LineHint)
    requires h in hs && h.mark != mark
    ensures |KeepMarked(hs, mark)| < |hs|
  {
    KeepMarkedMember(hs, mark, h);
    KeepMarkedAll(hs, mark);
  }

  /** When a key of a cycle's starting index is not supplied again, the prune removes its entry. */
  lemma UnsuppliedKeyPruned(hs: seq<LineHint>, ss: seq<Supply>, mark: int)
    requires Sorted(hs) && forall k :: 0 <= k < |hs| ==> hs[k].mark < mark
    requires Keys(hs) - SuppliedKeys(ss) != {}
    ensures |KeepMarked(Collected(hs, ss, mark), mark)| < |Collected(hs, ss, mark)|
  {
    var key :| key in Keys(hs) - SuppliedKeys(ss);
    var h :| h in hs && KeyOf(h) == key;
    CollectedKeepsUnsupplied(hs, ss, mark, h);
    PruneDropsStale(Collected(hs, ss, mark), mark, h);
  }

  /** The sorted index with the changed flag and the generation mark of the current cycle. */
  class Index {
    var hints: seq<LineHint>
    var changed: bool
    var mark: int

    /** The index is sorted and no entry is marked ahead of the current cycle. */
    ghost predicate Valid()
      reads this
    {
      Sorted(hints) && forall k :: 0 <= k < |hints| ==> hints[k].mark <= mark
    }

    constructor ()
      ensures hints == [] && !changed && mark == 42 && Valid()
    {
      hints := [];
      changed := false;
      mark := 42;
    }

    /** The add closure: binary search on (moment id, line), then update in place or insert. */
    method Add(moment: Moment, line: int, strs: seq<string>)
      requires Valid()
      modifies this`hints, this`changed
      ensures Valid()
      ensures hints == Added(old(hints), moment, line, strs, mark)
      ensures changed == (old(changed) || AddChanges(old(hints), moment, line, strs))
    {
      var found, h := Search(hints, moment.id, line);
      AddedSorted(hints, moment, line, strs, mark);
      if found {
        AddedAt(hints, moment, line, strs, mark, h);
        var same := SameStrings(strs, hints[h].hints);
        if !same {
          changed := true;
          hints := hints[h := LineHint(moment, line, strs, mark)];
        } else {
          hints := hints[h := hints[h].(mark := mark)];
        }
        return;
      }
      AddedInsert(hints, moment, line, strs, mark, h);
      changed := true;
      hints := hints[..h] + [LineHint(moment, line, strs, mark)] + hints[h..];
    }

    /** The start of an EvLoopBegin cycle: clear changed and advance the mark. */
    method BeginCycle()
      requires Valid()
      modifies this`changed, this`mark
      ensures Valid() && !changed && mark == old(mark) + 1
      ensures forall k :: 0 <= k < |hints| ==> hints[k].mark < mark
    {
      changed := false;
      mark := mark + 1;
    }

    /** The end of a cycle: drop the entries not marked this cycle; cont() is called iff changed. */
    method Prune() returns (cont: bool)
      requires Valid()
      modifies this`hints, this`changed
      ensures Valid()
      ensures hints == KeepMarked(old(hints), mark)
      ensures changed == (old(changed) || |KeepMarked(old(hints), mark)| < |old(hints)|)
      ensures cont == changed
    {
      var hs: seq<LineHint> := [];
      for k := 0 to |hints|
        modifies this`changed
        invariant hs == KeepMarked(hints[..k], mark)
        invariant changed == (old(changed) || |hs| < k)
      {
        assert hints[..k + 1][..k] == hints[..k];
        if hints[k].mark == mark {
          hs := hs + [hints[k]];
        } else {
          changed := true;
        }
      }
      assert hints[..|hints|] == hints;
      KeepMarkedSorted(hints, mark);
      KeepMarkedMembers(hints, mark);
      KeepMarkedAll(hints, mark);
      cont := false;
      if changed {
        hints := hs;
        cont := true;
      }
    }

    /**
     * One EvLoopBegin cycle: begin, collect the supplied annotations through
     * add, and prune. Afterwards the index is the collected entries that carry
     * the new mark, so it holds exactly the supplied keys; changed (and so
     * cont) holds exactly when an add changed something or the prune removed
     * an entry, which it does whenever a key of the old index was not supplied.
     */
    method Cycle(supplies: seq<Supply>) returns (cont: bool)
      requires Valid()
      modifies this`hints, this`changed, this`mark
      ensures Valid() && mark == old(mark) + 1
      ensures hints == KeepMarked(Collected(old(hints), supplies, mark), mark)
      ensures Keys(hints) == SuppliedKeys(supplies)
      ensures forall k :: 0 <= k < |hints| ==> hints[k].mark == mark
      ensures changed == (CollectChanges(old(hints), supplies, mark) || |hints| < |Collected(old(hints), supplies, mark)|)
      ensures Keys(old(hints)) - SuppliedKeys(supplies) != {} ==> cont
      ensures cont == changed
    {
      BeginCycle();
      ghost var start := hints;
      for s := 0 to |supplies|
        invariant Valid() && mark == old(mark) + 1
        invariant MarkedKeys(hints, mark) == SuppliedKeys(supplies[..s])
        invariant hints == Collected(start, supplies[..s], mark)
        invariant changed == CollectChanges(start, supplies[..s], mark)
      {
        assert supplies[..s + 1][..s] == supplies[..s];
        SuppliedKeysSnoc(supplies, s);
        AddedContents(hints, supplies[s].moment, supplies[s].line, supplies[s].strs, mark);
        Add(supplies[s].moment, supplies[s].line, supplies[s].strs);
      }
      assert supplies[..|supplies|] == supplies;
      ghost var collected := hints;
      cont := Prune();
      KeepMarkedKeys(collected, mark);
      KeepMarkedMembers(collected, mark);
      if Keys(start) - SuppliedKeys(supplies) != {} {
        UnsuppliedKeyPruned(start, supplies, mark);
      }
    }
  }

  /**
   * The binary search of add: the index of the entry with key (id, line), or
   * where such an entry belongs, every entry before it smaller and every
   * entry from it on larger.
   */
  method Search(hs: seq<LineHint>, id: int, line: int) returns (found: bool, i: nat)
    requires Sorted(hs)
    ensures i <= |hs|
    ensures found ==> i < |hs| && KeyOf(hs[i]) == Key(id, line)
    ensures !found ==> forall k :: 0 <= k < i ==> Less(KeyOf(hs[k]), Key(id, line))
    ensures !found ==> forall k :: i <= k < |hs| ==> Less(Key(id, line), KeyOf(hs[k]))
  {
    var key := Key(id, line);
    var j;
    i, j := 0, |hs|;
    while i < j
      invariant 0 <= i <= j <= |hs|
      invariant forall k :: 0 <= k < i ==> Less(KeyOf(hs[k]), key)
      invariant forall k :: j <= k < |hs| ==> Less(key, KeyOf(hs[k]))
    {
      var h := (i + j) / 2;
      var hint := hs[h];
      if id > hint.moment.id {
        i := h + 1;
      } else if id < hint.moment.id {
        j := h;
      } else {
        if line > hint.line {
          i := h + 1;
        } else if line < hint.line {
          j := h;
        } else {
          return true, h;
        }
      }
    }
    found := false;
  }

  /** The string comparison loop of add: same length and equal element by element. */
  method SameStrings(a: seq<string>, b: seq<string>) returns (same: bool)
    ensures same <==> a == b
  {
    same := true;
    if |a| != |b| {
      same := false;
    } else {
      for i := 0 to |a|
        invariant a[..i] == b[..i]
      {
        if a[i] != b[i] {
          same := false;
          return;
        }
      }
      assert a == a[..|a|] && b == b[..|b|];
    }
  }
}
