/**
 From the numbers recorded since the last feedback to the list one feedback reports:
 sorting, skipping what was reported before, and filling the gaps with numbers that
 did not arrive.
 */
module TwccBatch {
  import opened Words
  import opened TwccDeltas

  predicate Sorted(s: seq<ExtInfo>) {
    forall i, j :: 0 <= i < j < |s| ==> s[i].tsn <= s[j].tsn
  }

  predicate Distinct(s: seq<ExtInfo>) {
    forall i, j :: 0 <= i < j < |s| ==> s[i].tsn != s[j].tsn
  }

  function Insert(x: ExtInfo, s: seq<ExtInfo>): seq<ExtInfo> {
    if s == [] || s[|s| - 1].tsn <= x.tsn then s + [x]
    else Insert(x, s[..|s| - 1]) + [s[|s| - 1]]
  }

  /** The recorded numbers in ascending order. */
  function SortByTsn(s: seq<ExtInfo>): seq<ExtInfo> {
    if s == [] then [] else Insert(s[|s| - 1], SortByTsn(s[..|s| - 1]))
  }

  /** The numbers strictly between `last` and `tsn`, none of which arrived. */
  function Missing(last: uint32, tsn: uint32): (r: seq<ExtInfo>)
    ensures |r| == if Wrap32(last + 1) < tsn then tsn - Wrap32(last + 1) else 0
  {
    if Wrap32(last + 1) < tsn then
      seq(tsn - Wrap32(last + 1), k requires 0 <= k < tsn - Wrap32(last + 1) => ExtInfo(Wrap32(last + 1) + k, 0))
    else []
  }

  /** One turn of the loop: a number below the last one reported is skipped. */
  function Extend(last: uint32, ps: seq<ExtInfo>, x: ExtInfo): (uint32, seq<ExtInfo>) {
    if x.tsn < last then (last, ps)
    else (x.tsn, ps + (if last != 0 then Missing(last, x.tsn) else []) + [x])
  }

  /** The last number reported, and the list to report. */
  function FillGaps(last: uint32, infos: seq<ExtInfo>): (uint32, seq<ExtInfo>) {
    if infos == [] then (last, [])
    else
      var (l, ps) := FillGaps(last, infos[..|infos| - 1]);
      Extend(l, ps, infos[|infos| - 1])
  }

  function Batch(last: uint32, recorded: seq<ExtInfo>): (uint32, seq<ExtInfo>) {
    FillGaps(last, SortByTsn(recorded))
  }

  // ---------------------------------------------------------------- sorting

  predicate Ascending(s: seq<ExtInfo>) {
    forall i, j :: 0 <= i < j < |s| ==> s[i].tsn < s[j].tsn
  }

  lemma {:induction false} InsertMembers(x: ExtInfo, s: seq<ExtInfo>)
    ensures multiset(Insert(x, s)) == multiset(s) + multiset{x}
    ensures forall y :: y in Insert(x, s) <==> y in s || y == x
  {
    if s == [] || s[|s| - 1].tsn <= x.tsn {
    } else {
      InsertMembers(x, s[..|s| - 1]);
      assert s == s[..|s| - 1] + [s[|s| - 1]];
    }
  }

  lemma {:induction false} InsertSorts(x: ExtInfo, s: seq<ExtInfo>)
    requires Sorted(s)
    ensures Sorted(Insert(x, s))
    ensures Ascending(s) && (forall i :: 0 <= i < |s| ==> s[i].tsn != x.tsn) ==> Ascending(Insert(x, s))
  {
    if s == [] || s[|s| - 1].tsn <= x.tsn {
    } else {
      var front, last := s[..|s| - 1], s[|s| - 1];
      InsertSorts(x, front);
      InsertMembers(x, front);
      var r := Insert(x, front);
      forall i | 0 <= i < |r|
        ensures r[i].tsn <= last.tsn
        ensures Ascending(s) ==> r[i].tsn < last.tsn
      {
        assert r[i] in front || r[i] == x;
      }
      AppendSorted(r, last);
    }
  }

  lemma {:induction false} AppendSorted(r: seq<ExtInfo>, last: ExtInfo)
    requires Sorted(r) && forall i :: 0 <= i < |r| ==> r[i].tsn <= last.tsn
    ensures Sorted(r + [last])
    ensures Ascending(r) && (forall i :: 0 <= i < |r| ==> r[i].tsn < last.tsn) ==> Ascending(r + [last])
  {
  }

  /** Sorting keeps every record. */
  lemma {:induction false} SortPermutes(s: seq<ExtInfo>)
    ensures multiset(SortByTsn(s)) == multiset(s)
    ensures forall y :: y in SortByTsn(s) <==> y in s
  {
    if s == [] {
    } else {
      var front, last := s[..|s| - 1], s[|s| - 1];
      SortPermutes(front);
      InsertMembers(last, SortByTsn(front));
      assert s == front + [last];
    }
  }

  /** Sorting orders the numbers, strictly when they are distinct. */
  lemma {:induction false} SortSorts(s: seq<ExtInfo>)
    ensures Sorted(SortByTsn(s))
    ensures Distinct(s) ==> Ascending(SortByTsn(s))
  {
    if s == [] {
    } else {
      var front, last := s[..|s| - 1], s[|s| - 1];
      SortSorts(front);
      SortPermutes(front);
      var r := SortByTsn(front);
      InsertSorts(last, r);
      if Distinct(s) {
        forall i | 0 <= i < |r| ensures r[i].tsn != last.tsn {
          assert r[i] in front;
        }
      }
    }
  }

  /** With distinct numbers every sort gives the same list, so an unstable one does no harm. */
  lemma {:induction false} SortUnique(a: seq<ExtInfo>, b: seq<ExtInfo>)
    requires Ascending(a) && Ascending(b)
    requires forall y :: y in a <==> y in b
    ensures a == b
  {
    if a == [] {
      assert forall i :: 0 <= i < |b| ==> b[i] in a;
    } else {
      assert a[0] in b;
      var x, y := a[|a| - 1], b[|b| - 1];
      var a', b' := a[..|a| - 1], b[..|b| - 1];
      assert x in b && y in a;
      assert x == y;
      forall z ensures z in a' <==> z in b' {
        assert z in a <==> z in a' || z == x;
        assert z in b <==> z in b' || z == x;
      }
      SortUnique(a', b');
    }
  }

  // ---------------------------------------------------------------- tiling

  /** The list reports exactly the numbers that follow `last`. */
  predicate Tiles(last: uint32, ps: seq<ExtInfo>) {
    forall k :: 0 <= k < |ps| ==> ps[k].tsn == last + 1 + k
  }

  predicate Contiguous(ps: seq<ExtInfo>) {
    forall k :: 0 <= k < |ps| ==> ps[k].tsn == ps[0].tsn + k
  }

  /** No number at or above `last` is recorded twice, and `last` itself not again. */
  predicate Fresh(last: uint32, infos: seq<ExtInfo>) {
    && (forall i :: 0 <= i < |infos| ==> infos[i].tsn != last)
    && (forall i, j :: 0 <= i < j < |infos| && infos[i].tsn >= last ==> infos[i].tsn != infos[j].tsn)
  }

  predicate NotTop(infos: seq<ExtInfo>) { forall i :: 0 <= i < |infos| ==> infos[i].tsn < 0xFFFF_FFFF }

  lemma {:induction false} FillGapsLast(last: uint32, infos: seq<ExtInfo>)
    requires Sorted(infos)
    ensures var (l, ps) := FillGaps(last, infos);
            && last <= l
            && (ps == [] ==> l == last)
            && (ps != [] ==> l == ps[|ps| - 1].tsn == infos[|infos| - 1].tsn)
            && (ps == [] ==> forall i :: 0 <= i < |infos| ==> infos[i].tsn < last)
  {
    if infos == [] {
    } else {
      FillGapsLast(last, infos[..|infos| - 1]);
    }
  }

  lemma {:induction false} TileExtends(last: uint32, l: uint32, ps: seq<ExtInfo>, x: ExtInfo)
    requires last <= l < x.tsn < 0xFFFF_FFFF
    requires Tiles(last, ps) ==> l == last + |ps|
    ensures var ps' := ps + Missing(l, x.tsn) + [x];
            && (Tiles(last, ps') <==> Tiles(last, ps))
            && (Tiles(last, ps) ==> x.tsn == last + |ps'|)
  {
    var ps' := ps + Missing(l, x.tsn) + [x];
    if Tiles(last, ps) {
      assert Tiles(last, ps');
    }
    if Tiles(last, ps') {
      assert forall k :: 0 <= k < |ps| ==> ps'[k] == ps[k];
    }
  }

  lemma {:induction false} FreshExtends(last: uint32, front: seq<ExtInfo>, x: ExtInfo)
    requires last < x.tsn && forall i :: 0 <= i < |front| ==> front[i].tsn < x.tsn
    ensures Fresh(last, front + [x]) <==> Fresh(last, front)
  {
    var infos := front + [x];
    assert forall i :: 0 <= i < |front| ==> infos[i] == front[i];
  }

  /** One turn keeps the agreement between tiling and freshness. */
  lemma {:induction false} ExtendTiles(last: uint32, front: seq<ExtInfo>, x: ExtInfo, l: uint32, ps: seq<ExtInfo>)
    requires 0 < last <= l && x.tsn < 0xFFFF_FFFF && Sorted(front + [x])
    requires if ps == [] then l == last && (forall i :: 0 <= i < |front| ==> front[i].tsn < last)
             else front != [] && l == ps[|ps| - 1].tsn == front[|front| - 1].tsn
    requires Tiles(last, ps) <==> Fresh(last, front)
    requires Tiles(last, ps) ==> l == last + |ps|
    ensures var (l', ps') := Extend(l, ps, x);
            && (Tiles(last, ps') <==> Fresh(last, front + [x]))
            && (Tiles(last, ps') ==> l' == last + |ps'|)
  {
    var infos := front + [x];
    assert forall i :: 0 <= i < |front| ==> infos[i] == front[i];
    assert infos[|front|] == x;
    var ps' := Extend(l, ps, x).1;
    if x.tsn < l {
      assert ps == [];
    } else if x.tsn > l {
      TileExtends(last, l, ps, x);
      FreshExtends(last, front, x);
    } else if ps == [] {
      assert ps'[0].tsn != last + 1;
    } else {
      assert ps' == ps + [x];
      assert ps'[|ps|].tsn == ps'[|ps| - 1].tsn;
      assert infos[|front| - 1].tsn == infos[|front|].tsn;
    }
  }

  /**
   A sorted batch tiles the numbers after `last` exactly when it repeats none of them:
   a repeated number is reported twice and shifts every later one.
   */
  lemma {:induction false} FillGapsTiles(last: uint32, infos: seq<ExtInfo>)
    requires Sorted(infos) && NotTop(infos) && 0 < last
    ensures var (l, ps) := FillGaps(last, infos);
            && (Tiles(last, ps) <==> Fresh(last, infos))
            && (Tiles(last, ps) ==> l == last + |ps|)
  {
    if infos == [] {
    } else {
      var front, x := infos[..|infos| - 1], infos[|infos| - 1];
      FillGapsTiles(last, front);
      FillGapsLast(last, front);
      var (l, ps) := FillGaps(last, front);
      assert infos == front + [x];
      ExtendTiles(last, front, x, l, ps);
    }
  }

  lemma {:induction false} ExtendPrepends(p: ExtInfo, l: uint32, ps: seq<ExtInfo>, x: ExtInfo)
    ensures Extend(l, [p] + ps, x) == (Extend(l, ps, x).0, [p] + Extend(l, ps, x).1)
  {
    var fill := if l != 0 then Missing(l, x.tsn) else [];
    assert [p] + ps + fill + [x] == [p] + (ps + fill + [x]);
  }

  /** In the first batch ever the smallest number starts the list. */
  lemma {:induction false} FillGapsFirst(infos: seq<ExtInfo>)
    requires infos != []
    ensures FillGaps(0, infos) ==
            (FillGaps(infos[0].tsn, infos[1..]).0, [infos[0]] + FillGaps(infos[0].tsn, infos[1..]).1)
  {
    if |infos| == 1 {
      assert infos[..0] == [] && infos[1..] == [];
      assert [] + [] + [infos[0]] == [infos[0]] + [];
    } else {
      var n := |infos| - 1;
      var front, x := infos[..n], infos[n];
      FillGapsFirst(front);
      assert front[1..] == infos[1..][..n - 1];
      assert infos[1..][n - 1] == x;
      var (l, ps) := FillGaps(infos[0].tsn, front[1..]);
      ExtendPrepends(infos[0], l, ps, x);
    }
  }

  lemma {:induction false} FillGapsStep(last: uint32, infos: seq<ExtInfo>, k: nat)
    requires k < |infos|
    ensures FillGaps(last, infos[..k + 1]) ==
            Extend(FillGaps(last, infos[..k]).0, FillGaps(last, infos[..k]).1, infos[k])
  {
    assert infos[..k + 1][..k] == infos[..k];
  }

  /**
   What each reported number says: a recorded number its recorded arrival, any other
   number in between that nothing arrived.  Every recorded number above `last` is there.
   */
  lemma {:induction false} FillGapsContent(last: uint32, infos: seq<ExtInfo>)
    requires Sorted(infos)
    ensures var ps := FillGaps(last, infos).1;
            && (forall k :: 0 <= k < |ps| ==> ps[k] in infos || ps[k].timestamp == 0)
            && (forall i :: 0 <= i < |infos| && infos[i].tsn >= last ==> infos[i] in ps)
  {
    if infos == [] {
    } else {
      hide Extend;
      var front, x := infos[..|infos| - 1], infos[|infos| - 1];
      FillGapsContent(last, front);
      FillGapsLast(last, front);
      var (l, ps) := FillGaps(last, front);
      assert infos == front + [x];
      ContentExtended(front, ps, l, x, Extend(l, ps, x).1, last);
    }
  }

  /** Every listed record is a recorded one or says nothing arrived, and every recorded one from `last` on is listed. */
  predicate Lists(ps: seq<ExtInfo>, infos: seq<ExtInfo>, last: uint32) {
    && (forall k :: 0 <= k < |ps| ==> ps[k] in infos || ps[k].timestamp == 0)
    && (forall i :: 0 <= i < |infos| && infos[i].tsn >= last ==> infos[i] in ps)
  }

  lemma {:induction false} ContentExtended(
      front: seq<ExtInfo>, ps: seq<ExtInfo>, l: uint32, x: ExtInfo, ps': seq<ExtInfo>, last: uint32)
    requires Lists(ps, front, last) && ps' == Extend(l, ps, x).1 && (x.tsn >= last ==> x.tsn >= l)
    ensures Lists(ps', front + [x], last)
  {
    ExtendContent(l, ps, x);
    hide Extend;
    forall k | 0 <= k < |ps'| ensures ps'[k] in front + [x] || ps'[k].timestamp == 0 {
      if ps'[k] in ps {
        var j :| 0 <= j < |ps| && ps[j] == ps'[k];
      }
    }
    forall i | 0 <= i < |front + [x]| && (front + [x])[i].tsn >= last ensures (front + [x])[i] in ps' {
      if i < |front| {
        var j :| 0 <= j < |ps| && ps[j] == front[i];
      }
    }
  }

  /** One turn keeps what is listed, adds the record unless it is skipped, and nothing else that arrived. */
  lemma {:induction false} ExtendContent(l: uint32, ps: seq<ExtInfo>, x: ExtInfo)
    ensures var ps' := Extend(l, ps, x).1;
            && (forall k :: 0 <= k < |ps'| ==> ps'[k] in ps || ps'[k] == x || ps'[k].timestamp == 0)
            && (forall k :: 0 <= k < |ps| ==> ps[k] in ps')
            && (x.tsn >= l ==> x in ps')
  {
    var ps' := Extend(l, ps, x).1;
    forall k | 0 <= k < |ps| ensures ps[k] in ps' {
      assert ps'[k] == ps[k];
    }
  }

  // ---------------------------------------------------------------- runs of feedbacks

  /** What a run of batches reports, from the last number reported before it. */
  function Feedbacks(last: uint32, batches: seq<seq<ExtInfo>>): seq<seq<ExtInfo>>
    decreases |batches|
  {
    if batches == [] then []
    else
      var (l, ps) := Batch(last, batches[0]);
      [ps] + Feedbacks(l, batches[1..])
  }

  /** Numbers are nonzero and recorded once, and the batch has one above those reported. */
  predicate Advances(last: uint32, batch: seq<ExtInfo>) {
    && Distinct(batch)
    && (forall i :: 0 <= i < |batch| ==> 0 < batch[i].tsn < 0xFFFF_FFFF && batch[i].tsn != last)
    && (exists i :: 0 <= i < |batch| && batch[i].tsn > last)
  }

  predicate Progressing(last: uint32, batches: seq<seq<ExtInfo>>)
    decreases |batches|
  {
    batches == [] || (Advances(last, batches[0]) && Progressing(Batch(last, batches[0]).0, batches[1..]))
  }

  lemma {:induction false} AscendingFresh(last: uint32, infos: seq<ExtInfo>)
    requires Ascending(infos) && forall i :: 0 <= i < |infos| ==> infos[i].tsn != last
    ensures Fresh(last, infos)
  {
  }

  lemma {:induction false} TilesContiguous(last: uint32, ps: seq<ExtInfo>)
    requires Tiles(last, ps)
    ensures Contiguous(ps)
  {
  }

  lemma {:induction false} SortedBatch(last: uint32, batch: seq<ExtInfo>)
    requires Advances(last, batch)
    ensures var infos := SortByTsn(batch);
            && infos != [] && Sorted(infos) && Ascending(infos)
            && (forall i :: 0 <= i < |infos| ==> 0 < infos[i].tsn < 0xFFFF_FFFF && infos[i].tsn != last)
            && infos[|infos| - 1].tsn > last
  {
    SortSorts(batch);
    SortPermutes(batch);
    var infos := SortByTsn(batch);
    assert forall i :: 0 <= i < |infos| ==> infos[i] in batch;
    var i :| 0 <= i < |batch| && batch[i].tsn > last;
    assert batch[i] in infos;
  }

  /** One batch of a run: a contiguous list that starts right after `last`, unless nothing was reported yet. */
  lemma {:induction false} BatchTiles(last: uint32, batch: seq<ExtInfo>)
    requires Advances(last, batch) && last < 0xFFFF_FFFF
    ensures var (l, ps) := Batch(last, batch);
            && ps != [] && Contiguous(ps)
            && (last > 0 ==> ps[0].tsn == last + 1)
            && l == ps[0].tsn + |ps| - 1 && 0 < l < 0xFFFF_FFFF
  {
    SortedBatch(last, batch);
    var infos := SortByTsn(batch);
    FillGapsLast(last, infos);
    if last > 0 {
      FillGapsTiles(last, infos);
      AscendingFresh(last, infos);
      TilesContiguous(last, FillGaps(last, infos).1);
    } else {
      FirstBatchTiles(infos);
    }
  }

  lemma {:induction false} FirstBatchTiles(infos: seq<ExtInfo>)
    requires infos != [] && Sorted(infos) && Ascending(infos) && NotTop(infos) && infos[0].tsn > 0
    ensures var (l, ps) := FillGaps(0, infos);
            && ps != [] && Contiguous(ps) && l == ps[0].tsn + |ps| - 1
  {
    var first, rest := infos[0].tsn, infos[1..];
    FillGapsFirst(infos);
    FillGapsTiles(first, rest);
    AscendingFresh(first, rest);
    var ps := FillGaps(first, rest).1;
    FillGapsLast(first, rest);
    PrependContiguous(infos[0], ps);
  }

  lemma {:induction false} PrependContiguous(x: ExtInfo, ps: seq<ExtInfo>)
    requires Tiles(x.tsn, ps)
    ensures Contiguous([x] + ps)
  {
  }

  /** Over a whole run the feedbacks tile the sequence space: each is contiguous and starts where the one before ended. */
  lemma {:induction false} FeedbacksTile(last: uint32, batches: seq<seq<ExtInfo>>)
    requires last < 0xFFFF_FFFF && Progressing(last, batches)
    decreases |batches|
    ensures var fs := Feedbacks(last, batches);
            && |fs| == |batches|
            && (forall i :: 0 <= i < |fs| ==> fs[i] != [] && Contiguous(fs[i]))
            && (last > 0 && fs != [] ==> fs[0][0].tsn == last + 1)
            && (forall i :: 0 < i < |fs| ==> fs[i][0].tsn == fs[i - 1][0].tsn + |fs[i - 1]|)
  {
    if batches == [] {
    } else {
      BatchTiles(last, batches[0]);
      var (l, ps) := Batch(last, batches[0]);
      var rest: seq<seq<ExtInfo>> := Feedbacks(l, batches[1..]);
      FeedbacksTile(l, batches[1..]);
      var fs: seq<seq<ExtInfo>> := Feedbacks(last, batches);
      forall i | 0 < i < |fs| ensures fs[i][0].tsn == fs[i - 1][0].tsn + |fs[i - 1]| {
        assert fs[i] == rest[i - 1];
        if i > 1 {
          assert fs[i - 1] == rest[i - 2];
        }
      }
    }
  }

  // ---------------------------------------------------------------- unwrapping

  /** The cycle count after a packet: a small number that follows a large one starts a new cycle. */
  function NextCycles(cycles: uint32, lastSn: uint16, sn: uint16): uint32 {
    if sn < 0x0FFF && lastSn > 0xF000 then Wrap32(cycles + 0x1_0000) else cycles
  }

  /**
   A true number x follows `previous` at a distance below 0x0FFF.  Whatever the cycle
   counted so far, it is raised exactly when x is the first of the next cycle; so a rightly
   counted cycle stays right unless the packet belongs to the cycle before, that is, was
   overtaken at the wrap.
   */
  lemma {:induction false} UnwrapStep(cycles: uint32, previous: nat, x: nat)
    requires -0x0FFF < x - previous < 0x0FFF
    ensures NextCycles(cycles, Wrap16(previous), Wrap16(x)) ==
            if x / 0x1_0000 > previous / 0x1_0000 then Wrap32(cycles + 0x1_0000) else cycles
    ensures -1 <= x / 0x1_0000 - previous / 0x1_0000 <= 1
    ensures cycles == previous / 0x1_0000 * 0x1_0000 && x < 0xFFFF_0000 ==>
              (NextCycles(cycles, Wrap16(previous), Wrap16(x)) == x / 0x1_0000 * 0x1_0000 <==>
               x / 0x1_0000 >= previous / 0x1_0000)
  {
    var q, r := previous / 0x1_0000, previous % 0x1_0000;
    var q', r' := x / 0x1_0000, x % 0x1_0000;
    assert x - previous == (q' - q) * 0x1_0000 + (r' - r);
    assert -1 <= q' - q <= 1;
  }

  /**
   A wrap is seen exactly from the last 4095 numbers of a cycle to the first 4095: a packet
   of the next cycle elsewhere is missed, and a jump back between the two is taken for
   a wrap.
   */
  lemma {:induction false} WrapSeen(cycles: uint32, previous: nat, x: nat)
    ensures NextCycles(cycles, Wrap16(previous), Wrap16(x)) != cycles
            <==> previous % 0x1_0000 >= 61441 && x % 0x1_0000 <= 4094
  {
  }
}
