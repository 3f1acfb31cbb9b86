/** From the working table to the rows written out: one record per station and net, then one row per net. */
module Hierarchy {
  import opened Records
  import opened Folding
  import opened NetBuilding
  import opened Passes
  import opened IdText

  /** A row written out, its ids as text. */
  datatype HierRow = HierRow(myNet: string, systemNet: string, rec: Record)

  /** Latest LTI first, missing dates last; nothing is promised about ties. */
  ghost predicate LatestFirst(rows: seq<Member>) {
    forall i, j :: 0 <= i < j < |rows| ==> !Precedes(rows[i].rec.lti, rows[j].rec.lti)
  }

  method Insert(sorted: seq<Member>, m: Member) returns (out: seq<Member>)
    requires LatestFirst(sorted)
    ensures LatestFirst(out) && multiset(out) == multiset(sorted) + multiset{m}
  {
    var i := 0;
    while i < |sorted| && !Precedes(sorted[i].rec.lti, m.rec.lti)
      invariant i <= |sorted|
      invariant forall k :: 0 <= k < i ==> !Precedes(sorted[k].rec.lti, m.rec.lti)
    {
      i := i + 1;
    }
    out := sorted[..i] + [m] + sorted[i..];
    assert sorted == sorted[..i] + sorted[i..];
  }

  method SortByLti(rows: seq<Member>) returns (sorted: seq<Member>)
    ensures LatestFirst(sorted) && multiset(sorted) == multiset(rows)
  {
    sorted := [];
    for i := 0 to |rows|
      invariant LatestFirst(sorted) && multiset(sorted) == multiset(rows[..i])
    {
      assert rows[..i + 1] == rows[..i] + [rows[i]];
      sorted := Insert(sorted, rows[i]);
    }
    assert rows[..|rows|] == rows;
  }

  predicate SameNetAndStation(a: Member, b: Member) {
    a.netId == b.netId && a.rec.rdfs == b.rec.rdfs
  }

  /** Some row kept for `m`: same net and station, and no earlier LTI. */
  ghost predicate KeptFor(kept: seq<Member>, m: Member) {
    exists k :: 0 <= k < |kept| && SameNetAndStation(kept[k], m) && !Precedes(kept[k].rec.lti, m.rec.lti)
  }

  ghost predicate NoRepeats(kept: seq<Member>) {
    forall k, l :: 0 <= k < l < |kept| ==> !SameNetAndStation(kept[k], kept[l])
  }

  predicate Repeats(kept: seq<Member>, m: Member) {
    exists k :: 0 <= k < |kept| && SameNetAndStation(kept[k], m)
  }

  /** `kept` are the first rows of their net and station among the first `i` sorted rows. */
  ghost predicate Deduped(sorted: seq<Member>, i: nat, kept: seq<Member>, from: seq<int>) {
    && i <= |sorted| && |from| == |kept|
    && (forall k :: 0 <= k < |kept| ==> 0 <= from[k] < i && kept[k] == sorted[from[k]])
    && (forall j {:trigger KeptFor(kept, sorted[j])} :: 0 <= j < i ==> KeptFor(kept, sorted[j]))
    && NoRepeats(kept)
  }

  lemma DedupedRepeat(sorted: seq<Member>, i: nat, kept: seq<Member>, from: seq<int>)
    requires LatestFirst(sorted) && i < |sorted| && Deduped(sorted, i, kept, from) && Repeats(kept, sorted[i])
    ensures Deduped(sorted, i + 1, kept, from)
  {
    var k :| 0 <= k < |kept| && SameNetAndStation(kept[k], sorted[i]);
    assert !Precedes(sorted[from[k]].rec.lti, sorted[i].rec.lti);
    assert KeptFor(kept, sorted[i]);
  }

  lemma DedupedAdd(sorted: seq<Member>, i: nat, kept: seq<Member>, from: seq<int>)
    requires i < |sorted| && Deduped(sorted, i, kept, from) && !Repeats(kept, sorted[i])
    ensures Deduped(sorted, i + 1, kept + [sorted[i]], from + [i])
  {
    var more := kept + [sorted[i]];
    KeptForMore(kept, sorted, i);
    assert SameNetAndStation(more[|kept|], sorted[i]);
    assert KeptFor(more, sorted[i]);
    forall k, l | 0 <= k < l < |more|
      ensures !SameNetAndStation(more[k], more[l])
    {
      if l == |kept| {
        assert !SameNetAndStation(kept[k], sorted[i]);
      }
    }
  }

  lemma DedupedAll(rows: seq<Member>, sorted: seq<Member>, kept: seq<Member>, from: seq<int>)
    requires (forall m :: m in sorted <==> m in rows) && Deduped(sorted, |sorted|, kept, from)
    ensures forall m :: m in kept ==> m in rows
    ensures forall m {:trigger KeptFor(kept, m)} :: m in rows ==> KeptFor(kept, m)
  {
    forall m | m in kept
      ensures m in rows
    {
      var k :| 0 <= k < |kept| && kept[k] == m;
      assert sorted[from[k]] in sorted;
    }
    forall m | m in rows
      ensures KeptFor(kept, m)
    {
      assert m in sorted;
    }
  }

  /** Of each net and station, one row: one with the latest LTI. */
  method DedupRdfsPerNet(rows: seq<Member>) returns (kept: seq<Member>)
    ensures forall m :: m in kept ==> m in rows
    ensures forall m {:trigger KeptFor(kept, m)} :: m in rows ==> KeptFor(kept, m)
    ensures NoRepeats(kept)
  {
    var sorted := SortByLti(rows);
    SameElements(sorted, rows);
    kept := [];
    ghost var from: seq<int> := [];
    for i := 0 to |sorted|
      invariant Deduped(sorted, i, kept, from)
    {
      if Repeats(kept, sorted[i]) {
        DedupedRepeat(sorted, i, kept, from);
      } else {
        DedupedAdd(sorted, i, kept, from);
        kept, from := kept + [sorted[i]], from + [i as int];
      }
    }
    DedupedAll(rows, sorted, kept, from);
  }

  lemma KeptForMore(kept: seq<Member>, sorted: seq<Member>, i: nat)
    requires i < |sorted| && forall j {:trigger KeptFor(kept, sorted[j])} :: 0 <= j < i ==> KeptFor(kept, sorted[j])
    ensures forall j {:trigger KeptFor(kept + [sorted[i]], sorted[j])} :: 0 <= j < i ==>
            KeptFor(kept + [sorted[i]], sorted[j])
  {
    forall j | 0 <= j < i
      ensures KeptFor(kept + [sorted[i]], sorted[j])
    {
      assert KeptFor(kept, sorted[j]);
      var k :| 0 <= k < |kept| && SameNetAndStation(kept[k], sorted[j])
          && !Precedes(kept[k].rec.lti, sorted[j].rec.lti);
      assert SameNetAndStation((kept + [sorted[i]])[k], sorted[j]);
    }
  }

  /** On a table with one row per net the pass loses nothing. */
  lemma DedupKeepsAll(rows: seq<Member>, kept: seq<Member>)
    requires DistinctIds(rows)
    requires forall m :: m in kept ==> m in rows
    requires forall m {:trigger KeptFor(kept, m)} :: m in rows ==> KeptFor(kept, m)
    requires NoRepeats(kept)
    ensures DistinctIds(kept) && forall m :: m in kept <==> m in rows
  {
    forall m | m in rows
      ensures m in kept
    {
      assert KeptFor(kept, m);
      var k :| 0 <= k < |kept| && SameNetAndStation(kept[k], m) && !Precedes(kept[k].rec.lti, m.rec.lti);
      assert kept[k] in kept && kept[k] in rows;
    }
    forall k, l | 0 <= k < l < |kept|
      ensures kept[k].netId != kept[l].netId
    {
      assert kept[k] in kept && kept[l] in kept;
      assert !SameNetAndStation(kept[k], kept[l]);
    }
  }

  /* ------------------------------------------------------------------- grouping */

  ghost predicate Ascending(s: seq<int>) {
    forall i, j :: 0 <= i < j < |s| ==> s[i] < s[j]
  }

  method InsertId(sorted: seq<int>, x: int) returns (out: seq<int>)
    requires Ascending(sorted)
    ensures Ascending(out) && forall y :: y in out <==> y in sorted || y == x
  {
    var i := 0;
    while i < |sorted| && sorted[i] < x
      invariant i <= |sorted|
      invariant forall k :: 0 <= k < i ==> sorted[k] < x
    {
      i := i + 1;
    }
    if i < |sorted| && sorted[i] == x {
      out := sorted;
    } else {
      InsertedAt(sorted, i, x);
      out := sorted[..i] + [x] + sorted[i..];
    }
  }

  lemma InsertedAt(sorted: seq<int>, i: nat, x: int)
    requires Ascending(sorted) && i <= |sorted|
    requires (forall k :: 0 <= k < i ==> sorted[k] < x) && (i < |sorted| ==> x < sorted[i])
    ensures var out := sorted[..i] + [x] + sorted[i..];
            Ascending(out) && forall y :: y in out <==> y in sorted || y == x
  {
    assert sorted == sorted[..i] + sorted[i..];
  }

  /** The group keys of a column, ascending. */
  method GroupKeys(column: seq<int>) returns (keys: seq<int>)
    ensures Ascending(keys) && forall y :: y in keys <==> y in column
  {
    keys := [];
    for i := 0 to |column|
      invariant Ascending(keys) && forall y :: y in keys <==> y in column[..i]
    {
      assert column[..i + 1] == column[..i] + [column[i]];
      keys := InsertId(keys, column[i]);
    }
    assert column[..|column|] == column;
  }

  /** The two columns grouped by. */
  datatype Level = MyNet | SystemNet

  function KeyAt(m: Member, level: Level): int {
    if level.MyNet? then m.myNet else m.netId
  }

  /** The rows of one group. */
  function GroupOf(rows: seq<Member>, level: Level, key: int): (group: seq<Member>)
    ensures forall m :: m in group <==> m in rows && KeyAt(m, level) == key
  {
    if |rows| == 0 then []
    else
      var last := rows[|rows| - 1];
      assert rows == rows[..|rows| - 1] + [last];
      GroupOf(rows[..|rows| - 1], level, key) + (if KeyAt(last, level) == key then [last] else [])
  }

  predicate KeyBefore(a: Member, b: Member) {
    a.myNet < b.myNet || (a.myNet == b.myNet && a.netId < b.netId)
  }

  predicate SameKey(a: Member, b: Member) {
    a.myNet == b.myNet && a.netId == b.netId
  }

  /** Strictly ascending by (my_net_id, net_id). */
  ghost predicate KeyOrder(picks: seq<Member>) {
    forall i, j :: 0 <= i < j < |picks| ==> KeyBefore(picks[i], picks[j])
  }

  ghost predicate PickedFor(picks: seq<Member>, m: Member) {
    exists k :: 0 <= k < |picks| && SameKey(picks[k], m)
  }

  /** `p` is a row of the table and no row of its net is later. */
  ghost predicate LatestOfNet(rows: seq<Member>, p: Member) {
    p in rows && forall m :: m in rows && SameKey(m, p) ==> !Precedes(p.rec.lti, m.rec.lti)
  }

  function Emit(m: Member): HierRow {
    HierRow(FmtMyNet(m.myNet), FmtSystemNet(m.netId), m.rec)
  }

  ghost predicate Emitted(hier: seq<HierRow>, picks: seq<Member>) {
    |hier| == |picks| && forall k :: 0 <= k < |picks| ==> hier[k] == Emit(picks[k])
  }

  method LatestIn(group: seq<Member>, netId: int) returns (p: Member)
    requires exists m :: m in group && m.netId == netId
    ensures p in group && p.netId == netId
    ensures forall m :: m in group && m.netId == netId ==> !Precedes(p.rec.lti, m.rec.lti)
  {
    var net := GroupOf(group, SystemNet, netId);
    var sorted := SortByLti(net);
    SameElements(sorted, net);
    ghost var some :| some in group && some.netId == netId;
    assert some in sorted;
    p := sorted[0];
    assert p in sorted;
    forall m | m in net
      ensures !Precedes(p.rec.lti, m.rec.lti)
    {
      var k :| 0 <= k < |sorted| && sorted[k] == m;
    }
  }

  /** One row for each net of one MY_NET, nets ascending. */
  ghost predicate OneMyNet(rows: seq<Member>, myNet: int, picks: seq<Member>) {
    && (forall k :: 0 <= k < |picks| ==> picks[k].myNet == myNet && LatestOfNet(rows, picks[k]))
    && KeyOrder(picks)
    && (forall m :: m in rows && m.myNet == myNet ==> PickedFor(picks, m))
  }

  lemma KeysOfGroup(group: seq<Member>, keys: seq<int>)
    requires forall y :: y in keys <==> y in NetIds(group)
    ensures forall m :: m in group ==> m.netId in keys
    ensures forall y :: y in keys ==> exists m :: m in group && m.netId == y
  {
    forall m | m in group
      ensures m.netId in keys
    {
      var k :| 0 <= k < |group| && group[k] == m;
      assert NetIds(group)[k] == m.netId;
    }
    forall y | y in keys
      ensures exists m :: m in group && m.netId == y
    {
      var k :| 0 <= k < |group| && NetIds(group)[k] == y;
      assert group[k] in group;
    }
  }

  lemma LatestOfGroup(rows: seq<Member>, myNet: int, group: seq<Member>, p: Member)
    requires forall m :: m in group <==> m in rows && m.myNet == myNet
    requires p in group && forall m :: m in group && m.netId == p.netId ==> !Precedes(p.rec.lti, m.rec.lti)
    ensures p.myNet == myNet && LatestOfNet(rows, p)
  {
  }

  ghost predicate PickedKeys(picks: seq<Member>, keys: seq<int>) {
    |picks| <= |keys| && forall k :: 0 <= k < |picks| ==> picks[k].netId == keys[k]
  }

  lemma PickedOneMyNet(rows: seq<Member>, myNet: int, keys: seq<int>, picks: seq<Member>)
    requires Ascending(keys) && |picks| == |keys| && PickedKeys(picks, keys)
    requires forall k :: 0 <= k < |picks| ==> picks[k].myNet == myNet && LatestOfNet(rows, picks[k])
    requires forall m :: m in rows && m.myNet == myNet ==> m.netId in keys
    ensures OneMyNet(rows, myNet, picks)
  {
    forall m | m in rows && m.myNet == myNet
      ensures PickedFor(picks, m)
    {
      var k :| 0 <= k < |keys| && keys[k] == m.netId;
      assert SameKey(picks[k], m);
    }
  }

  /** The inner grouping: the rows chosen, and what is written for them. */
  method EmitMyNet(rows: seq<Member>, myNet: int) returns (hier: seq<HierRow>, picks: seq<Member>)
    ensures Emitted(hier, picks) && OneMyNet(rows, myNet, picks)
  {
    var group := GroupOf(rows, MyNet, myNet);
    var keys := GroupKeys(NetIds(group));
    KeysOfGroup(group, keys);
    hier, picks := [], [];
    for i := 0 to |keys|
      invariant Emitted(hier, picks) && |picks| == i && PickedKeys(picks, keys)
      invariant forall k :: 0 <= k < i ==> picks[k].myNet == myNet && LatestOfNet(rows, picks[k])
    {
      assert keys[i] in keys;
      var p := LatestIn(group, keys[i]);
      LatestOfGroup(rows, myNet, group, p);
      hier, picks := hier + [Emit(p)], picks + [p];
    }
    PickedOneMyNet(rows, myNet, keys, picks);
  }

  /** What is written out: `picks` has one row for each (my_net_id, net_id), the latest, ascending. */
  ghost predicate IsHierarchy(rows: seq<Member>, picks: seq<Member>) {
    && (forall k :: 0 <= k < |picks| ==> LatestOfNet(rows, picks[k]))
    && KeyOrder(picks)
    && (forall m :: m in rows ==> PickedFor(picks, m))
  }

  ghost predicate IsOutput(rows: seq<Member>, hier: seq<HierRow>) {
    exists picks :: Emitted(hier, picks) && IsHierarchy(rows, picks)
  }

  /** The same, for the MY_NETs before `next` only. */
  ghost predicate IsPartial(rows: seq<Member>, picks: seq<Member>, done: seq<int>) {
    && (forall k :: 0 <= k < |picks| ==> LatestOfNet(rows, picks[k]) && picks[k].myNet in done)
    && KeyOrder(picks)
    && (forall m :: m in rows && m.myNet in done ==> PickedFor(picks, m))
  }

  lemma PickedLeft(a: seq<Member>, b: seq<Member>, m: Member)
    ensures PickedFor(a, m) || PickedFor(b, m) ==> PickedFor(a + b, m)
  {
    if PickedFor(a, m) {
      var k :| 0 <= k < |a| && SameKey(a[k], m);
      assert SameKey((a + b)[k], m);
    } else if PickedFor(b, m) {
      var k :| 0 <= k < |b| && SameKey(b[k], m);
      assert SameKey((a + b)[|a| + k], m);
    }
  }

  lemma PartialGrows(rows: seq<Member>, picks: seq<Member>, done: seq<int>, myNet: int, more: seq<Member>)
    requires IsPartial(rows, picks, done) && OneMyNet(rows, myNet, more)
    requires forall x :: x in done ==> x < myNet
    ensures IsPartial(rows, picks + more, done + [myNet])
  {
    forall m | m in rows && m.myNet in done + [myNet]
      ensures PickedFor(picks + more, m)
    {
      PickedLeft(picks, more, m);
    }
    forall i, j | 0 <= i < j < |picks + more|
      ensures KeyBefore((picks + more)[i], (picks + more)[j])
    {
    }
  }

  lemma PartialIsWhole(rows: seq<Member>, picks: seq<Member>, keys: seq<int>)
    requires IsPartial(rows, picks, keys) && forall y :: y in keys <==> y in MyNets(rows)
    ensures IsHierarchy(rows, picks)
  {
    forall m | m in rows
      ensures PickedFor(picks, m)
    {
      var k :| 0 <= k < |rows| && rows[k] == m;
      assert MyNets(rows)[k] == m.myNet;
    }
  }

  /** The nested grouping over the whole table. */
  method BuildHierarchical(rows: seq<Member>) returns (hier: seq<HierRow>)
    ensures IsOutput(rows, hier)
  {
    var keys := GroupKeys(MyNets(rows));
    hier := [];
    ghost var picks: seq<Member> := [];
    for i := 0 to |keys|
      invariant Emitted(hier, picks) && IsPartial(rows, picks, keys[..i])
    {
      var more, morePicks := EmitMyNet(rows, keys[i]);
      PartialGrows(rows, picks, keys[..i], keys[i], morePicks);
      assert keys[..i + 1] == keys[..i] + [keys[i]];
      EmittedBoth(hier, picks, more, morePicks);
      hier, picks := hier + more, picks + morePicks;
    }
    assert keys[..|keys|] == keys;
    PartialIsWhole(rows, picks, keys);
  }

  lemma EmittedBoth(a: seq<HierRow>, p: seq<Member>, b: seq<HierRow>, q: seq<Member>)
    requires Emitted(a, p) && Emitted(b, q)
    ensures Emitted(a + b, p + q)
  {
    forall k | 0 <= k < |p + q|
      ensures (a + b)[k] == Emit((p + q)[k])
    {
      if k < |p| {
        assert a[k] == Emit(p[k]);
      } else {
        assert b[k - |p|] == Emit(q[k - |p|]);
      }
    }
  }

  /** The only row of its net is picked. */
  lemma OnlyRowPicked(rows: seq<Member>, picks: seq<Member>, m: Member)
    requires DistinctIds(rows) && IsHierarchy(rows, picks) && m in rows
    ensures m in picks
  {
    assert PickedFor(picks, m);
    var k :| 0 <= k < |picks| && SameKey(picks[k], m);
    assert LatestOfNet(rows, picks[k]);
    SameIdSameRow(rows, picks[k], m);
  }

  lemma SameIdSameRow(rows: seq<Member>, a: Member, b: Member)
    requires DistinctIds(rows) && a in rows && b in rows
    ensures a.netId == b.netId ==> a == b
  {
    var i :| 0 <= i < |rows| && rows[i] == a;
    var j :| 0 <= j < |rows| && rows[j] == b;
  }

  /** With one row per net nothing is lost: the rows written out are the rows of the table, in id order. */
  lemma HierarchyKeepsAll(rows: seq<Member>, picks: seq<Member>)
    requires DistinctIds(rows) && IsHierarchy(rows, picks)
    ensures DistinctIds(picks) && forall m :: m in picks <==> m in rows
  {
    forall m | m in rows
      ensures m in picks
    {
      OnlyRowPicked(rows, picks, m);
    }
    forall i, j | 0 <= i < j < |picks|
      ensures picks[i].netId != picks[j].netId
    {
      assert LatestOfNet(rows, picks[i]) && LatestOfNet(rows, picks[j]) && KeyBefore(picks[i], picks[j]);
      assert picks[i] != picks[j];
      SameIdSameRow(rows, picks[i], picks[j]);
    }
  }
}
