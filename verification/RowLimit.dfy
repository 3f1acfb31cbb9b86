/** The row limit of the read that fetches an absorbed group: what holds within it, and what breaks beyond. */
module RowLimit {
  import opened Grouping
  import opened Pipeline
  import opened Decisions
  import opened Machine

  /** An approval that merges two groups keeps labels and approved pairs in step exactly when the
      absorbed group has at most 10000 nets. */
  lemma MergeExactIffFits(w: World, a: int, b: int, order: seq<int>, now: int)
    requires Lists(order, w.st.nets.Keys) && LedgerOk(w.st) && GroupsExact(w)
    requires Merges(w.st, a, b, "approve")
    ensures GroupsExact(Apply(w, RunDecide(a, b, "approve", order, now))) <==>
            |GroupIds(w.st.nets, Higher(w.st.nets, Ordered(a, b)))| <= FIND_LIMIT
  {
    var s, p := w.st, Ordered(a, b);
    var higher := Higher(s.nets, p);
    if |GroupIds(s.nets, higher)| <= FIND_LIMIT {
      DecideGroups(w, a, b, "approve", order, now);
    } else {
      MergeLeavesRowsBehind(w, a, b, order, now);
    }
  }

  lemma MergeLeavesRowsBehind(w: World, a: int, b: int, order: seq<int>, now: int)
    requires Lists(order, w.st.nets.Keys) && GroupsExact(w)
    requires Merges(w.st, a, b, "approve")
    requires |GroupIds(w.st.nets, Higher(w.st.nets, Ordered(a, b)))| > FIND_LIMIT
    ensures !GroupsExact(Apply(w, RunDecide(a, b, "approve", order, now)))
  {
    var s, p := w.st, Ordered(a, b);
    var lower, higher := Lower(s.nets, p), Higher(s.nets, p);
    var ids := FindGroup(s.nets, order, higher, FIND_LIMIT);
    FindGroupIsWhole(s.nets, order, higher, FIND_LIMIT);
    var left :| left in GroupIds(s.nets, higher) && left !in ids;
    var moved := ids[0];
    assert moved in ids && moved in GroupIds(s.nets, higher);
    var w' := Apply(w, RunDecide(a, b, "approve", order, now));
    assert w'.st.nets == Relabelled(s.nets, ids, lower, now);
    ApprovedAfterMark(s.(nets := w'.st.nets), p, Approved, now);
    PartialJoinBreaks(Labels(s.nets), w.births, ApprovedPairs(s.ledger),
                      Labels(w'.st.nets), w'.births, ApprovedPairs(w'.st.ledger), left, moved);
  }
}
