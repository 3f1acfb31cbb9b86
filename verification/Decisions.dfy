/** What one decision does to the groups and to the ledger. */
module Decisions {
  import opened Records
  import opened NetMerging
  import opened Grouping
  import opened Pipeline

  function GroupIds(nets: map<int, NetRow>, group: int): set<int> {
    set id | id in nets && nets[id].myNet == group
  }

  lemma {:induction false} FindGroupFinds(nets: map<int, NetRow>, order: seq<int>, group: int, limit: nat)
    requires forall i, j :: 0 <= i < j < |order| ==> order[i] != order[j]
    ensures var ids := FindGroup(nets, order, group, limit);
            && (forall id :: id in ids ==> id in order && id in GroupIds(nets, group))
            && (forall i, j :: 0 <= i < j < |ids| ==> ids[i] != ids[j])
            && (|ids| < limit ==> forall id :: id in order && id in GroupIds(nets, group) ==> id in ids)
  {
    if |order| > 0 {
      var n := |order| - 1;
      FindGroupFinds(nets, order[..n], group, limit);
      assert order == order[..n] + [order[n]];
      assert order[n] !in order[..n];
    }
  }

  lemma {:induction false} DistinctSize<T>(s: seq<T>, all: set<T>)
    requires forall i, j :: 0 <= i < j < |s| ==> s[i] != s[j]
    requires forall x :: x in s ==> x in all
    ensures |s| <= |all|
    ensures |s| == |all| ==> forall x :: x in all ==> x in s
  {
    if |s| > 0 {
      var n := |s| - 1;
      assert s == s[..n] + [s[n]];
      assert s[n] !in s[..n];
      DistinctSize(s[..n], all - {s[n]});
    }
  }

  /** The find returns the whole group exactly when the group fits the limit. */
  lemma FindGroupIsWhole(nets: map<int, NetRow>, order: seq<int>, group: int, limit: nat)
    requires Lists(order, nets.Keys)
    ensures var ids := FindGroup(nets, order, group, limit);
            && (forall id :: id in ids ==> id in GroupIds(nets, group))
            && |ids| == (if |GroupIds(nets, group)| <= limit then |GroupIds(nets, group)| else limit)
            && (|GroupIds(nets, group)| <= limit <==> forall id :: id in GroupIds(nets, group) ==> id in ids)
  {
    var ids := FindGroup(nets, order, group, limit);
    FindGroupFinds(nets, order, group, limit);
    DistinctSize(ids, GroupIds(nets, group));
    if forall id :: id in GroupIds(nets, group) ==> id in ids {
      assert (set id | id in ids) == GroupIds(nets, group);
      SeqSetSize(ids);
    }
  }

  lemma {:induction false} SeqSetSize<T>(s: seq<T>)
    ensures |(set x | x in s)| <= |s|
  {
    if |s| > 0 {
      var n := |s| - 1;
      SeqSetSize(s[..n]);
      assert s == s[..n] + [s[n]];
      assert (set x | x in s) == (set x | x in s[..n]) + {s[n]};
    }
  }

  /* ------------------------------------------------------------- the decision */

  /** The labels that an approval of `p` sees, lower first. */
  function Lower(nets: map<int, NetRow>, p: Pair): int
    requires p.0 in nets && p.1 in nets
  {
    if nets[p.0].myNet < nets[p.1].myNet then nets[p.0].myNet else nets[p.1].myNet
  }

  function Higher(nets: map<int, NetRow>, p: Pair): int
    requires p.0 in nets && p.1 in nets
  {
    if nets[p.0].myNet < nets[p.1].myNet then nets[p.1].myNet else nets[p.0].myNet
  }

  /** An accepted approval of a pair whose nets are in two groups. */
  predicate Merges(s: State, a: int, b: int, decision: string) {
    var p := Ordered(a, b);
    Refusal(s, p, decision).None? && decision == "approve" && s.nets[p.0].myNet != s.nets[p.1].myNet
  }

  /** The absorbed group fits the row limit of the read that fetches it. */
  predicate FitsLimit(s: State, a: int, b: int, decision: string) {
    Merges(s, a, b, decision) ==> |GroupIds(s.nets, Higher(s.nets, Ordered(a, b)))| <= FIND_LIMIT
  }

  lemma ApprovedAfterMark(s: State, p: Pair, status: Status, now: int)
    requires p in s.ledger && s.ledger[p].status.Pending? && !status.Pending?
    ensures ApprovedPairs(Mark(s, p, status, now).ledger) ==
            if status.Approved? then ApprovedPairs(s.ledger) + {p} else ApprovedPairs(s.ledger)
  {
  }

  /** Labels change only in a merge, where the higher group takes the lower label, whole if it fits. */
  lemma DecideLabels(s: State, a: int, b: int, decision: string, order: seq<int>, now: int)
    requires Lists(order, s.nets.Keys)
    ensures var (s', outcome) := Decide(s, a, b, decision, order, now);
            var p := Ordered(a, b);
            && s'.nets.Keys == s.nets.Keys
            && (forall id :: id in s.nets ==> s'.nets[id].rec == s.nets[id].rec)
            && (!Merges(s, a, b, decision) ==> s'.nets == s.nets)
            && (Merges(s, a, b, decision) && FitsLimit(s, a, b, decision) ==>
                 && Labels(s'.nets) == Joined(Labels(s.nets), Lower(s.nets, p), Higher(s.nets, p))
                 && outcome == Merged(Lower(s.nets, p), Some(Higher(s.nets, p)), |GroupIds(s.nets, Higher(s.nets, p))|))
  {
    if Merges(s, a, b, decision) && FitsLimit(s, a, b, decision) {
      var p := Ordered(a, b);
      var lower, higher := Lower(s.nets, p), Higher(s.nets, p);
      var ids := FindGroup(s.nets, order, higher, FIND_LIMIT);
      FindGroupIsWhole(s.nets, order, higher, FIND_LIMIT);
      var nets' := Relabelled(s.nets, ids, lower, now);
      forall id | id in s.nets
        ensures Labels(nets')[id] == Joined(Labels(s.nets), lower, higher)[id]
      {
        assert id in GroupIds(s.nets, higher) <==> s.nets[id].myNet == higher;
      }
      SameMap(Labels(nets'), Joined(Labels(s.nets), lower, higher));
    }
  }

  /** Past the limit a merge moves exactly `FIND_LIMIT` nets of the higher group and leaves the rest of it
      behind; within it, as `DecideLabels` says, it moves all of it.  No other label changes either way. */
  lemma MergeMovesUpToLimit(s: State, a: int, b: int, order: seq<int>, now: int)
    requires Lists(order, s.nets.Keys) && Merges(s, a, b, "approve")
    ensures var (s', outcome) := Decide(s, a, b, "approve", order, now);
            var p := Ordered(a, b);
            var lower, higher := Lower(s.nets, p), Higher(s.nets, p);
            var size := |GroupIds(s.nets, higher)|;
            var moved := if size <= FIND_LIMIT then size else FIND_LIMIT;
            && outcome == Merged(lower, Some(higher), moved)
            && |GroupIds(s'.nets, higher)| == size - moved
            && (forall id :: id in s.nets && s.nets[id].myNet != higher ==> s'.nets[id] == s.nets[id])
            && (forall id :: id in GroupIds(s.nets, higher) && id !in GroupIds(s'.nets, higher) ==>
                  s'.nets[id] == s.nets[id].(myNet := lower, updatedAt := now))
  {
    var p := Ordered(a, b);
    var lower, higher := Lower(s.nets, p), Higher(s.nets, p);
    var ids := FindGroup(s.nets, order, higher, FIND_LIMIT);
    FindGroupIsWhole(s.nets, order, higher, FIND_LIMIT);
    FindGroupFinds(s.nets, order, higher, FIND_LIMIT);
    var nets' := Relabelled(s.nets, ids, lower, now);
    var all, moved := GroupIds(s.nets, higher), set id | id in ids;
    DistinctSetSize(ids);
    forall id
      ensures id in GroupIds(nets', higher) <==> id in all - moved
    {
    }
    assert GroupIds(nets', higher) == all - moved;
    assert moved <= all;
  }

  lemma {:induction false} DistinctSetSize<T>(s: seq<T>)
    requires forall i, j :: 0 <= i < j < |s| ==> s[i] != s[j]
    ensures |(set x | x in s)| == |s|
  {
    if |s| > 0 {
      var n := |s| - 1;
      DistinctSetSize(s[..n]);
      assert s == s[..n] + [s[n]];
      assert s[n] !in s[..n];
      assert (set x | x in s) == (set x | x in s[..n]) + {s[n]};
    }
  }

  /* -------------------------------------------------------------- the outcomes */

  /** The ledger row that a decision on two nets is about: the lower id first. */
  ghost predicate IsRowFor(p: Pair, a: int, b: int) {
    p.0 <= p.1 && ((p.0 == a && p.1 == b) || (p.0 == b && p.1 == a))
  }

  predicate IsPending(s: State, p: Pair) { p in s.ledger && s.ledger[p].status == Pending }

  /** A decision fails with each error exactly on its own condition, and so it is accepted exactly when the
      word is one of the two, the pair is recorded and pending, and an approval finds both nets. */
  lemma DecideErrors(s: State, a: int, b: int, decision: string, order: seq<int>, now: int, p: Pair)
    requires IsRowFor(p, a, b)
    ensures var outcome := Decide(s, a, b, decision, order, now).1;
            var word := decision == "approve" || decision == "reject";
            && (outcome == Failed(BadDecision) <==> !word)
            && (outcome == Failed(NoCandidate) <==> word && p !in s.ledger)
            && (forall was :: outcome == Failed(AlreadyDecided(was)) <==>
                  word && p in s.ledger && s.ledger[p].status == was && was != Pending)
            && (outcome == Failed(MissingNet) <==>
                  decision == "approve" && IsPending(s, p) && (p.0 !in s.nets || p.1 !in s.nets))
            && (!outcome.Failed? <==>
                  word && IsPending(s, p) && (decision == "approve" ==> p.0 in s.nets && p.1 in s.nets))
  {
    assert Ordered(a, b) == p;
  }

  /** What an accepted decision answers: a rejection nothing more, an approval inside one group its label,
      and an approval across two the lower label, the higher one, and how many nets moved. */
  lemma DecideAnswers(s: State, a: int, b: int, decision: string, order: seq<int>, now: int, p: Pair)
    requires IsRowFor(p, a, b) && Lists(order, s.nets.Keys) && IsPending(s, p)
    ensures var (s', outcome) := Decide(s, a, b, decision, order, now);
            && (decision == "reject" ==> outcome == Noted && s'.nets == s.nets)
            && (decision == "approve" && p.0 in s.nets && p.1 in s.nets ==>
                 var x, y := s.nets[p.0].myNet, s.nets[p.1].myNet;
                 && (x == y ==> outcome == Merged(x, None, 0) && s'.nets == s.nets)
                 && (x < y ==> outcome == Merged(x, Some(y), MovedOf(s.nets, y)))
                 && (y < x ==> outcome == Merged(y, Some(x), MovedOf(s.nets, x))))
  {
    assert Ordered(a, b) == p;
    if decision == "approve" && p.0 in s.nets && p.1 in s.nets && s.nets[p.0].myNet != s.nets[p.1].myNet {
      MergeMovesUpToLimit(s, a, b, order, now);
    }
  }

  /** How many nets of a group one approval moves. */
  function MovedOf(nets: map<int, NetRow>, group: int): nat {
    var size := |set id | id in nets && nets[id].myNet == group|;
    if size <= 10000 then size else 10000
  }

  /* --------------------------------------------------------------- the ledger */

  /** Recorded pairs stay, with their snapshots; a decided row never changes again. */
  ghost predicate LedgerKept(was: map<Pair, Candidate>, now: map<Pair, Candidate>) {
    forall p :: p in was ==>
      && p in now && now[p].snapshot == was[p].snapshot
      && (!was[p].status.Pending? ==> now[p] == was[p])
  }

  lemma DecideKeepsLedger(s: State, a: int, b: int, decision: string, order: seq<int>, now: int)
    ensures LedgerKept(s.ledger, Decide(s, a, b, decision, order, now).0.ledger)
    ensures Decide(s, a, b, decision, order, now).0.ledger.Keys == s.ledger.Keys
  {
  }

  lemma DetectKeepsLedger(s: State, cfg: MergeConfig, now: int)
    ensures LedgerKept(s.ledger, Detect(s, cfg, now).ledger)
    ensures forall p :: p in s.ledger ==> Detect(s, cfg, now).ledger[p] == s.ledger[p]
  {
  }

  /** A detection raises exactly when there are two groups to compare and a column it needs is all null. */
  lemma DetectRaisesIff(nets: map<int, NetRow>, cfg: MergeConfig)
    ensures DetectRaises(nets, cfg) <==>
            && (exists a, b :: a in nets && b in nets && nets[a].myNet != nets[b].myNet)
            && (|| (forall id :: id in nets ==> !nets[id].rec.frequency.Val?)
                || (cfg.useBandTol && cfg.bwOverride.None? && forall id :: id in nets ==> !nets[id].rec.bandwidth.Val?))
  {
    if exists a, b :: a in nets && b in nets && nets[a].myNet != nets[b].myNet {
      var a, b :| a in nets && b in nets && nets[a].myNet != nets[b].myNet;
      var c := Columns(nets);
      assert Raises(FrameRecord(nets[a].rec, c), FrameRecord(nets[b].rec, c), cfg) ==> DetectRaises(nets, cfg);
    }
  }

  /** After a detection every proposable pair is recorded, and detecting again adds nothing. */
  lemma DetectIsComplete(s: State, cfg: MergeConfig, now: int, later: int)
    requires !DetectRaises(s.nets, cfg)
    ensures var s' := Detect(s, cfg, now);
            && (forall p :: Proposes(s.nets, cfg, p) ==> p in s'.ledger)
            && (forall p :: p in s'.ledger && p !in s.ledger ==>
                 Proposes(s.nets, cfg, p) && s'.ledger[p].status.Pending?)
            && Detect(s', cfg, later) == s'
  {
    var s' := Detect(s, cfg, now);
    forall p | Proposes(s.nets, cfg, p)
      ensures p in s'.ledger
    {
      assert p == (p.0, p.1);
      if p !in s.ledger {
        assert p in NewCandidates(s, cfg, now);
      }
    }
    NoCandidatesLeft(s', cfg, later);
  }

  lemma NoCandidatesLeft(s: State, cfg: MergeConfig, now: int)
    requires forall p :: Proposes(s.nets, cfg, p) ==> p in s.ledger
    ensures NewCandidates(s, cfg, now) == map[]
    ensures s.(ledger := s.ledger + NewCandidates(s, cfg, now)) == s
  {
    var none := NewCandidates(s, cfg, now);
    assert none.Keys == {};
    SameMap(none, map[]);
    SameMap(s.ledger + none, s.ledger);
  }

  /** An accepted decision is recorded once and for good: the row shows it, no other row changes, and any
      later decision on the pair is refused and changes nothing.  A refused decision changes nothing. */
  lemma DecideOnce(s: State, a: int, b: int, decision: string, order: seq<int>, now: int,
                   again: string, order': seq<int>, later: int)
    ensures var (s', outcome) := Decide(s, a, b, decision, order, now);
            var p := Ordered(a, b);
            if outcome.Failed? then s' == s
            else
              && p in s.ledger && s.ledger[p].status.Pending?
              && s'.ledger == s.ledger[p :=
                   Candidate(if decision == "approve" then Approved else Rejected, s.ledger[p].snapshot, Some(now))]
              && (again == "approve" || again == "reject" ==>
                    Decide(s', b, a, again, order', later) == (s', Failed(AlreadyDecided(s'.ledger[p].status))))
  {
    var p := Ordered(a, b);
    assert Ordered(b, a) == p;
    if Refusal(s, p, decision).None? {
      var s' := Decide(s, a, b, decision, order, now).0;
      assert !s'.ledger[p].status.Pending?;
    }
  }

  /** A recorded alert was raised across two groups, and each number it shows is within the tolerance it
      shows: the frequency gap, the time gap (exact, for dates are whole days) and the distance, whose
      tolerance is shown unrounded and is rounded here as the distance was. */
  predicate Justified(c: Candidate) {
    var r := c.snapshot.reasons;
    && c.snapshot.myNetA != c.snapshot.myNetB
    && r.freqGap <= r.freqTol
    && (r.ltiTol.Some? ==> r.ltiGap.Some? && r.ltiGap.value as real <= r.ltiTol.value * 10.0)
    && (r.locTol.Some? ==> r.distance.Some? && r.distance.value <= RoundHalfEven(r.locTol.value * 10.0))
  }

  lemma RoundingMonotone(x: real, y: real)
    requires x <= y
    ensures RoundHalfEven(x) <= RoundHalfEven(y)
  {
    assert x.Floor <= y.Floor;
  }

  /** A distance in tenths of a metre, as an alert shows it. */
  function ShownTenths(d: real): int { RoundHalfEven(d * 10.0) }

  /** Every distance within the tolerance is shown within it exactly when the tolerance does not round up. */
  lemma ShownDistanceIff(tol: real)
    ensures (forall d :: d <= tol ==> ShownTenths(d) as real <= tol * 10.0) <==>
            ShownTenths(tol) as real <= tol * 10.0
  {
    if ShownTenths(tol) as real <= tol * 10.0 {
      forall d | d <= tol
        ensures ShownTenths(d) as real <= tol * 10.0
      {
        RoundingMonotone(d * 10.0, tol * 10.0);
      }
    }
  }

  /** A tolerance of 99.97 m accepts 99.96 m and shows it as 100.0 m. */
  lemma ShownDistanceExample()
    ensures 99.96 <= 99.97 && ShownTenths(99.96) as real > 99.97 * 10.0
  {
    assert (99.96 * 10.0).Floor == 999;
  }

  lemma WholeNumberRounds(n: int)
    ensures RoundHalfEven(n as real) == n
  {
    assert (n as real).Floor == n;
  }

  /** The time gap in tenths of a second is a whole number, so it is shown as it is. */
  lemma TimeGapShownExactly(a: Record, b: Record)
    requires LtiGap(a, b).Some?
    ensures RoundHalfEven(LtiGap(a, b).value * 10.0) as real == LtiGap(a, b).value * 10.0
  {
    var days := if a.lti.value < b.lti.value then b.lti.value - a.lti.value else a.lti.value - b.lti.value;
    assert LtiGap(a, b).value == (days * SECONDS_PER_DAY) as real;
    WholeNumberRounds(days * SECONDS_PER_DAY * 10);
  }

  lemma NewCandidateJustified(nets: map<int, NetRow>, cfg: MergeConfig, p: Pair, now: int)
    requires Proposes(nets, cfg, p)
    ensures Justified(NewCandidate(nets, cfg, p, now))
  {
    var a, b := nets[p.0].rec, nets[p.1].rec;
    RoundingMonotone(Abs(a.frequency.v - b.frequency.v) * 10000.0, TuneTol(a, b, cfg).value * 10000.0);
    if cfg.useTimeTol {
      TimeGapShownExactly(a, b);
    }
    if cfg.useLocTol {
      RoundingMonotone(Distance(a, b, cfg).value * 10.0, cfg.locTolM * 10.0);
    }
  }

  lemma DetectJustified(s: State, cfg: MergeConfig, now: int)
    requires forall p :: p in s.ledger ==> Justified(s.ledger[p])
    ensures forall p :: p in Detect(s, cfg, now).ledger ==> Justified(Detect(s, cfg, now).ledger[p])
  {
    var ledger := Detect(s, cfg, now).ledger;
    forall p | p in ledger
      ensures Justified(ledger[p])
    {
      if p !in s.ledger {
        NewCandidateJustified(s.nets, cfg, p, now);
      }
    }
  }

  /** An alert shows the nets of its pair in their order: label, station, frequency and date of each, as they
      stand in the table; when it was raised; no decision; and the numbers of the match. */
  ghost predicate ShowsNets(nets: map<int, NetRow>, cfg: MergeConfig, p: Pair, c: Candidate, now: int)
    requires p.0 in nets && p.1 in nets
  {
    var a, b, shown := nets[p.0], nets[p.1], c.snapshot;
    && shown.myNetA == a.myNet && shown.rdfsA == a.rec.rdfs
    && shown.frequencyA == a.rec.frequency && shown.ltiA == a.rec.lti
    && shown.myNetB == b.myNet && shown.rdfsB == b.rec.rdfs
    && shown.frequencyB == b.rec.frequency && shown.ltiB == b.rec.lti
    && shown.detectedAt == now && c.decidedAt == None && c.status == Pending
    && ReasonsInCells(a.rec, b.rec, cfg, shown.reasons)
  }

  /** Every alert that a detection adds shows its two nets. */
  lemma AlertsShowNets(s: State, cfg: MergeConfig, now: int, p: Pair)
    requires p in Detect(s, cfg, now).ledger && p !in s.ledger
    ensures p.0 in s.nets && p.1 in s.nets && p.0 < p.1
    ensures ShowsNets(s.nets, cfg, p, Detect(s, cfg, now).ledger[p], now)
  {
    ReasonsShown(s.nets[p.0].rec, s.nets[p.1].rec, cfg);
  }
}
