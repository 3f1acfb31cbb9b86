/** What a net shows after any sequence of folds, said without folding. */
module Folding {
  import opened Records

  /* -------------------------------------------------------- FTI, LTI and NTI */

  ghost predicate IsEarliestFti(t: Option<int>, reports: seq<Record>) {
    && (t.Some? ==> exists i :: 0 <= i < |reports| && reports[i].fti == t)
    && (forall i :: 0 <= i < |reports| && reports[i].fti.Some? ==> t.Some? && t.value <= reports[i].fti.value)
  }

  ghost predicate IsLatestLti(t: Option<int>, reports: seq<Record>) {
    && (t.Some? ==> exists i :: 0 <= i < |reports| && reports[i].lti == t)
    && (forall i :: 0 <= i < |reports| && reports[i].lti.Some? ==> t.Some? && reports[i].lti.value <= t.value)
  }

  lemma {:induction false} FoldAllSummary(reports: seq<Record>)
    requires |reports| > 0
    ensures IsEarliestFti(FoldAll(reports).fti, reports)
    ensures IsLatestLti(FoldAll(reports).lti, reports)
    ensures Count(FoldAll(reports).nti) == TotalCount(reports)
  {
    var n := |reports| - 1;
    if n == 0 {
      assert reports[..0] == [];
    } else {
      var front := reports[..n];
      FoldAllSummary(front);
      var held, all := FoldAll(front), FoldAll(reports);
      if all.fti.Some? {
        if all.fti == held.fti {
          var i :| 0 <= i < n && front[i].fti == held.fti;
          assert reports[i].fti == all.fti;
        } else {
          assert reports[n].fti == all.fti;
        }
      }
      forall i | 0 <= i <= n && reports[i].fti.Some?
        ensures all.fti.Some? && all.fti.value <= reports[i].fti.value
      {
        if i < n { assert reports[i] == front[i]; }
      }
      if all.lti.Some? {
        if all.lti == held.lti {
          var i :| 0 <= i < n && front[i].lti == held.lti;
          assert reports[i].lti == all.lti;
        } else {
          assert reports[n].lti == all.lti;
        }
      }
      forall i | 0 <= i <= n && reports[i].lti.Some?
        ensures all.lti.Some? && reports[i].lti.value <= all.lti.value
      {
        if i < n { assert reports[i] == front[i]; }
      }
    }
  }

  lemma {:induction false} TotalCountConcat(a: seq<Record>, b: seq<Record>)
    ensures TotalCount(a + b) == TotalCount(a) + TotalCount(b)
  {
    if |b| == 0 {
      assert a + b == a;
    } else {
      var front := b[..|b| - 1];
      TotalCountConcat(a, front);
      assert (a + b)[..|a + b| - 1] == a + front;
    }
  }

  lemma WithoutOne<T>(b: seq<T>, k: nat)
    requires k < |b|
    ensures multiset(b[..k] + b[k + 1..]) == multiset(b) - multiset{b[k]}
  {
    assert b == b[..k] + [b[k]] + b[k + 1..];
  }

  lemma {:induction false} TotalCountWithoutOne(b: seq<Record>, k: nat)
    requires k < |b|
    ensures TotalCount(b) == TotalCount(b[..k] + b[k + 1..]) + Count(b[k].nti)
  {
    var upTo := b[..k + 1];
    assert b == upTo + b[k + 1..];
    assert upTo[..k] == b[..k];
    TotalCountConcat(upTo, b[k + 1..]);
    TotalCountConcat(b[..k], b[k + 1..]);
  }

  lemma {:induction false} TotalCountPermutation(a: seq<Record>, b: seq<Record>)
    requires multiset(a) == multiset(b)
    ensures TotalCount(a) == TotalCount(b)
  {
    if |a| == 0 {
      assert |multiset(b)| == 0;
    } else {
      var n := |a| - 1;
      assert a == a[..n] + [a[n]];
      SameElements(a, b);
      assert a[n] in a;
      var k :| 0 <= k < |b| && b[k] == a[n];
      WithoutOne(a, n);
      WithoutOne(b, k);
      assert a[..n] + a[n + 1..] == a[..n];
      TotalCountPermutation(a[..n], b[..k] + b[k + 1..]);
      TotalCountWithoutOne(b, k);
    }
  }

  lemma SameElements<T>(a: seq<T>, b: seq<T>)
    requires multiset(a) == multiset(b)
    ensures |a| == |b|
    ensures forall r :: r in a <==> r in b
  {
    assert |a| == |multiset(a)| && |b| == |multiset(b)|;
    forall r
      ensures r in a <==> r in b
    {
      assert r in a <==> r in multiset(a);
      assert r in b <==> r in multiset(b);
    }
  }

  lemma EarliestCarriesOver(t: Option<int>, a: seq<Record>, b: seq<Record>)
    requires forall r :: r in a <==> r in b
    requires IsEarliestFti(t, a)
    ensures IsEarliestFti(t, b)
  {
    if t.Some? {
      var i :| 0 <= i < |a| && a[i].fti == t;
      assert a[i] in b;
    }
    assert forall i :: 0 <= i < |b| ==> b[i] in a;
  }

  lemma LatestCarriesOver(t: Option<int>, a: seq<Record>, b: seq<Record>)
    requires forall r :: r in a <==> r in b
    requires IsLatestLti(t, a)
    ensures IsLatestLti(t, b)
  {
    if t.Some? {
      var i :| 0 <= i < |a| && a[i].lti == t;
      assert a[i] in b;
    }
    assert forall i :: 0 <= i < |b| ==> b[i] in a;
  }

  lemma EarliestIsUnique(t: Option<int>, u: Option<int>, reports: seq<Record>)
    requires IsEarliestFti(t, reports) && IsEarliestFti(u, reports)
    ensures t == u
  {
  }

  lemma LatestIsUnique(t: Option<int>, u: Option<int>, reports: seq<Record>)
    requires IsLatestLti(t, reports) && IsLatestLti(u, reports)
    ensures t == u
  {
  }

  /** The three time-and-count cells do not depend on the order of the folds. */
  lemma FoldOrderIrrelevant(a: seq<Record>, b: seq<Record>)
    requires |a| > 0 && multiset(a) == multiset(b)
    ensures |b| > 0
    ensures FoldAll(a).fti == FoldAll(b).fti
    ensures FoldAll(a).lti == FoldAll(b).lti
    ensures Count(FoldAll(a).nti) == Count(FoldAll(b).nti)
  {
    SameElements(a, b);
    FoldAllSummary(a);
    FoldAllSummary(b);
    TotalCountPermutation(a, b);
    EarliestCarriesOver(FoldAll(a).fti, a, b);
    EarliestIsUnique(FoldAll(a).fti, FoldAll(b).fti, b);
    LatestCarriesOver(FoldAll(a).lti, a, b);
    LatestIsUnique(FoldAll(a).lti, FoldAll(b).lti, b);
  }

  /** Null and zero are not the same count: only `Count` of the NTI is independent of the order. */
  lemma NullCountDependsOnOrder(r: Record)
    requires r.nti.None?
    ensures var zero := r.(nti := Some(0));
            FoldAll([r, zero]).nti == None && FoldAll([zero, r]).nti == Some(0)
  {
    var zero := r.(nti := Some(0));
    assert [r, zero][..1] == [r] && [zero, r][..1] == [zero];
  }

  /** Folding in two stretches, the second starting from the stored result of the first. */
  lemma {:induction false} FoldAllResumes(a: seq<Record>, b: seq<Record>)
    requires |a| > 0
    ensures FoldAll([FoldAll(a)] + b) == FoldAll(a + b)
  {
    if |b| == 0 {
      assert a + b == a;
      assert [FoldAll(a)] + b == [FoldAll(a)];
    } else {
      var front := b[..|b| - 1];
      FoldAllResumes(a, front);
      assert (a + b)[..|a + b| - 1] == a + front;
      assert ([FoldAll(a)] + b)[..|b|] == [FoldAll(a)] + front;
    }
  }

  /* --------------------------------------------------------- displayed cells */

  /** Fold `i` may write cells: it created the net, or no dated report before it is later. */
  ghost predicate Leads(reports: seq<Record>, i: int)
    requires 0 <= i < |reports|
  {
    i == 0 || (reports[i].lti.Some? &&
               forall j :: 0 <= j < i && reports[j].lti.Some? ==> reports[j].lti.value <= reports[i].lti.value)
  }

  /** Report `i` is the last leading one with a value in column `c`. */
  ghost predicate Shows(reports: seq<Record>, c: Column, i: int) {
    && 0 <= i < |reports| && Leads(reports, i) && Cell(reports[i], c).Some?
    && forall j :: i < j < |reports| && Leads(reports, j) ==> Cell(reports[j], c).None?
  }

  lemma FoldCell(held: Record, got: Record, c: Column)
    ensures Cell(Fold(held, got), c) ==
            if Supersedes(got, held) && Cell(got, c).Some? then Cell(got, c) else Cell(held, c)
  {
    match c
    case FfId =>
    case Frequency =>
    case Bandwidth =>
    case Rdfs =>
    case Latitude =>
    case Longitude =>
    case Other(name) =>
  }

  /** Each displayed cell is the value of the last leading fold that had one, and null if none had. */
  lemma {:induction false} FoldAllCell(reports: seq<Record>, c: Column)
    requires |reports| > 0
    ensures forall i :: Shows(reports, c, i) ==> Cell(FoldAll(reports), c) == Cell(reports[i], c)
    ensures Cell(FoldAll(reports), c).Some? <==> exists i :: Shows(reports, c, i)
  {
    var n := |reports| - 1;
    if n == 0 {
      if Cell(reports[0], c).Some? {
        assert Shows(reports, c, 0);
      }
    } else {
      var front := reports[..n];
      FoldAllCell(front, c);
      FoldCell(FoldAll(front), reports[n], c);
      LeadsIsSupersedes(reports);
      if Leads(reports, n) && Cell(reports[n], c).Some? {
        assert Shows(reports, c, n);
      } else {
        ShowsInFront(reports, c);
        if Cell(FoldAll(reports), c).Some? {
          var i :| Shows(front, c, i);
          assert Shows(reports, c, i);
        }
      }
    }
  }

  /** A last fold that leaves column `c` alone leaves the shown report alone. */
  lemma ShowsInFront(reports: seq<Record>, c: Column)
    requires |reports| > 1
    requires !(Leads(reports, |reports| - 1) && Cell(reports[|reports| - 1], c).Some?)
    ensures forall i :: Shows(reports, c, i) <==> Shows(reports[..|reports| - 1], c, i)
  {
    var front := reports[..|reports| - 1];
    assert forall i :: 0 <= i < |front| ==> (Leads(reports, i) <==> Leads(front, i));
    forall i
      ensures Shows(reports, c, i) <==> Shows(front, c, i)
    {
    }
  }

  lemma LeadsIsSupersedes(reports: seq<Record>)
    requires |reports| > 1
    ensures Leads(reports, |reports| - 1) <==>
            Supersedes(reports[|reports| - 1], FoldAll(reports[..|reports| - 1]))
  {
    var n := |reports| - 1;
    var front := reports[..n];
    FoldAllSummary(front);
    assert forall i :: 0 <= i < n ==> reports[i] == front[i];
    var top := FoldAll(front).lti;
    if top.Some? {
      var k :| 0 <= k < n && front[k].lti == top;
      assert reports[k].lti == top;
    }
  }

  /** With every cell and date present, the record shown is the last report attaining the latest LTI. */
  lemma FullRecordIsLastLatest(reports: seq<Record>, i: nat, c: Column)
    requires i < |reports|
    requires forall j :: 0 <= j < |reports| ==> reports[j].lti.Some? && Cell(reports[j], c).Some?
    requires forall j :: 0 <= j < |reports| ==> reports[j].lti.value <= reports[i].lti.value
    requires forall j :: i < j < |reports| ==> reports[j].lti.value < reports[i].lti.value
    ensures Cell(FoldAll(reports), c) == Cell(reports[i], c)
  {
    FoldAllCell(reports, c);
    assert Shows(reports, c, i);
  }

  /* ------------------------------------------------------------------- bands */

  /** `Hull` is the exact span of the bands present: both edges are attained and bound every band. */
  lemma {:induction false} HullIsExact(reports: seq<Record>)
    ensures Hull(reports).None? <==> forall i :: 0 <= i < |reports| ==> RecordBand(reports[i]).None?
    ensures Hull(reports).Some? ==>
              && (exists i :: 0 <= i < |reports| && RecordBand(reports[i]).Some?
                   && RecordBand(reports[i]).value.lo == Hull(reports).value.lo)
              && (exists i :: 0 <= i < |reports| && RecordBand(reports[i]).Some?
                   && RecordBand(reports[i]).value.hi == Hull(reports).value.hi)
    ensures forall i :: 0 <= i < |reports| && RecordBand(reports[i]).Some? ==>
              Hull(reports).Some? && Hull(reports).value.lo <= RecordBand(reports[i]).value.lo
                                  && RecordBand(reports[i]).value.hi <= Hull(reports).value.hi
  {
    if |reports| > 0 {
      var n := |reports| - 1;
      var front := reports[..n];
      HullIsExact(front);
      assert forall i :: 0 <= i < n ==> reports[i] == front[i];
      if Hull(reports).Some? {
        if Hull(front).Some? && Hull(front).value.lo == Hull(reports).value.lo {
          var i :| 0 <= i < n && RecordBand(front[i]).Some? && RecordBand(front[i]).value.lo == Hull(front).value.lo;
          assert RecordBand(reports[i]).value.lo == Hull(reports).value.lo;
        } else {
          assert RecordBand(reports[n]).value.lo == Hull(reports).value.lo;
        }
        if Hull(front).Some? && Hull(front).value.hi == Hull(reports).value.hi {
          var i :| 0 <= i < n && RecordBand(front[i]).Some? && RecordBand(front[i]).value.hi == Hull(front).value.hi;
          assert RecordBand(reports[i]).value.hi == Hull(reports).value.hi;
        } else {
          assert RecordBand(reports[n]).value.hi == Hull(reports).value.hi;
        }
      }
    }
  }
}
