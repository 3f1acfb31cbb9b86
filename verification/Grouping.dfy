/** Groups of nets: labels on one side, chains of approved pairs on the other. */
module Grouping {

  type Pair = (int, int)

  /* ------------------------------------------------------------ connectivity */

  predicate Linked(edges: set<Pair>, x: int, y: int) {
    (x, y) in edges || (y, x) in edges
  }

  ghost predicate IsChain(edges: set<Pair>, chain: seq<int>) {
    |chain| > 0 && forall i :: 0 <= i < |chain| - 1 ==> Linked(edges, chain[i], chain[i + 1])
  }

  /** A chain of approved pairs leads from `x` to `y`. */
  ghost predicate Connected(edges: set<Pair>, x: int, y: int) {
    exists chain :: IsChain(edges, chain) && chain[0] == x && chain[|chain| - 1] == y
  }

  lemma ConnectedSelf(edges: set<Pair>, x: int)
    ensures Connected(edges, x, x)
  {
    assert IsChain(edges, [x]);
  }

  lemma ConnectedEdge(edges: set<Pair>, x: int, y: int)
    requires Linked(edges, x, y)
    ensures Connected(edges, x, y)
  {
    assert IsChain(edges, [x, y]);
  }

  lemma ConnectedGrows(edges: set<Pair>, more: set<Pair>, x: int, y: int)
    requires edges <= more && Connected(edges, x, y)
    ensures Connected(more, x, y)
  {
    var chain :| IsChain(edges, chain) && chain[0] == x && chain[|chain| - 1] == y;
    assert IsChain(more, chain);
  }

  lemma ConnectedJoin(edges: set<Pair>, x: int, y: int, z: int)
    requires Connected(edges, x, y) && Connected(edges, y, z)
    ensures Connected(edges, x, z)
  {
    var a :| IsChain(edges, a) && a[0] == x && a[|a| - 1] == y;
    var b :| IsChain(edges, b) && b[0] == y && b[|b| - 1] == z;
    var c := a + b[1..];
    forall i | 0 <= i < |c| - 1
      ensures Linked(edges, c[i], c[i + 1])
    {
      if i < |a| - 1 {
      } else {
        assert c[i] == b[i - |a| + 1] && c[i + 1] == b[i - |a| + 2];
      }
    }
    assert IsChain(edges, c);
  }

  /* ------------------------------------------------------------------ labels */

  ghost predicate SameLabel(labels: map<int, int>, x: int, y: int) {
    x in labels && y in labels && labels[x] == labels[y]
  }

  /** Labels agree along every approved pair. */
  ghost predicate EdgesAgree(labels: map<int, int>, edges: set<Pair>) {
    forall e :: e in edges ==> SameLabel(labels, e.0, e.1)
  }

  /** Nets with one label are joined by a chain of approved pairs. */
  ghost predicate LabelsConnect(labels: map<int, int>, edges: set<Pair>) {
    forall x, y :: SameLabel(labels, x, y) ==> Connected(edges, x, y)
  }

  /** Some net of the group of `x` was born with the label of `x`. */
  ghost predicate BornHere(labels: map<int, int>, births: map<int, int>, x: int)
    requires labels.Keys == births.Keys
  {
    exists z :: SameLabel(labels, x, z) && births[z] == labels[x]
  }

  /** A label is the lowest birth id of the nets that carry it. */
  ghost predicate LabelsAreLeast(labels: map<int, int>, births: map<int, int>) {
    && labels.Keys == births.Keys
    && (forall x :: x in labels ==> labels[x] <= births[x])
    && (forall x {:trigger BornHere(labels, births, x)} :: x in labels ==> BornHere(labels, births, x))
  }

  ghost predicate Grouped(labels: map<int, int>, births: map<int, int>, edges: set<Pair>) {
    EdgesAgree(labels, edges) && LabelsConnect(labels, edges) && LabelsAreLeast(labels, births)
  }

  lemma {:induction false} ChainSharesLabel(labels: map<int, int>, edges: set<Pair>, chain: seq<int>)
    requires EdgesAgree(labels, edges) && IsChain(edges, chain) && chain[0] in labels
    ensures SameLabel(labels, chain[0], chain[|chain| - 1])
  {
    var n := |chain| - 1;
    if n > 0 {
      ChainSharesLabel(labels, edges, chain[..n]);
      assert Linked(edges, chain[n - 1], chain[n]);
      if (chain[n - 1], chain[n]) in edges {
        assert SameLabel(labels, (chain[n - 1], chain[n]).0, (chain[n - 1], chain[n]).1);
      } else {
        assert SameLabel(labels, (chain[n], chain[n - 1]).0, (chain[n], chain[n - 1]).1);
      }
    }
  }

  /** Two nets share a label exactly when a chain of approved pairs joins them. */
  lemma SharedIffConnected(labels: map<int, int>, births: map<int, int>, edges: set<Pair>, x: int, y: int)
    requires Grouped(labels, births, edges) && x in labels
    ensures SameLabel(labels, x, y) <==> Connected(edges, x, y)
  {
    if Connected(edges, x, y) {
      var chain :| IsChain(edges, chain) && chain[0] == x && chain[|chain| - 1] == y;
      ChainSharesLabel(labels, edges, chain);
    }
  }

  /** The batch definition: `least` is the lowest birth id in the connected component of `x`. */
  ghost predicate IsBatchLabel(births: map<int, int>, edges: set<Pair>, x: int, least: int) {
    && (exists z :: z in births && Connected(edges, x, z) && births[z] == least)
    && (forall y :: y in births && Connected(edges, x, y) ==> least <= births[y])
  }

  lemma LabelIsBatchLabel(labels: map<int, int>, births: map<int, int>, edges: set<Pair>, x: int)
    requires Grouped(labels, births, edges) && x in labels
    ensures IsBatchLabel(births, edges, x, labels[x])
  {
    assert BornHere(labels, births, x);
    var z :| SameLabel(labels, x, z) && births[z] == labels[x];
    SharedIffConnected(labels, births, edges, x, z);
    forall y | y in births && Connected(edges, x, y)
      ensures labels[x] <= births[y]
    {
      SharedIffConnected(labels, births, edges, x, y);
    }
  }

  lemma BatchLabelIsUnique(births: map<int, int>, edges: set<Pair>, x: int, least: int, least': int)
    requires IsBatchLabel(births, edges, x, least) && IsBatchLabel(births, edges, x, least')
    ensures least == least'
  {
    var z :| z in births && Connected(edges, x, z) && births[z] == least;
    var z' :| z' in births && Connected(edges, x, z') && births[z'] == least';
  }

  lemma LabelDetermined(labels: map<int, int>, labels': map<int, int>, births: map<int, int>, edges: set<Pair>, x: int)
    requires Grouped(labels, births, edges) && Grouped(labels', births, edges)
    requires x in labels && x in labels'
    ensures labels[x] == labels'[x]
  {
    LabelIsBatchLabel(labels, births, edges, x);
    LabelIsBatchLabel(labels', births, edges, x);
    BatchLabelIsUnique(births, edges, x, labels[x], labels'[x]);
  }

  lemma SameMap<K, V>(a: map<K, V>, b: map<K, V>)
    requires a.Keys == b.Keys
    requires forall x :: x in a ==> a[x] == b[x]
    ensures a == b
  {
  }

  /** Birth ids and approved pairs determine every label, whatever order the pairs were approved in. */
  lemma LabelsDetermined(labels: map<int, int>, labels': map<int, int>, births: map<int, int>, edges: set<Pair>)
    requires Grouped(labels, births, edges) && Grouped(labels', births, edges)
    ensures labels == labels'
  {
    assert labels.Keys == births.Keys == labels'.Keys;
    forall x | x in labels
      ensures labels[x] == labels'[x]
    {
      LabelDetermined(labels, labels', births, edges, x);
    }
    SameMap(labels, labels');
  }

  /* ------------------------------------------------------------ joining groups */

  /** Every net labelled `absorbed` relabelled `survivor`. */
  function Joined(labels: map<int, int>, survivor: int, absorbed: int): (joined: map<int, int>)
    ensures joined.Keys == labels.Keys
  {
    map x | x in labels :: if labels[x] == absorbed then survivor else labels[x]
  }

  lemma JoinAgrees(labels: map<int, int>, births: map<int, int>, edges: set<Pair>, a: int, b: int, survivor: int,
                   absorbed: int)
    requires Grouped(labels, births, edges) && a in labels && b in labels
    requires survivor < absorbed && {survivor, absorbed} == {labels[a], labels[b]}
    ensures EdgesAgree(Joined(labels, survivor, absorbed), edges + {(a, b)})
  {
    var labels' := Joined(labels, survivor, absorbed);
    forall e | e in edges + {(a, b)}
      ensures SameLabel(labels', e.0, e.1)
    {
      if e in edges {
        assert SameLabel(labels, e.0, e.1);
      } else {
        assert labels[a] in {survivor, absorbed} && labels[b] in {survivor, absorbed};
      }
    }
  }

  lemma JoinConnects(labels: map<int, int>, births: map<int, int>, edges: set<Pair>, a: int, b: int, survivor: int,
                     absorbed: int)
    requires Grouped(labels, births, edges) && a in labels && b in labels
    requires survivor < absorbed && {survivor, absorbed} == {labels[a], labels[b]}
    ensures LabelsConnect(Joined(labels, survivor, absorbed), edges + {(a, b)})
  {
    var labels', edges' := Joined(labels, survivor, absorbed), edges + {(a, b)};
    assert survivor in {labels[a], labels[b]} && absorbed in {labels[a], labels[b]};
    forall x, y | SameLabel(labels', x, y)
      ensures Connected(edges', x, y)
    {
      if labels[x] == labels[y] {
        assert SameLabel(labels, x, y);
        ConnectedGrows(edges, edges', x, y);
      } else {
        var near, far := if labels[x] == labels[a] then a else b, if labels[x] == labels[a] then b else a;
        assert SameLabel(labels, x, near) && SameLabel(labels, far, y);
        ConnectedGrows(edges, edges', x, near);
        ConnectedGrows(edges, edges', far, y);
        assert (a, b) in edges';
        ConnectedEdge(edges', near, far);
        ConnectedJoin(edges', x, near, far);
        ConnectedJoin(edges', x, far, y);
      }
    }
  }

  lemma JoinBornHere(labels: map<int, int>, births: map<int, int>, survivor: int, absorbed: int, from: int, x: int)
    requires labels.Keys == births.Keys && BornHere(labels, births, from)
    requires from in labels && labels[from] != absorbed
    requires x in labels && Joined(labels, survivor, absorbed)[x] == labels[from]
    ensures BornHere(Joined(labels, survivor, absorbed), births, x)
  {
    var labels' := Joined(labels, survivor, absorbed);
    var z :| SameLabel(labels, from, z) && births[z] == labels[from];
    assert SameLabel(labels', x, z);
  }

  lemma JoinLeast(labels: map<int, int>, births: map<int, int>, survivor: int, absorbed: int, s: int)
    requires LabelsAreLeast(labels, births) && s in labels && labels[s] == survivor && survivor < absorbed
    ensures LabelsAreLeast(Joined(labels, survivor, absorbed), births)
  {
    var labels' := Joined(labels, survivor, absorbed);
    forall x | x in labels
      ensures BornHere(labels', births, x)
    {
      assert BornHere(labels, births, x) && BornHere(labels, births, s);
      JoinBornHere(labels, births, survivor, absorbed, if labels[x] == absorbed then s else x, x);
    }
  }

  /** Approving a pair across two groups keeps the labelling exact. */
  lemma JoinKeepsGrouped(labels: map<int, int>, births: map<int, int>, edges: set<Pair>, a: int, b: int,
                         survivor: int, absorbed: int)
    requires Grouped(labels, births, edges) && a in labels && b in labels
    requires survivor < absorbed && {survivor, absorbed} == {labels[a], labels[b]}
    ensures Grouped(Joined(labels, survivor, absorbed), births, edges + {(a, b)})
  {
    JoinAgrees(labels, births, edges, a, b, survivor, absorbed);
    JoinConnects(labels, births, edges, a, b, survivor, absorbed);
    assert survivor in {labels[a], labels[b]};
    JoinLeast(labels, births, survivor, absorbed, if labels[a] == survivor then a else b);
  }

  /** Approving a pair inside one group keeps it too. */
  lemma EdgeKeepsGrouped(labels: map<int, int>, births: map<int, int>, edges: set<Pair>, a: int, b: int)
    requires Grouped(labels, births, edges) && SameLabel(labels, a, b)
    ensures Grouped(labels, births, edges + {(a, b)})
  {
    forall x, y | SameLabel(labels, x, y)
      ensures Connected(edges + {(a, b)}, x, y)
    {
      ConnectedGrows(edges, edges + {(a, b)}, x, y);
    }
  }

  /** `labels'` adds nets, each with a label that no other net carries. */
  ghost predicate GrowsFresh(labels: map<int, int>, labels': map<int, int>) {
    && labels.Keys <= labels'.Keys
    && (forall x :: x in labels ==> labels'[x] == labels[x])
    && (forall x, y :: x in labels' && x !in labels && SameLabel(labels', x, y) ==> x == y)
  }

  function Born(births: map<int, int>, labels': map<int, int>): map<int, int> {
    map x | x in labels' :: if x in births then births[x] else labels'[x]
  }

  lemma GrowConnects(labels: map<int, int>, edges: set<Pair>, labels': map<int, int>)
    requires LabelsConnect(labels, edges) && EdgesAgree(labels, edges) && GrowsFresh(labels, labels')
    ensures LabelsConnect(labels', edges) && EdgesAgree(labels', edges)
  {
    forall e | e in edges
      ensures SameLabel(labels', e.0, e.1)
    {
      assert SameLabel(labels, e.0, e.1);
    }
    forall x, y | SameLabel(labels', x, y)
      ensures Connected(edges, x, y)
    {
      if x in labels && y in labels {
        assert SameLabel(labels, x, y);
      } else {
        assert SameLabel(labels', y, x);
        ConnectedSelf(edges, x);
      }
    }
  }

  lemma GrowLeast(labels: map<int, int>, births: map<int, int>, labels': map<int, int>)
    requires LabelsAreLeast(labels, births) && GrowsFresh(labels, labels')
    ensures LabelsAreLeast(labels', Born(births, labels'))
  {
    var births' := Born(births, labels');
    assert labels'.Keys == births'.Keys;
    forall x | x in labels'
      ensures BornHere(labels', births', x)
    {
      if x in labels {
        assert BornHere(labels, births, x);
        var z :| SameLabel(labels, x, z) && births[z] == labels[x];
        assert SameLabel(labels', x, z);
      } else {
        assert SameLabel(labels', x, x);
      }
    }
  }

  /** New nets with fresh labels keep the labelling exact. */
  lemma GrowKeepsGrouped(labels: map<int, int>, births: map<int, int>, edges: set<Pair>, labels': map<int, int>)
    requires Grouped(labels, births, edges) && GrowsFresh(labels, labels')
    ensures Grouped(labels', Born(births, labels'), edges)
  {
    GrowConnects(labels, edges, labels');
    GrowLeast(labels, births, labels');
  }

  /** When only part of the absorbed group is relabelled, the labelling is no longer exact. */
  lemma PartialJoinBreaks(labels: map<int, int>, births: map<int, int>, edges: set<Pair>, labels': map<int, int>,
                          births': map<int, int>, edges': set<Pair>, left: int, moved: int)
    requires Grouped(labels, births, edges) && SameLabel(labels, left, moved)
    requires edges <= edges' && left in labels' && moved in labels' && labels'[left] != labels'[moved]
    ensures !Grouped(labels', births', edges')
  {
    ConnectedGrows(edges, edges', left, moved);
    if Grouped(labels', births', edges') {
      SharedIffConnected(labels', births', edges', left, moved);
    }
  }
}
