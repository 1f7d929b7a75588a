/** The upward pass of `convert` (data/converter.ts): one flow per category,
    each transaction's value added to its category's flow and to every ancestor's
    flow, then the root's value halved. */
module LedgerAggregate {
  import opened Wrappers
  import opened LedgerTypes
  import opened LedgerSums
  import opened LedgerTree

  /** The flow of a category before any value is added. */
  function InitialFlow(c: Category): (f: Flow)
  {
    Flow(c.id, c.name, c.direction, 0.0, c.parent)
  }

  /** `flows.find(f => !f.parent)`: the first category without parent. */
  function FirstRoot(cats: seq<Category>): (r: Option<nat>)
    ensures r.Some? <==> Roots(cats) != []
    ensures r.Some? ==> r.value < |cats| && !HasParent(cats[r.value])
    ensures r.Some? ==> forall j :: 0 <= j < r.value ==> HasParent(cats[j])
  {
    var rs := Roots(cats);
    if rs == [] then None
    else
      assert rs[0] in rs;
      Some(rs[0])
  }

  /** While the walk's current category has a parent, the walk goes on, and
      its next category is the one the id table gives for that parent. */
  lemma WalkContinues(cats: seq<Category>, start: nat, j: nat)
    requires Rooted(cats) && start < |cats|
    requires j < |Chain(cats, start)| && HasParent(cats[Chain(cats, start)[j]])
    ensures j + 1 < |Chain(cats, start)|
    ensures var p := cats[Chain(cats, start)[j]].parent.value;
      p in IndexById(cats) && IndexById(cats)[p] == Chain(cats, start)[j + 1]
  {
    var w := Chain(cats, start);
    assert Top(cats, start) == w[|w| - 1];
    assert j + 1 < |w|;
    WalkStep(cats, IndexById(cats), start, |cats|, j);
  }

  /** The walk stops exactly at its first category without parent. */
  lemma WalkStops(cats: seq<Category>, start: nat, j: nat)
    requires start < |cats|
    requires j < |Chain(cats, start)| && !HasParent(cats[Chain(cats, start)[j]])
    ensures j == |Chain(cats, start)| - 1
  {
    var w := Chain(cats, start);
    if j + 1 < |w| {
      WalkStep(cats, IndexById(cats), start, |cats|, j);
      assert false;
    }
  }

  /** Adding transaction `txs[i]` to the prefix before it adds its value to the
      subtree total of each category on the walk from its category. */
  lemma SubtreeExtend(cats: seq<Category>, txs: seq<InputTransaction>, i: nat, k: nat)
    requires i < |txs| && txs[i].categoryId in IndexById(cats)
    ensures SubtreeTotal(cats, txs[..i + 1], k) == SubtreeTotal(cats, txs[..i], k)
      + (if k in Chain(cats, IndexById(cats)[txs[i].categoryId]) then txs[i].value else 0)
  {
    assert txs[..i + 1][..i] == txs[..i];
  }

  /** `flows` with `v` added to the value of each flow whose index is in `ks`. */
  function AddTo(flows: seq<Flow>, ks: seq<nat>, v: int): (r: seq<Flow>)
    ensures |r| == |flows|
  {
    seq(|flows|, k requires 0 <= k < |flows| => flows[k].(value := flows[k].value + (if k in ks then v else 0) as real))
  }

  /** Adding along one more, not yet visited, index updates that flow alone. */
  lemma AddToStep(flows: seq<Flow>, ks: seq<nat>, g: nat, v: int)
    requires g < |flows| && g !in ks
    ensures AddTo(flows, ks + [g], v) == AddTo(flows, ks, v)[g := AddTo(flows, ks, v)[g].(value := AddTo(flows, ks, v)[g].value + v as real)]
  {
  }

  /** Adding to flows changes their values and nothing else. */
  lemma AddToKeepsParent(flows: seq<Flow>, ks: seq<nat>, v: int, k: nat)
    requires k < |flows|
    ensures AddTo(flows, ks, v)[k].parent == flows[k].parent
  {
  }

  /** The walk from `start` visits its `j`-th category for the first time. */
  lemma WalkGrows(cats: seq<Category>, start: nat, j: nat)
    requires Rooted(cats) && start < |cats| && j < |Chain(cats, start)|
    ensures var w := Chain(cats, start); w[..j + 1] == w[..j] + [w[j]] && w[j] !in w[..j]
  {
    var w := Chain(cats, start);
    ChainDistinct(cats, start);
  }

  /** The body of the `while (flow.parent)` loop: adds `v` to the flow of
      category `f` and to the flow of each of its ancestors. */
  method AddAlongWalk(a: array<Flow>, cats: seq<Category>, idx: map<string, nat>, f: nat, v: int)
    requires a.Length == |cats| && idx == IndexById(cats) && UniqueIds(cats) && Rooted(cats) && f < |cats|
    requires forall k :: 0 <= k < a.Length ==> a[k].parent == cats[k].parent
    modifies a
    ensures a[..] == AddTo(old(a[..]), Chain(cats, f), v)
  {
    ghost var walk := Chain(cats, f);
    ghost var j := 0;
    ghost var before := a[..];
    var g := f;
    WalkGrows(cats, f, 0);
    AddToStep(before, [], g, v);
    a[g] := a[g].(value := a[g].value + v as real);
    while a[g].parent.Some? && a[g].parent.value != ""
      invariant 0 <= j < |walk| && g == walk[j]
      invariant a[..] == AddTo(before, walk[..j + 1], v)
      decreases |walk| - j
    {
      WalkContinues(cats, f, j);
      AddToKeepsParent(before, walk[..j + 1], v, g);
      g := idx[a[g].parent.value];
      j := j + 1;
      WalkGrows(cats, f, j);
      AddToStep(before, walk[..j], g, v);
      a[g] := a[g].(value := a[g].value + v as real);
    }
    AddToKeepsParent(before, walk[..j + 1], v, g);
    WalkStops(cats, f, j);
    assert walk[..j + 1] == walk;
  }

  /** The `for` loop over `txs` (the income transactions followed by the expense
      transactions): each flow ends with its category's subtree total. */
  method Accumulate(a: array<Flow>, cats: seq<Category>, txs: seq<InputTransaction>)
    requires a.Length == |cats| && UniqueIds(cats) && Rooted(cats)
    requires forall t :: t in txs ==> t.categoryId in IndexById(cats)
    requires forall k :: 0 <= k < a.Length ==> a[k] == InitialFlow(cats[k])
    modifies a
    ensures forall k :: 0 <= k < a.Length ==> a[k] == InitialFlow(cats[k]).(value := SubtreeTotal(cats, txs, k) as real)
  {
    var flowsById := IndexById(cats);
    var i := 0;
    while i < |txs|
      invariant 0 <= i <= |txs|
      invariant forall k :: 0 <= k < a.Length ==> a[k] == InitialFlow(cats[k]).(value := SubtreeTotal(cats, txs[..i], k) as real)
    {
      var t := txs[i];
      AddAlongWalk(a, cats, flowsById, flowsById[t.categoryId], t.value);
      forall k | 0 <= k < a.Length {
        SubtreeExtend(cats, txs, i, k);
      }
      i := i + 1;
    }
    assert txs[..i] == txs;
  }

  /** Runs the upward pass over `txs` and halves the first root. Every flow
      other than the first root ends with its category's subtree total; the
      first root ends with half of it. */
  method AggregateFlows(cats: seq<Category>, txs: seq<InputTransaction>) returns (flows: seq<Flow>)
    requires UniqueIds(cats) && Rooted(cats)
    requires forall t :: t in txs ==> t.categoryId in IndexById(cats)
    ensures |flows| == |cats|
    ensures forall k :: 0 <= k < |cats| ==> flows[k].(value := 0.0) == InitialFlow(cats[k])
    ensures forall k :: 0 <= k < |cats| && FirstRoot(cats) != Some(k) ==> flows[k].value == SubtreeTotal(cats, txs, k) as real
    ensures forall r :: FirstRoot(cats) == Some(r) ==> flows[r].value == SubtreeTotal(cats, txs, r) as real / 2.0
  {
    var n := |cats|;
    var a := new Flow[n](k requires 0 <= k < n => InitialFlow(cats[k]));
    Accumulate(a, cats, txs);
    var root := FirstRoot(cats);
    if root.Some? {
      var r := root.value;
      a[r] := a[r].(value := a[r].value / 2.0);
    }
    flows := a[..];
  }
}
