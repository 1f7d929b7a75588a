/** The category tree as the converter walks it: the upward `while (flow.parent)`
    walk of data/converter.ts and the subtree totals it accumulates. */
module LedgerTree {
  import opened Wrappers
  import opened LedgerTypes
  import opened LedgerSums

  /** Category `c` names category `p` as its parent. */
  predicate ParentOf(cats: seq<Category>, c: nat, p: nat)
    requires c < |cats| && p < |cats|
  {
    HasParent(cats[c]) && cats[c].parent.value == cats[p].id
  }

  /** The category that the lookup `idx[flow.parent]` yields for category
      `k`, if `k` has a parent and the table has that id. */
  function Up(cats: seq<Category>, idx: map<string, nat>, k: nat): (p: Option<nat>)
    requires k < |cats|
    ensures p.Some? ==> p.value < |cats|
  {
    if HasParent(cats[k]) && cats[k].parent.value in idx && idx[cats[k].parent.value] < |cats|
    then Some(idx[cats[k].parent.value])
    else None
  }

  /** The categories the upward walk visits from `k`: `k`, its parent, its
      grandparent and so on, for at most `fuel` steps. The walk also stops at a
      parent id that no category has, where the source would dereference
      `undefined`. */
  function Walk(cats: seq<Category>, idx: map<string, nat>, k: nat, fuel: nat): (w: seq<nat>)
    requires k < |cats|
    ensures |w| >= 1 && w[0] == k
    ensures forall i :: 0 <= i < |w| ==> w[i] < |cats|
    decreases fuel
  {
    if fuel == 0 || Up(cats, idx, k).None? then [k]
    else [k] + Walk(cats, idx, Up(cats, idx, k).value, fuel - 1)
  }

  /** The walk from `k` through the id table of `flowsByCategoryIdMap`, with one
      step per category: enough to reach the root of any acyclic tree. */
  function Chain(cats: seq<Category>, k: nat): (w: seq<nat>)
    requires k < |cats|
    ensures |w| >= 1 && w[0] == k
    ensures forall i :: 0 <= i < |w| ==> w[i] < |cats|
  {
    Walk(cats, IndexById(cats), k, |cats|)
  }

  /** The category where the walk from `k` ends. */
  function Top(cats: seq<Category>, k: nat): (r: nat)
    requires k < |cats|
    ensures r < |cats| && r in Chain(cats, k)
  {
    var w := Chain(cats, k);
    w[|w| - 1]
  }

  /** Every parent link resolves and no walk runs in a cycle: the walk from any
      category ends at a category without parent. */
  predicate Rooted(cats: seq<Category>)
  {
    forall k :: 0 <= k < |cats| ==> !HasParent(cats[Top(cats, k)])
  }

  /** A step through the id table goes from a category to its parent. */
  lemma UpIsParent(cats: seq<Category>, k: nat)
    requires k < |cats| && Up(cats, IndexById(cats), k).Some?
    ensures ParentOf(cats, k, Up(cats, IndexById(cats), k).value)
  {
  }

  /** Each step of a walk goes from a category to its parent. */
  lemma {:induction false} WalkStep(cats: seq<Category>, idx: map<string, nat>, k: nat, fuel: nat, i: nat)
    requires k < |cats| && i + 1 < |Walk(cats, idx, k, fuel)|
    ensures var w := Walk(cats, idx, k, fuel); Up(cats, idx, w[i]) == Some(w[i + 1])
    decreases i
  {
    if i > 0 {
      WalkStep(cats, idx, Up(cats, idx, k).value, fuel - 1, i - 1);
    }
  }

  /** The tail of a walk is the walk from where the tail starts. */
  lemma {:induction false} WalkSuffix(cats: seq<Category>, idx: map<string, nat>, k: nat, fuel: nat, i: nat)
    requires k < |cats| && i < |Walk(cats, idx, k, fuel)|
    ensures i <= fuel
    ensures Walk(cats, idx, k, fuel)[i..] == Walk(cats, idx, Walk(cats, idx, k, fuel)[i], fuel - i)
    decreases i
  {
    if i > 0 {
      var w := Walk(cats, idx, k, fuel);
      var p := Up(cats, idx, k).value;
      var v := Walk(cats, idx, p, fuel - 1);
      assert w == [k] + v;
      WalkSuffix(cats, idx, p, fuel - 1, i - 1);
      assert w[i..] == v[i - 1..];
    }
  }

  /** The walk from the `i`-th category of a walk has the remaining length and
      ends where the whole walk ends. */
  lemma WalkTail(cats: seq<Category>, idx: map<string, nat>, k: nat, fuel: nat, i: nat)
    requires k < |cats| && i < |Walk(cats, idx, k, fuel)|
    ensures i <= fuel
    ensures var w := Walk(cats, idx, k, fuel); var v := Walk(cats, idx, w[i], fuel - i);
      |v| == |w| - i && v[|v| - 1] == w[|w| - 1]
  {
    WalkSuffix(cats, idx, k, fuel, i);
  }

  /** A walk that reached a category without parent does not change with more fuel. */
  lemma {:induction false} WalkComplete(cats: seq<Category>, idx: map<string, nat>, k: nat, f: nat, g: nat)
    requires k < |cats| && f <= g
    requires var w := Walk(cats, idx, k, f); !HasParent(cats[w[|w| - 1]])
    ensures Walk(cats, idx, k, g) == Walk(cats, idx, k, f)
    decreases f
  {
    if HasParent(cats[k]) {
      assert f > 0 && Up(cats, idx, k).Some?;
      var p := Up(cats, idx, k).value;
      assert Walk(cats, idx, k, f) == [k] + Walk(cats, idx, p, f - 1);
      assert Walk(cats, idx, k, g) == [k] + Walk(cats, idx, p, g - 1);
      WalkComplete(cats, idx, p, f - 1, g - 1);
    }
  }

  /** In a rooted forest a walk never visits a category twice. */
  lemma ChainDistinct(cats: seq<Category>, k: nat)
    requires Rooted(cats) && k < |cats|
    ensures var w := Chain(cats, k); forall a, b :: 0 <= a < b < |w| ==> w[a] != w[b]
  {
    var w := Chain(cats, k);
    assert !HasParent(cats[Top(cats, k)]);
    forall a, b | 0 <= a < b < |w| ensures w[a] != w[b] {
      WalkNoRepeat(cats, IndexById(cats), k, |cats|, a, b);
    }
  }

  /** Were a category visited twice by a complete walk, the walks from both
      visits would be the same complete walk, yet of different lengths. */
  lemma WalkNoRepeat(cats: seq<Category>, idx: map<string, nat>, k: nat, fuel: nat, a: nat, b: nat)
    requires k < |cats|
    requires var w := Walk(cats, idx, k, fuel); !HasParent(cats[w[|w| - 1]])
    requires a < b < |Walk(cats, idx, k, fuel)|
    ensures Walk(cats, idx, k, fuel)[a] != Walk(cats, idx, k, fuel)[b]
  {
    var w := Walk(cats, idx, k, fuel);
    WalkTail(cats, idx, k, fuel, a);
    WalkTail(cats, idx, k, fuel, b);
    if w[a] == w[b] {
      WalkComplete(cats, idx, w[b], fuel - b, fuel - a);
      assert false;
    }
  }

  /** The categories that walk up to themselves: none in a rooted forest. */
  lemma ChainAfterFirst(cats: seq<Category>, k: nat, i: nat)
    requires Rooted(cats) && k < |cats|
    requires 0 < i < |Chain(cats, k)|
    ensures Chain(cats, k)[i] != k
  {
    ChainDistinct(cats, k);
  }

  /** A child of `k` on a walk is followed by `k` itself. */
  lemma ChildOnChain(cats: seq<Category>, start: nat, k: nat, c: nat, i: nat)
    requires UniqueIds(cats) && Rooted(cats)
    requires start < |cats| && k < |cats| && c < |cats| && ParentOf(cats, c, k)
    requires i < |Chain(cats, start)| && Chain(cats, start)[i] == c
    ensures i + 1 < |Chain(cats, start)| && Chain(cats, start)[i + 1] == k
  {
    var w := Chain(cats, start);
    assert Top(cats, start) == w[|w| - 1];
    assert i + 1 < |w|;
    WalkStep(cats, IndexById(cats), start, |cats|, i);
    UpIsParent(cats, c);
    IndexOfUnique(cats, k);
  }

  /** What transaction `t` adds to the flow of category `k` during the upward
      pass: its value when `k` is on the walk from `t`'s category, that is, when
      `t`'s category is `k` or a descendant of `k`. */
  function Contribution(cats: seq<Category>, k: nat, t: InputTransaction): int
  {
    var idx := IndexById(cats);
    if t.categoryId in idx && k in Chain(cats, idx[t.categoryId]) then t.value else 0
  }

  /** The value of `t` when its category is exactly `k`. */
  function DirectContribution(cats: seq<Category>, k: nat, t: InputTransaction): int
  {
    var idx := IndexById(cats);
    if t.categoryId in idx && idx[t.categoryId] == k then t.value else 0
  }

  /** Sum of the values of the transactions whose category is `k` or below `k`. */
  function SubtreeTotal(cats: seq<Category>, txs: seq<InputTransaction>, k: nat): int
  {
    SumOf(txs, t => Contribution(cats, k, t))
  }

  /** Sum of the values of the transactions whose category is exactly `k`. */
  function DirectTotal(cats: seq<Category>, txs: seq<InputTransaction>, k: nat): int
  {
    SumOf(txs, t => DirectContribution(cats, k, t))
  }

  /** The direct children of `k` among the first `m` categories, in category order. */
  function ChildrenBelow(cats: seq<Category>, k: nat, m: nat): (cs: seq<nat>)
    requires k < |cats| && m <= |cats|
    ensures forall c: nat :: c in cs <==> c < m && ParentOf(cats, c, k)
    ensures forall i, j :: 0 <= i < j < |cs| ==> cs[i] < cs[j]
  {
    if m == 0 then []
    else
      var earlier := ChildrenBelow(cats, k, m - 1);
      assert forall i :: 0 <= i < |earlier| ==> earlier[i] in earlier;
      assert forall i :: 0 <= i < |earlier| ==> earlier[i] < m - 1;
      var cs := earlier + (if ParentOf(cats, m - 1, k) then [m - 1] else []);
      assert forall c: nat :: c in cs <==> c in earlier || (c == m - 1 && ParentOf(cats, m - 1, k));
      cs
  }

  /** The direct children of `k`, in category order. */
  function Children(cats: seq<Category>, k: nat): (cs: seq<nat>)
    requires k < |cats|
    ensures forall c: nat :: c in cs <==> c < |cats| && ParentOf(cats, c, k)
    ensures forall i, j :: 0 <= i < j < |cs| ==> cs[i] < cs[j]
  {
    ChildrenBelow(cats, k, |cats|)
  }

  /** Every child lies in range and has a parent. */
  lemma ChildrenHaveParents(cats: seq<Category>, k: nat)
    requires k < |cats|
    ensures forall i :: 0 <= i < |Children(cats, k)| ==> Children(cats, k)[i] < |cats| && HasParent(cats[Children(cats, k)[i]])
  {
    var cs := Children(cats, k);
    forall i | 0 <= i < |cs| ensures cs[i] < |cats| && HasParent(cats[cs[i]]) {
      assert cs[i] in cs;
    }
  }

  /** Sum of the subtree totals of the categories `cs`. */
  function ChildrenTotal(cats: seq<Category>, txs: seq<InputTransaction>, cs: seq<nat>): int
  {
    if cs == [] then 0
    else ChildrenTotal(cats, txs, cs[..|cs| - 1]) + SubtreeTotal(cats, txs, cs[|cs| - 1])
  }

  /** What `t` adds to the flows of the categories `cs` together. */
  function ChildrenContribution(cats: seq<Category>, cs: seq<nat>, t: InputTransaction): int
  {
    if cs == [] then 0
    else ChildrenContribution(cats, cs[..|cs| - 1], t) + Contribution(cats, cs[|cs| - 1], t)
  }

  /** Summing per category then per transaction equals summing per transaction
      then per category. */
  lemma {:induction false} ChildrenTotalSwap(cats: seq<Category>, txs: seq<InputTransaction>, cs: seq<nat>)
    ensures ChildrenTotal(cats, txs, cs) == SumOf(txs, t => ChildrenContribution(cats, cs, t))
    decreases |cs|
  {
    if cs == [] {
      SumOfZero(txs, t => ChildrenContribution(cats, cs, t));
    } else {
      var init, c := cs[..|cs| - 1], cs[|cs| - 1];
      ChildrenTotalSwap(cats, txs, init);
      SumOfAdd(txs, t => ChildrenContribution(cats, init, t), t => Contribution(cats, c, t),
        t => ChildrenContribution(cats, cs, t));
    }
  }

  /** No category of `cs` receives anything from `t`. */
  lemma {:induction false} ChildrenContributionNone(cats: seq<Category>, cs: seq<nat>, t: InputTransaction)
    requires forall c :: c in cs ==> Contribution(cats, c, t) == 0
    ensures ChildrenContribution(cats, cs, t) == 0
    decreases |cs|
  {
    if cs != [] {
      assert forall c :: c in cs[..|cs| - 1] ==> c in cs;
      ChildrenContributionNone(cats, cs[..|cs| - 1], t);
    }
  }

  /** Exactly one category `c0` of the duplicate-free `cs` receives something from `t`. */
  lemma {:induction false} ChildrenContributionOne(cats: seq<Category>, cs: seq<nat>, t: InputTransaction, c0: nat)
    requires forall i, j :: 0 <= i < j < |cs| ==> cs[i] < cs[j]
    requires c0 in cs
    requires forall c :: c in cs && c != c0 ==> Contribution(cats, c, t) == 0
    ensures ChildrenContribution(cats, cs, t) == Contribution(cats, c0, t)
    decreases |cs|
  {
    var init, last := cs[..|cs| - 1], cs[|cs| - 1];
    assert forall c :: c in init ==> c in cs;
    if last == c0 {
      assert c0 !in init;
      ChildrenContributionNone(cats, init, t);
    } else {
      ChildrenContributionOne(cats, init, t, c0);
    }
  }

  /** The only child of `k` that a walk can visit is the category it visits
      right before `k`. */
  lemma ChildrenOnChain(cats: seq<Category>, start: nat, k: nat)
    requires UniqueIds(cats) && Rooted(cats) && start < |cats| && k < |cats|
    ensures var w := Chain(cats, start);
      forall c :: c in Children(cats, k) && c in w ==> k in w && 0 < IndexOf(w, k) && c == w[IndexOf(w, k) - 1]
  {
    var w := Chain(cats, start);
    ChainDistinct(cats, start);
    forall c | c in Children(cats, k) && c in w
      ensures k in w && 0 < IndexOf(w, k) && c == w[IndexOf(w, k) - 1]
    {
      ChildOnChain(cats, start, k, c, IndexOf(w, c));
    }
  }

  /** When the walk from `t`'s category passes through `k` after leaving some
      child of `k`, `t` reaches `k` through that child only, and not directly. */
  lemma ContributionThroughChild(cats: seq<Category>, k: nat, t: InputTransaction, start: nat)
    requires UniqueIds(cats) && Rooted(cats) && k < |cats|
    requires t.categoryId in IndexById(cats) && IndexById(cats)[t.categoryId] == start
    requires k in Chain(cats, start) && IndexOf(Chain(cats, start), k) > 0
    ensures Contribution(cats, k, t) == t.value && DirectContribution(cats, k, t) == 0
    ensures ChildrenContribution(cats, Children(cats, k), t) == t.value
  {
    var w := Chain(cats, start);
    var p := IndexOf(w, k);
    var c := w[p - 1];
    ChildrenOnChain(cats, start, k);
    WalkStep(cats, IndexById(cats), start, |cats|, p - 1);
    UpIsParent(cats, c);
    assert c in Children(cats, k) && c in w;
    ChildrenContributionOne(cats, Children(cats, k), t, c);
  }

  /** What `t` adds to a category is what it adds directly plus what it adds to
      the category's children. */
  lemma ContributionSplit(cats: seq<Category>, k: nat, t: InputTransaction)
    requires UniqueIds(cats) && Rooted(cats) && k < |cats|
    ensures Contribution(cats, k, t) == DirectContribution(cats, k, t) + ChildrenContribution(cats, Children(cats, k), t)
  {
    var idx := IndexById(cats);
    var cs := Children(cats, k);
    if t.categoryId !in idx {
      ChildrenContributionNone(cats, cs, t);
    } else {
      var start := idx[t.categoryId];
      var w := Chain(cats, start);
      if k !in w || IndexOf(w, k) == 0 {
        ChildrenOnChain(cats, start, k);
        ChildrenContributionNone(cats, cs, t);
      } else {
        ContributionThroughChild(cats, k, t, start);
      }
    }
  }

  /** The first position of `x` in `w`. */
  function IndexOf(w: seq<nat>, x: nat): (i: nat)
    requires x in w
    ensures i < |w| && w[i] == x
    ensures forall j :: 0 <= j < i ==> w[j] != x
  {
    if w[0] == x then 0 else 1 + IndexOf(w[1..], x)
  }

  /** A category's subtree total is the total of its own transactions plus the
      subtree totals of its direct children. */
  lemma SubtreeIsDirectPlusChildren(cats: seq<Category>, txs: seq<InputTransaction>, k: nat)
    requires UniqueIds(cats) && Rooted(cats) && k < |cats|
    ensures SubtreeTotal(cats, txs, k) == DirectTotal(cats, txs, k) + ChildrenTotal(cats, txs, Children(cats, k))
  {
    var cs := Children(cats, k);
    forall t | t in txs
      ensures Contribution(cats, k, t) == DirectContribution(cats, k, t) + ChildrenContribution(cats, cs, t)
    {
      ContributionSplit(cats, k, t);
    }
    SumOfAdd(txs, t => DirectContribution(cats, k, t), t => ChildrenContribution(cats, cs, t), t => Contribution(cats, k, t));
    ChildrenTotalSwap(cats, txs, cs);
  }

  /** When transactions are booked only against leaf categories, a category
      with children has no transactions of its own. */
  lemma InnerHasNoDirect(cats: seq<Category>, txs: seq<InputTransaction>, k: nat)
    requires k < |cats| && Children(cats, k) != []
    requires forall t :: t in txs ==> t.categoryId in LeafIds(cats)
    ensures DirectTotal(cats, txs, k) == 0
  {
    var c := Children(cats, k)[0];
    assert c in Children(cats, k);
    assert cats[c].parent == Some(cats[k].id);
    assert cats[k].id in ParentIds(cats);
    SumOfZero(txs, t => DirectContribution(cats, k, t));
  }

  /** Aggregation correctness for inner categories: the subtree total of a
      category with children is the sum of its children's subtree totals. */
  lemma InnerIsSumOfChildren(cats: seq<Category>, txs: seq<InputTransaction>, k: nat)
    requires UniqueIds(cats) && Rooted(cats) && k < |cats| && Children(cats, k) != []
    requires forall t :: t in txs ==> t.categoryId in LeafIds(cats)
    ensures SubtreeTotal(cats, txs, k) == ChildrenTotal(cats, txs, Children(cats, k))
  {
    SubtreeIsDirectPlusChildren(cats, txs, k);
    InnerHasNoDirect(cats, txs, k);
  }

  /** Aggregation correctness for leaves: a category without children totals
      exactly its own transactions. */
  lemma LeafIsDirect(cats: seq<Category>, txs: seq<InputTransaction>, k: nat)
    requires UniqueIds(cats) && Rooted(cats) && k < |cats| && Children(cats, k) == []
    ensures SubtreeTotal(cats, txs, k) == DirectTotal(cats, txs, k)
  {
    SubtreeIsDirectPlusChildren(cats, txs, k);
  }

  /** Every walk ends at the single root, so the root's subtree total is the
      total of all transactions whose category exists. */
  lemma RootCollectsAll(cats: seq<Category>, txs: seq<InputTransaction>, r: nat)
    requires Rooted(cats) && Roots(cats) == [r]
    requires forall t :: t in txs ==> t.categoryId in IndexById(cats)
    ensures SubtreeTotal(cats, txs, r) == Total(txs)
  {
    forall t | t in txs ensures Contribution(cats, r, t) == Value(t) {
      var start := IndexById(cats)[t.categoryId];
      assert !HasParent(cats[Top(cats, start)]);
      assert Top(cats, start) in Roots(cats);
    }
    SumOfCongruent(txs, t => Contribution(cats, r, t), Value);
  }
}
