/** Sums and partitions of transactions: the `filter`/`reduce` expressions of
    `convert` and `validateInput` (data/converter.ts). */
module LedgerSums {
  import opened LedgerTypes

  /** A left fold `reduce((sum, t) => sum + f(t), 0)`. */
  function SumOf(txs: seq<InputTransaction>, f: InputTransaction -> int): int
  {
    if txs == [] then 0 else SumOf(txs[..|txs| - 1], f) + f(txs[|txs| - 1])
  }

  function Value(t: InputTransaction): int
  {
    t.value
  }

  /** Sum of the values of the given transactions. */
  function Total(txs: seq<InputTransaction>): int
  {
    SumOf(txs, Value)
  }

  /** The ids of the categories with the given direction, in category order. */
  function DirectionIds(cats: seq<Category>, direction: string): (ids: seq<string>)
    ensures forall id :: id in ids <==> exists k :: 0 <= k < |cats| && cats[k].direction == direction && cats[k].id == id
  {
    if cats == [] then []
    else
      var last := cats[|cats| - 1];
      assert forall k :: 0 <= k < |cats| - 1 ==> cats[..|cats| - 1][k] == cats[k];
      DirectionIds(cats[..|cats| - 1], direction) + (if last.direction == direction then [last.id] else [])
  }

  /** The transactions whose category id is among `ids`, in input order. */
  function TxsIn(txs: seq<InputTransaction>, ids: seq<string>): (r: seq<InputTransaction>)
    ensures |r| <= |txs|
    ensures forall t :: t in r <==> t in txs && t.categoryId in ids
  {
    if txs == [] then []
    else
      var last := txs[|txs| - 1];
      assert txs == txs[..|txs| - 1] + [last];
      TxsIn(txs[..|txs| - 1], ids) + (if last.categoryId in ids then [last] else [])
  }

  /** The transactions whose category id equals `id`, in input order. */
  function TxsWithCategory(txs: seq<InputTransaction>, id: string): (r: seq<InputTransaction>)
    ensures forall t :: t in r <==> t in txs && t.categoryId == id
  {
    TxsIn(txs, [id])
  }

  lemma {:induction false} SumOfConcat(a: seq<InputTransaction>, b: seq<InputTransaction>, f: InputTransaction -> int)
    ensures SumOf(a + b, f) == SumOf(a, f) + SumOf(b, f)
    decreases |b|
  {
    if b == [] {
      assert a + b == a;
    } else {
      assert (a + b)[..|a + b| - 1] == a + b[..|b| - 1];
      SumOfConcat(a, b[..|b| - 1], f);
    }
  }

  /** Two functions that agree on every element give the same sum. */
  lemma {:induction false} SumOfCongruent(txs: seq<InputTransaction>, f: InputTransaction -> int, g: InputTransaction -> int)
    requires forall t :: t in txs ==> f(t) == g(t)
    ensures SumOf(txs, f) == SumOf(txs, g)
  {
    if txs != [] {
      assert forall t :: t in txs[..|txs| - 1] ==> t in txs;
      SumOfCongruent(txs[..|txs| - 1], f, g);
    }
  }

  /** Sums are additive in the summed function. */
  lemma {:induction false} SumOfAdd(txs: seq<InputTransaction>, f: InputTransaction -> int, g: InputTransaction -> int, h: InputTransaction -> int)
    requires forall t :: t in txs ==> h(t) == f(t) + g(t)
    ensures SumOf(txs, h) == SumOf(txs, f) + SumOf(txs, g)
  {
    if txs != [] {
      assert forall t :: t in txs[..|txs| - 1] ==> t in txs;
      SumOfAdd(txs[..|txs| - 1], f, g, h);
    }
  }

  /** If every transaction belongs to exactly one of two id lists, the sums of
      the two filtered lists add up to the sum of all transactions. */
  lemma {:induction false} SumOfPartition(txs: seq<InputTransaction>, left: seq<string>, right: seq<string>, f: InputTransaction -> int)
    requires forall t :: t in txs ==> (t.categoryId in left <==> t.categoryId !in right)
    ensures SumOf(TxsIn(txs, left), f) + SumOf(TxsIn(txs, right), f) == SumOf(txs, f)
  {
    if txs != [] {
      var init, last := txs[..|txs| - 1], txs[|txs| - 1];
      assert forall t :: t in init ==> t in txs;
      SumOfPartition(init, left, right, f);
      var extra := [last];
      if last.categoryId in left {
        SumOfConcat(TxsIn(init, left), extra, f);
        assert TxsIn(txs, right) == TxsIn(init, right);
      } else {
        SumOfConcat(TxsIn(init, right), extra, f);
        assert TxsIn(txs, left) == TxsIn(init, left);
      }
    }
  }

  /** Filtering commutes with concatenation, so it keeps the input order. */
  lemma {:induction false} TxsInConcat(a: seq<InputTransaction>, b: seq<InputTransaction>, ids: seq<string>)
    ensures TxsIn(a + b, ids) == TxsIn(a, ids) + TxsIn(b, ids)
    decreases |b|
  {
    if b == [] {
      assert a + b == a;
    } else {
      assert (a + b)[..|a + b| - 1] == a + b[..|b| - 1];
      TxsInConcat(a, b[..|b| - 1], ids);
    }
  }

  /** A sum of positive values is at least each of its terms. */
  lemma {:induction false} TotalAtLeastMember(txs: seq<InputTransaction>, t: InputTransaction)
    requires forall u :: u in txs ==> u.value > 0
    requires t in txs
    ensures Total(txs) >= t.value > 0
  {
    var init := txs[..|txs| - 1];
    assert forall u :: u in init ==> u in txs;
    if t != txs[|txs| - 1] {
      assert t in init;
      TotalAtLeastMember(init, t);
    } else if init != [] {
      TotalAtLeastMember(init, init[0]);
    } else {
      assert Total(init) == 0;
    }
  }

  lemma {:induction false} SumOfZero(txs: seq<InputTransaction>, f: InputTransaction -> int)
    requires forall t :: t in txs ==> f(t) == 0
    ensures SumOf(txs, f) == 0
  {
    if txs != [] {
      assert forall t :: t in txs[..|txs| - 1] ==> t in txs;
      SumOfZero(txs[..|txs| - 1], f);
    }
  }
}
