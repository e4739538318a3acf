/** The mempool as block assembly sees it: a finite DAG of transactions with correct ancestor queries. */
module Mempool {
  import opened Sets

  datatype Kind = Plain | Sigma | Lelantus | Spark

  /** A mempool entry. `amount` and `inputs` are what privacy spends are limited by; `isFinal` and `safe`
      stand for the lock-time and chain-lock checks; a remint turns zerocoins into sigma coins. */
  datatype Tx = Tx(weight: nat, sigOps: nat, size: nat, kind: Kind, amount: nat, inputs: nat,
                   isFinal: bool, safe: bool, hasWitness: bool, isRemint: bool)

  /** Transactions by hash, with their in-mempool parents, and the configured size a signature operation
      counts for. The rank only witnesses acyclicity. */
  datatype Pool = Pool(txs: map<int, Tx>, parents: map<int, set<int>>, rank: map<int, nat>, bytesPerSigOp: nat)

  const WITNESS_SCALE_FACTOR: nat := 4

  ghost predicate PoolOk(p: Pool) {
    && p.parents.Keys == p.txs.Keys && p.rank.Keys == p.txs.Keys
    && (forall t, a :: t in p.parents && a in p.parents[t] ==> a in p.txs && p.rank[a] < p.rank[t])
  }

  function VirtualSize(t: Tx, bytesPerSigOp: nat): nat {
    var w := if t.weight < t.sigOps * bytesPerSigOp then t.sigOps * bytesPerSigOp else t.weight;
    (w + WITNESS_SCALE_FACTOR - 1) / WITNESS_SCALE_FACTOR
  }

  function VSize(p: Pool): Tx -> nat {
    t => VirtualSize(t, p.bytesPerSigOp)
  }

  lemma VSizeCoversWeight(p: Pool, t: Tx)
    ensures t.weight <= WITNESS_SCALE_FACTOR * VSize(p)(t)
  {
  }

  function SigOps(t: Tx): nat {
    t.sigOps
  }

  function Weight(t: Tx): nat {
    t.weight
  }

  function Size(t: Tx): nat {
    t.size
  }

  predicate Privacy(t: Tx) {
    t.kind != Plain
  }

  // ---------------------------------------------------------------------------------------------
  // Ancestors and descendants

  /** a is a proper ancestor of t. */
  ghost predicate IsAncestor(p: Pool, a: int, t: int)
    requires PoolOk(p) && t in p.txs
    decreases p.rank[t]
  {
    a in p.parents[t] || exists q :: q in p.parents[t] && IsAncestor(p, a, q)
  }

  lemma {:induction false} AncestorRank(p: Pool, a: int, t: int)
    requires PoolOk(p) && t in p.txs && IsAncestor(p, a, t)
    ensures a in p.txs && p.rank[a] < p.rank[t]
    decreases p.rank[t]
  {
    if a !in p.parents[t] {
      var q :| q in p.parents[t] && IsAncestor(p, a, q);
      AncestorRank(p, a, q);
    }
  }

  lemma {:induction false} AncestorTrans(p: Pool, a: int, b: int, t: int)
    requires PoolOk(p) && t in p.txs && b in p.txs && IsAncestor(p, a, b) && IsAncestor(p, b, t)
    ensures IsAncestor(p, a, t)
    decreases p.rank[t]
  {
    if b !in p.parents[t] {
      var q :| q in p.parents[t] && IsAncestor(p, b, q);
      AncestorTrans(p, a, b, q);
    }
  }

  ghost function Ancestors(p: Pool, t: int): set<int>
    requires PoolOk(p) && t in p.txs
  {
    set a | a in p.txs && IsAncestor(p, a, t)
  }

  /** A transaction with everything it depends on. */
  ghost function Package(p: Pool, t: int): set<int>
    requires PoolOk(p) && t in p.txs
  {
    Ancestors(p, t) + {t}
  }

  ghost predicate AncestorClosed(p: Pool, s: set<int>)
    requires PoolOk(p)
  {
    forall t, a :: t in s && t in p.txs && a in p.txs && IsAncestor(p, a, t) ==> a in s
  }

  ghost predicate DescendantClosed(p: Pool, s: set<int>)
    requires PoolOk(p)
  {
    s <= p.txs.Keys && forall t, d :: t in s && d in p.txs && IsAncestor(p, t, d) ==> d in s
  }

  /** Following children is enough: a set closed under children is closed under descendants. */
  lemma {:induction false} ChildrenSuffice(p: Pool, s: set<int>, t: int, d: int)
    requires PoolOk(p) && d in p.txs && t in s && IsAncestor(p, t, d)
    requires forall q, c :: q in s && c in p.txs && q in p.parents[c] ==> c in s
    ensures d in s
    decreases p.rank[d]
  {
    if t !in p.parents[d] {
      var q :| q in p.parents[d] && IsAncestor(p, t, q);
      ChildrenSuffice(p, s, t, q);
    }
  }

  function ChildrenOf(p: Pool, t: int): (r: set<int>)
    requires PoolOk(p)
    ensures r <= p.txs.Keys
  {
    set c | c in p.txs && t in p.parents[c]
  }

  ghost predicate DependsOn(p: Pool, x: int, t: int)
    requires PoolOk(p)
  {
    x == t || (x in p.txs && IsAncestor(p, t, x))
  }

  /** Everything in s is t, depends on t, or was there before. */
  ghost predicate Reached(p: Pool, t: int, before: set<int>, s: set<int>)
    requires PoolOk(p)
  {
    forall x :: x in s ==> x in before || DependsOn(p, x, t)
  }

  /** The children of what has been visited are visited or staged. */
  ghost predicate Frontier(p: Pool, after: set<int>, stage: set<int>)
    requires PoolOk(p)
  {
    forall q, c :: q in after && c in p.txs && q in p.parents[c] ==> c in after || c in stage
  }

  lemma VisitStep(p: Pool, t: int, before: set<int>, after: set<int>, stage: set<int>, it: int)
    requires PoolOk(p) && t in p.txs && DescendantClosed(p, before) && it in stage && stage <= p.txs.Keys
    requires Reached(p, t, before, after + stage) && Frontier(p, after, stage)
    requires after <= p.txs.Keys && stage !! after
    ensures var a := after + {it}; var st := (stage - {it}) + (ChildrenOf(p, it) - a);
            && Reached(p, t, before, a + st) && Frontier(p, a, st)
            && a <= p.txs.Keys && st <= p.txs.Keys && st !! a && (t in after || t in stage ==> t in a || t in st)
            && |p.txs.Keys - a| < |p.txs.Keys - after|
  {
    Shrinks(p.txs.Keys, after, it);
    hide IsAncestor;
    assert it in after + stage;
    forall c | c in ChildrenOf(p, it) ensures c in before || DependsOn(p, c, t) {
      ParentIsAncestor(p, it, c);
      if it !in before && it != t { ParentExtends(p, t, it, c); }
    }
  }

  lemma ParentIsAncestor(p: Pool, q: int, c: int)
    requires PoolOk(p) && c in p.txs && q in p.parents[c]
    ensures IsAncestor(p, q, c)
  {
  }

  lemma VisitedAll(p: Pool, t: int, before: set<int>, after: set<int>)
    requires PoolOk(p) && t in p.txs && before <= after <= p.txs.Keys && t in after
    requires Reached(p, t, before, after) && Frontier(p, after, {})
    ensures DescendantClosed(p, after)
    ensures forall x :: x in after <==> x in before || DependsOn(p, x, t)
  {
    hide IsAncestor;
    forall x, d | x in after && d in p.txs && IsAncestor(p, x, d) ensures d in after {
      ChildrenSuffice(p, after, x, d);
    }
  }

  /** CalculateDescendants: everything that depends on t, walked down from t but not past transactions
      already in the set. On a descendant-closed set that is exactly the union. */
  method CalculateDescendants(p: Pool, t: int, before: set<int>) returns (after: set<int>)
    requires PoolOk(p) && t in p.txs && DescendantClosed(p, before)
    ensures DescendantClosed(p, after) && before <= after && t in after
    ensures forall x :: x in after <==> x in before || DependsOn(p, x, t)
  {
    hide IsAncestor, Reached, Frontier, DescendantClosed, ChildrenOf, PoolOk, DependsOn;
    ClosedIsFrontier(p, before, t);
    after := before;
    var stage: set<int> := if t in after then {} else {t};
    while stage != {}
      invariant stage <= p.txs.Keys && before <= after <= p.txs.Keys && stage !! after
      invariant t in after || t in stage
      invariant Reached(p, t, before, after + stage) && Frontier(p, after, stage)
      decreases |p.txs.Keys - after|
    {
      var it := PickAny(stage);
      VisitStep(p, t, before, after, stage, it);
      after, stage := after + {it}, (stage - {it}) + (ChildrenOf(p, it) - (after + {it}));
    }
    assert after + stage == after;
    VisitedAll(p, t, before, after);
  }

  lemma ClosedIsFrontier(p: Pool, before: set<int>, t: int)
    requires PoolOk(p) && DescendantClosed(p, before)
    ensures before <= p.txs.Keys
    ensures Reached(p, t, before, before + {}) && Reached(p, t, before, before + {t})
    ensures Frontier(p, before, {}) && Frontier(p, before, {t})
  {
    forall q, c | q in before && c in p.txs && q in p.parents[c] ensures c in before { ParentIsAncestor(p, q, c); }
  }

  lemma ParentExtends(p: Pool, a: int, t: int, c: int)
    requires PoolOk(p) && t in p.txs && c in p.txs && t in p.parents[c] && IsAncestor(p, a, t)
    ensures IsAncestor(p, a, c)
  {
  }

  lemma Shrinks(all: set<int>, s: set<int>, x: int)
    requires x in all && x !in s
    ensures |all - (s + {x})| < |all - s|
  {
    assert all - s == (all - (s + {x})) + {x};
  }

  // ---------------------------------------------------------------------------------------------
  // Sums over sets of transactions

  ghost function Sum(p: Pool, s: set<int>, f: Tx -> nat): nat
    requires s <= p.txs.Keys
  {
    if s == {} then 0
    else
      var x := Pick(s);
      f(p.txs[x]) + Sum(p, s - {x}, f)
  }

  lemma {:induction false} SumRemove(p: Pool, s: set<int>, f: Tx -> nat, x: int)
    requires s <= p.txs.Keys && x in s
    ensures Sum(p, s, f) == f(p.txs[x]) + Sum(p, s - {x}, f)
    decreases |s|
  {
    var y := Pick(s);
    if y != x {
      SumRemove(p, s - {y}, f, x);
      SumRemove(p, s - {x}, f, y);
      assert s - {y} - {x} == s - {x} - {y};
    }
  }

  lemma {:induction false} SumUnion(p: Pool, a: set<int>, b: set<int>, f: Tx -> nat)
    requires a <= p.txs.Keys && b <= p.txs.Keys && a !! b
    ensures Sum(p, a + b, f) == Sum(p, a, f) + Sum(p, b, f)
    decreases |b|
  {
    if b == {} {
      assert a + b == a;
    } else {
      var x := Pick(b);
      SumRemove(p, b, f, x);
      SumRemove(p, a + b, f, x);
      assert a + b - {x} == a + (b - {x});
      SumUnion(p, a, b - {x}, f);
    }
  }

  lemma {:induction false} SumSubset(p: Pool, a: set<int>, b: set<int>, f: Tx -> nat)
    requires a <= b <= p.txs.Keys
    ensures Sum(p, a, f) <= Sum(p, b, f)
    decreases |b|
  {
    if a != {} {
      var x := Pick(a);
      SumRemove(p, a, f, x);
      SumRemove(p, b, f, x);
      SumSubset(p, a - {x}, b - {x}, f);
    }
  }

  lemma SumAdd(p: Pool, s: set<int>, f: Tx -> nat, t: int)
    requires s <= p.txs.Keys && t in p.txs && t !in s
    ensures s + {t} <= p.txs.Keys && Sum(p, s + {t}, f) == Sum(p, s, f) + f(p.txs[t])
  {
    SumRemove(p, s + {t}, f, t);
    assert s + {t} - {t} == s;
  }

  lemma RoomForOne(p: Pool, b: set<int>, t: int, all: set<int>, f: Tx -> nat)
    requires b <= all <= p.txs.Keys && t in all && t !in b
    ensures Sum(p, b, f) + f(p.txs[t]) <= Sum(p, all, f)
  {
    hide Sum;
    SumAdd(p, b, f, t);
    SumSubset(p, b + {t}, all, f);
  }

  lemma {:induction false} SumBounded(p: Pool, s: set<int>, f: Tx -> nat, g: Tx -> nat, k: nat)
    requires s <= p.txs.Keys && forall t :: f(t) <= k * g(t)
    ensures Sum(p, s, f) <= k * Sum(p, s, g)
    decreases |s|
  {
    if s != {} {
      var x := Pick(s);
      SumRemove(p, s, g, x);
      SumBounded(p, s - {x}, f, g, k);
      assert f(p.txs[x]) <= k * g(p.txs[x]);
    }
  }

  // ---------------------------------------------------------------------------------------------
  // Ancestor counts order a package

  /** Fewer ancestors first: a parent's count is smaller than its child's. */
  lemma AncestorCountGrows(p: Pool, a: int, t: int)
    requires PoolOk(p) && a in p.txs && t in p.txs && IsAncestor(p, a, t)
    ensures |Package(p, a)| < |Package(p, t)|
  {
    forall x | x in Package(p, a) ensures x in Package(p, t) {
      if x != a { AncestorTrans(p, x, a, t); }
    }
    assert t !in Package(p, a) by {
      AncestorRank(p, a, t);
      if IsAncestor(p, t, a) { AncestorRank(p, t, a); assert false; }
    }
    ProperSubset(Package(p, a), Package(p, t), t);
  }

  lemma ProperSubset(a: set<int>, b: set<int>, x: int)
    requires a <= b && x in b && x !in a
    ensures |a| < |b|
  {
    SubsetCard(a, b - {x});
  }

  lemma {:induction false} SubsetCard(a: set<int>, b: set<int>)
    requires a <= b
    ensures |a| <= |b|
  {
    if a != {} {
      var x := Pick(a);
      SubsetCard(a - {x}, b - {x});
    }
  }
}
