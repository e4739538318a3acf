/** A database transaction as values: writes and deletes laid over a parent, itself possibly a transaction. */
module DbOverlay {
  import opened Sets
  import opened DbKeys

  /** A stored value with its serialised size. */
  datatype Value = Value(content: int, size: nat)

  datatype Layer = Layer(writes: map<Key, Value>, deletes: set<Key>, memoryUsage: int)

  const CLEAN := Layer(map[], {}, 0)

  /** What is seen through a layer. */
  function View(parent: map<Key, Value>, l: Layer): map<Key, Value> {
    (parent - l.deletes) + l.writes
  }

  // ---------------------------------------------------------------------------------------------
  // Memory usage

  ghost function KeyTotal(s: set<Key>): nat {
    if s == {} then 0 else var k := Pick(s); |k| + KeyTotal(s - {k})
  }

  ghost function WriteTotal(w: map<Key, Value>): nat
    decreases w.Keys
  {
    if w.Keys == {} then 0 else var k := Pick(w.Keys); |k| + w[k].size + WriteTotal(w - {k})
  }

  lemma {:induction false} KeyTotalRemove(s: set<Key>, k: Key)
    requires k in s
    ensures KeyTotal(s) == |k| + KeyTotal(s - {k})
    decreases |s|
  {
    var x := Pick(s);
    if x != k {
      KeyTotalRemove(s - {x}, k);
      KeyTotalRemove(s - {k}, x);
      assert s - {x} - {k} == s - {k} - {x};
    }
  }

  lemma {:induction false} WriteTotalRemove(w: map<Key, Value>, k: Key)
    requires k in w
    ensures WriteTotal(w) == |k| + w[k].size + WriteTotal(w - {k})
    decreases |w.Keys|
  {
    var x := Pick(w.Keys);
    if x != k {
      assert (w - {x}).Keys == w.Keys - {x} && (w - {k}).Keys == w.Keys - {k};
      assert |w.Keys - {x}| < |w.Keys| && |w.Keys - {k}| < |w.Keys|;
      WriteTotalRemove(w - {x}, k);
      WriteTotalRemove(w - {k}, x);
      assert w - {x} - {k} == w - {k} - {x};
    }
  }

  /** Writes and deletes are disjoint, and the memory usage is the exact sum of their sizes. */
  ghost predicate LayerOk(l: Layer) {
    l.writes.Keys !! l.deletes && l.memoryUsage == KeyTotal(l.deletes) + WriteTotal(l.writes)
  }

  // ---------------------------------------------------------------------------------------------
  // Writing and erasing

  function Write(l: Layer, k: Key, v: Value): Layer {
    var freed := (if k in l.deletes then |k| else 0) + (if k in l.writes then |k| + l.writes[k].size else 0);
    Layer(l.writes[k := v], l.deletes - {k}, l.memoryUsage - freed + |k| + v.size)
  }

  function Erase(l: Layer, k: Key): Layer {
    var freed := if k in l.writes then |k| + l.writes[k].size else 0;
    var added := if k in l.deletes then 0 else |k|;
    Layer(l.writes - {k}, l.deletes + {k}, l.memoryUsage - freed + added)
  }

  lemma WriteUsage(l: Layer, k: Key, v: Value)
    requires LayerOk(l)
    ensures LayerOk(Write(l, k, v))
  {
    hide KeyTotal, WriteTotal;
    var r := Write(l, k, v);
    WriteTotalRemove(r.writes, k);
    assert r.writes - {k} == l.writes - {k};
    if k in l.writes { WriteTotalRemove(l.writes, k); } else { assert l.writes - {k} == l.writes; }
    if k in l.deletes { KeyTotalRemove(l.deletes, k); } else { assert r.deletes == l.deletes; }
  }

  /** A write shows through the layer as a write. */
  lemma WriteKeeps(parent: map<Key, Value>, l: Layer, k: Key, v: Value)
    requires LayerOk(l)
    ensures LayerOk(Write(l, k, v)) && View(parent, Write(l, k, v)) == View(parent, l)[k := v]
  {
    WriteUsage(l, k, v);
    hide LayerOk;
    assert View(parent, Write(l, k, v)) == View(parent, l)[k := v];
  }

  lemma EraseUsage(l: Layer, k: Key)
    requires LayerOk(l)
    ensures LayerOk(Erase(l, k))
  {
    hide KeyTotal, WriteTotal;
    var r := Erase(l, k);
    if k in l.writes { WriteTotalRemove(l.writes, k); } else { assert r.writes == l.writes; }
    KeyTotalRemove(r.deletes, k);
    assert r.deletes - {k} == l.deletes - {k};
    if k in l.deletes { KeyTotalRemove(l.deletes, k); } else { assert l.deletes - {k} == l.deletes; }
  }

  /** An erasure shows through the layer as an erasure. */
  lemma EraseKeeps(parent: map<Key, Value>, l: Layer, k: Key)
    requires LayerOk(l)
    ensures LayerOk(Erase(l, k)) && View(parent, Erase(l, k)) == View(parent, l) - {k}
  {
    EraseUsage(l, k);
    hide LayerOk;
    assert View(parent, Erase(l, k)) == View(parent, l) - {k};
  }

  // ---------------------------------------------------------------------------------------------
  // Committing

  /** Half way through a commit: what has been handed over so far is seen through the target. */
  ghost predicate Committing(target: Layer, t: Layer, erased: set<Key>, written: map<Key, Value>) {
    && LayerOk(t)
    && forall parent :: View(parent, t) == (View(parent, target) - erased) + written
  }

  lemma CommitErase(target: Layer, t: Layer, erased: set<Key>, k: Key)
    requires Committing(target, t, erased, map[])
    ensures Committing(target, Erase(t, k), erased + {k}, map[])
  {
    hide LayerOk, Erase;
    forall parent ensures View(parent, Erase(t, k)) == (View(parent, target) - (erased + {k})) + map[] {
      EraseKeeps(parent, t, k);
      assert View(parent, t) == (View(parent, target) - erased) + map[];
    }
    EraseKeeps(map[], t, k);
  }

  lemma CommitWrite(target: Layer, t: Layer, erased: set<Key>, written: map<Key, Value>, k: Key, v: Value)
    requires Committing(target, t, erased, written)
    ensures Committing(target, Write(t, k, v), erased, written[k := v])
  {
    hide LayerOk, Write;
    forall parent ensures View(parent, Write(t, k, v)) == (View(parent, target) - erased) + written[k := v] {
      WriteKeeps(parent, t, k, v);
      assert View(parent, t) == (View(parent, target) - erased) + written;
    }
    WriteKeeps(map[], t, k, v);
  }
}
