/** Database transactions and their iterators in place. */
module DbTransaction {
  import opened Wrappers
  import opened DbKeys
  import opened DbOverlay
  import opened DbCursor

  function Lookup(m: map<Key, Value>, k: Key): Option<Value> {
    if k in m then Some(m[k]) else None
  }

  class Transaction {
    var writes: map<Key, Value>
    var deletes: set<Key>
    var memoryUsage: int

    ghost function Abs(): Layer
      reads this
    {
      Layer(writes, deletes, memoryUsage)
    }

    ghost predicate Valid()
      reads this
    {
      LayerOk(Abs())
    }

    constructor ()
      ensures Valid() && Abs() == CLEAN
    {
      writes, deletes, memoryUsage := map[], {}, 0;
    }

    method Write(k: Key, v: Value)
      requires Valid()
      modifies this
      ensures Valid() && Abs() == DbOverlay.Write(old(Abs()), k, v)
    {
      hide LayerOk;
      WriteKeeps(map[], Abs(), k, v);
      if k in deletes {
        deletes := deletes - {k};
        memoryUsage := memoryUsage - |k|;
      }
      if k in writes {
        memoryUsage := memoryUsage - (|k| + writes[k].size);
      }
      writes := writes[k := v];
      memoryUsage := memoryUsage + |k| + v.size;
      assert deletes == old(deletes) - {k};
    }

    method Erase(k: Key)
      requires Valid()
      modifies this
      ensures Valid() && Abs() == DbOverlay.Erase(old(Abs()), k)
    {
      hide LayerOk;
      EraseKeeps(map[], Abs(), k);
      if k in writes {
        memoryUsage := memoryUsage - (|k| + writes[k].size);
        writes := writes - {k};
      }
      if k !in deletes {
        deletes := deletes + {k};
        memoryUsage := memoryUsage + |k|;
      }
      assert writes == old(writes) - {k} && deletes == old(deletes) + {k};
    }

    /** What the overlay holds under k; the parent is asked only when the transaction does not know. */
    method Read(parent: map<Key, Value>, k: Key) returns (r: Option<Value>)
      requires Valid()
      ensures r == Lookup(View(parent, Abs()), k)
    {
      if k in deletes {
        return None;
      }
      if k in writes {
        return Some(writes[k]);
      }
      return Lookup(parent, k);
    }

    method Exists(parent: map<Key, Value>, k: Key) returns (r: bool)
      requires Valid()
      ensures r <==> k in View(parent, Abs())
    {
      if k in deletes {
        return false;
      }
      if k in writes {
        return true;
      }
      return k in parent;
    }

    method Clear()
      modifies this
      ensures Valid() && Abs() == CLEAN
    {
      writes, deletes, memoryUsage := map[], {}, 0;
    }

    /** Never negative, so the reported usage is the exact one. */
    method GetMemoryUsage() returns (r: int)
      requires Valid()
      ensures r == KeyTotal(deletes) + WriteTotal(writes)
    {
      r := if memoryUsage < 0 then 0 else memoryUsage;
    }

    /** Hands everything to the parent transaction. Seen through it, any store then looks as it did through both. */
    method Commit(target: Transaction)
      requires Valid() && target.Valid() && target != this
      modifies this, target
      ensures Valid() && target.Valid() && Abs() == CLEAN
      ensures forall store :: View(store, target.Abs()) == View(View(store, old(target.Abs())), old(Abs()))
    {
      hide LayerOk, View, DbOverlay.Erase, DbOverlay.Write;
      ghost var t0, mine := target.Abs(), Abs();
      CommitStart(t0);
      var rest := deletes;
      while rest != {}
        invariant rest <= deletes && Abs() == mine && Valid() && target.Valid()
        invariant Committing(t0, target.Abs(), deletes - rest, map[])
        decreases |rest|
      {
        var k := First(rest);
        CommitErase(t0, target.Abs(), deletes - rest, k);
        OneDeleteLess(deletes, rest, k);
        target.Erase(k);
        rest := rest - {k};
      }
      AllDeletesDone(deletes, rest, writes);
      var left := writes.Keys;
      while left != {}
        invariant left <= writes.Keys && Abs() == mine && Valid() && target.Valid()
        invariant Committing(t0, target.Abs(), deletes, writes - left)
        decreases |left|
      {
        var k := First(left);
        CommitWrite(t0, target.Abs(), deletes, writes - left, k, writes[k]);
        OneWriteLess(writes, left, k);
        target.Write(k, writes[k]);
        left := left - {k};
      }
      AllWritesDone(writes, left);
      CommitEnd(t0, target.Abs(), mine);
      Clear();
    }

    /** Hands everything to a store, which then holds what the overlay showed. */
    method CommitToStore(store: map<Key, Value>) returns (r: map<Key, Value>)
      requires Valid()
      modifies this
      ensures Valid() && Abs() == CLEAN && r == View(store, old(Abs()))
    {
      hide LayerOk;
      r := store;
      StoreUntouched(store);
      var rest := deletes;
      while rest != {}
        invariant rest <= deletes && Abs() == old(Abs()) && r == store - (deletes - rest)
        decreases |rest|
      {
        var k := First(rest);
        OneDeleteLess(deletes, rest, k);
        StoreErase(store, deletes - rest, k);
        r := r - {k};
        rest := rest - {k};
      }
      AllDeletesDone(deletes, rest, writes);
      var left := writes.Keys;
      while left != {}
        invariant left <= writes.Keys && Abs() == old(Abs()) && r == (store - deletes) + (writes - left)
        decreases |left|
      {
        var k := First(left);
        StoreWrite(store - deletes, writes - left, k, writes[k]);
        r := r[k := writes[k]];
        OneWriteLess(writes, left, k);
        left := left - {k};
      }
      AllWritesDone(writes, left);
      Clear();
    }
  }

  /** Iterates over a transaction's overlay: one position in its writes, one in its parent. */
  class TransactionIterator {
    const parent: Db
    const layer: Layer
    var transactionIt: set<Key>
    var parentIt: Cursor
    var parentKey: Key
    var curIsParent: bool

    ghost function Overlay(): Db {
      Over(parent, layer)
    }

    ghost function Position(): Cursor
      reads this
    {
      Merging(parentIt, transactionIt, parentKey, curIsParent)
    }

    ghost predicate Ok()
      reads this
    {
      CursorOk(Overlay(), Position())
    }

    /** The keys still to come. */
    ghost function Ahead(): set<Key>
      requires Ok()
      reads this
    {
      Rest(Overlay(), Position())
    }

    constructor (parent: Db, layer: Layer)
      ensures Ok() && this.parent == parent && this.layer == layer && Ahead() == {}
    {
      this.parent, this.layer := parent, layer;
      transactionIt, parentIt, parentKey, curIsParent := {}, End(parent), [], false;
      new;
      CurrentIsFirst(parent, parentIt);
    }

    method SeekToFirst()
      modifies this
      ensures Ok() && Ahead() == Content(Overlay()).Keys
    {
      hide CursorOk;
      transactionIt := layer.writes.Keys;
      parentIt := DbCursor.SeekToFirst(parent);
      SkipDeletedAndOverwritten();
      DecideCur();
      SeenAll(Content(parent), layer);
    }

    method Seek(k: Key)
      modifies this
      ensures Ok() && Ahead() == From(Content(Overlay()).Keys, k)
    {
      hide CursorOk;
      transactionIt := From(layer.writes.Keys, k);
      parentIt := DbCursor.Seek(parent, k);
      SkipDeletedAndOverwritten();
      DecideCur();
      SeenFrom(Content(parent), layer, k);
    }

    method IsValid() returns (r: bool)
      requires Ok()
      ensures r <==> Ahead() != {}
    {
      CurrentIsFirst(Overlay(), Position());
      r := transactionIt != {} || Valid(parentIt);
    }

    /** The smallest key still to come, or the empty one. */
    method GetCurrentKey() returns (k: Key)
      requires Ok()
      ensures if Ahead() != {} then IsFirst(k, Ahead()) else k == []
    {
      CurrentIsFirst(Overlay(), Position());
      var valid := IsValid();
      if !valid {
        return [];
      }
      if curIsParent {
        return parentKey;
      }
      return First(transactionIt);
    }

    /** The overlay's value under the current key. */
    method GetValue() returns (r: Option<Value>)
      requires Ok()
      ensures if Ahead() == {} then r == None
              else First(Ahead()) in Content(Overlay()) && r == Some(Content(Overlay())[First(Ahead())])
    {
      hide First, CursorOk;
      var valid := IsValid();
      if !valid {
        return None;
      }
      var k := GetCurrentKey();
      r := Lookup(View(Content(parent), layer), k);
      FirstUnique(Ahead(), First(Ahead()), k);
      RestWithin(Overlay(), Position());
    }

    /** One key further; nothing happens at the end. */
    method Next()
      requires Ok()
      modifies this
      ensures Ok() && Ahead() == old(if Ahead() == {} then {} else Ahead() - {First(Ahead())})
    {
      hide CursorOk, First;
      CurrentIsFirst(Overlay(), Position());
      OverParts(parent, layer, Position());
      CurrentIsFirst(parent, parentIt);
      if transactionIt == {} && !Valid(parentIt) {
        return;
      }
      FirstUnique(Ahead(), First(Ahead()), GetKey(Position()));
      if curIsParent {
        StepParent(layer, transactionIt, Rest(parent, parentIt), parentKey);
        parentIt := DbCursor.Next(parent, parentIt);
        SkipDeletedAndOverwritten();
      } else {
        StepAhead(layer, transactionIt, Rest(parent, parentIt), First(transactionIt));
        transactionIt := transactionIt - {First(transactionIt)};
      }
      DecideCur();
    }

    method SkipDeletedAndOverwritten()
      requires CursorOk(parent, parentIt)
      modifies this`parentIt, this`parentKey
      ensures CursorOk(parent, parentIt) && VisibleIn(layer, Rest(parent, parentIt)) == old(VisibleIn(layer, Rest(parent, parentIt)))
      ensures Valid(parentIt) ==> parentKey == GetKey(parentIt) && Visible(layer, parentKey)
    {
      hide Shaped;
      while Valid(parentIt)
        invariant CursorOk(parent, parentIt)
        invariant VisibleIn(layer, Rest(parent, parentIt)) == old(VisibleIn(layer, Rest(parent, parentIt)))
        decreases Rest(parent, parentIt)
      {
        CurrentIsFirst(parent, parentIt);
        parentKey := GetKey(parentIt);
        if parentKey !in layer.deletes && parentKey !in layer.writes {
          break;
        }
        parentIt := DbCursor.Next(parent, parentIt);
      }
    }

    method DecideCur()
      requires CursorOk(parent, parentIt) && transactionIt <= layer.writes.Keys
      requires Valid(parentIt) ==> parentKey == GetKey(parentIt) && Visible(layer, parentKey)
      modifies this`curIsParent
      ensures Ok()
    {
      hide First, Less;
      if transactionIt != {} && !Valid(parentIt) {
        curIsParent := false;
      } else if transactionIt == {} && Valid(parentIt) {
        curIsParent := true;
      } else if transactionIt != {} && Valid(parentIt) {
        curIsParent := !Less(First(transactionIt), parentKey);
      }
    }
  }

  lemma OverParts(parent: Db, layer: Layer, c: Cursor)
    requires c.Merging? && CursorOk(Over(parent, layer), c)
    ensures CursorOk(parent, c.parent) && c.ahead <= layer.writes.Keys && Settled(layer, c)
    ensures Rest(Over(parent, layer), c) == c.ahead + VisibleIn(layer, Rest(parent, c.parent))
  {
  }

  lemma OneDeleteLess(deletes: set<Key>, rest: set<Key>, k: Key)
    requires k in rest && rest <= deletes
    ensures deletes - rest + {k} == deletes - (rest - {k}) && |rest - {k}| < |rest|
  {
  }

  lemma AllDeletesDone(deletes: set<Key>, rest: set<Key>, writes: map<Key, Value>)
    requires rest == {}
    ensures deletes - rest == deletes && writes - writes.Keys == map[]
    ensures forall m: map<Key, Value> :: m + map[] == m
  {
  }

  lemma OneWriteLess(writes: map<Key, Value>, left: set<Key>, k: Key)
    requires k in left && left <= writes.Keys
    ensures (writes - left)[k := writes[k]] == writes - (left - {k}) && |left - {k}| < |left|
  {
  }

  lemma AllWritesDone(writes: map<Key, Value>, left: set<Key>)
    requires left == {}
    ensures writes - left == writes
  {
  }

  lemma StoreUntouched(store: map<Key, Value>)
    ensures forall s: set<Key> :: s == {} ==> store - s == store
  {
  }

  lemma StoreErase(store: map<Key, Value>, d: set<Key>, k: Key)
    ensures (store - d) - {k} == store - (d + {k})
  {
  }

  lemma StoreWrite(store: map<Key, Value>, w: map<Key, Value>, k: Key, v: Value)
    ensures (store + w)[k := v] == store + w[k := v]
  {
  }

  lemma CommitStart(t: Layer)
    requires LayerOk(t)
    ensures Committing(t, t, {}, map[])
  {
    hide LayerOk;
    forall parent ensures View(parent, t) == (View(parent, t) - {}) + map[] {}
  }

  lemma CommitEnd(t0: Layer, t: Layer, l: Layer)
    requires Committing(t0, t, l.deletes, l.writes)
    ensures forall store :: View(store, t) == View(View(store, t0), l)
  {
  }
}
