/** The stack of coin caches as an object: fetching, adding, spending, uncaching and flushing in place. */
module CoinsView {
  import opened Wrappers
  import opened Sets
  import opened Coins

  class CacheStack {
    var db: map<OutPoint, Coin>
    var layers: seq<Cache>

    ghost function Now(): Stack
      reads this
    {
      Stack(db, layers)
    }

    constructor (db: map<OutPoint, Coin>)
      requires forall o :: o in db ==> db[o] != Spent
      ensures Now() == Stack(db, []) && StackOk(Now())
    {
      this.db, layers := db, [];
    }

    /** The cache entry at level k, pulled up from below if need be. */
    method FetchCoin(k: nat, o: OutPoint) returns (found: bool, coin: Coin)
      requires k <= |layers|
      modifies this`layers
      ensures (found, Now()) == Fetch(old(Now()), k, o)
      ensures coin == View(Now(), k, o)
      decreases k
    {
      if k == 0 {
        return o in db, if o in db then db[o] else Spent;
      }
      if o in layers[k - 1] {
        return true, layers[k - 1][o].coin;
      }
      found, coin := FetchCoin(k - 1, o);
      assert layers[k - 1] == layers[k - 1..][0];
      if found {
        layers := layers[k - 1 := layers[k - 1][o := Entry(coin, false, coin.Spent?)]];
      }
    }

    method HaveCoin(o: OutPoint) returns (have: bool)
      requires StackOk(Now())
      modifies this`layers
      ensures have <==> View(old(Now()), |old(layers)|, o).Coin?
      ensures StackOk(Now()) && SameViews(old(Now()), Now())
    {
      FetchKeepsViews(Now(), |layers|, o);
      var found, coin := FetchCoin(|layers|, o);
      have := found && coin.Coin?;
    }

    /** False stands for the exception that refuses to replace an unspent coin. */
    method AddCoinToTop(o: OutPoint, coin: Coin, possibleOverwrite: bool) returns (ok: bool)
      requires layers != [] && coin.Coin?
      modifies this`layers
      ensures ok <==> AddCoin(old(Now()), o, coin, possibleOverwrite).Ok?
      ensures Now() == if ok then AddCoin(old(Now()), o, coin, possibleOverwrite).value else old(Now())
    {
      if coin.unspendable {
        return true;
      }
      var n := |layers| - 1;
      var e := if o in layers[n] then layers[n][o] else Entry(Spent, false, false);
      var setFresh := false;
      if !possibleOverwrite {
        if !e.coin.Spent? {
          return false;
        }
        setFresh := !e.isDirty;
      }
      layers := layers[n := layers[n][o := Entry(coin, true, e.isFresh || setFresh)]];
      return true;
    }

    /** Removes the coin from the top view and hands it out. */
    method SpendCoinOnTop(o: OutPoint) returns (moveout: Coin)
      requires layers != [] && StackOk(Now())
      modifies this`layers
      ensures Now() == SpendCoin(old(Now()), o) && StackOk(Now())
      ensures moveout == View(old(Now()), |old(layers)|, o)
    {
      var n := |layers|;
      SpendCoinRefines(Now(), o);
      FetchKeepsViews(Now(), n, o);
      var found, coin := FetchCoin(n, o);
      moveout := coin;
      if found && o in layers[n - 1] {
        if layers[n - 1][o].isFresh {
          layers := layers[n - 1 := layers[n - 1] - {o}];
        } else {
          layers := layers[n - 1 := layers[n - 1][o := Entry(Spent, true, false)]];
        }
      }
    }

    method UncacheAt(k: nat, o: OutPoint)
      requires k < |layers|
      modifies this`layers
      ensures Now() == Uncache(old(Now()), k, o)
    {
      if o in layers[k] && !layers[k][o].isDirty && !layers[k][o].isFresh {
        layers := layers[k := layers[k] - {o}];
      }
    }

    /** Writes a child's entries into cache k, in whatever order the hash table yields them; false stands
        for the FRESH-misapplied exception, which leaves the entries written before it in place. */
    method BatchWriteCache(k: nat, child: Cache) returns (ok: bool)
      requires k < |layers|
      modifies this`layers
      ensures ok <==> !FreshMisapplied(old(layers)[k], child)
      ensures |layers| == |old(layers)| && layers == old(layers)[k := layers[k]]
      ensures ok ==> WrittenTo(old(layers)[k], child, layers[k])
      ensures !ok ==> exists rest :: rest <= child.Keys && WrittenExcept(old(layers)[k], child, rest, layers[k])
    {
      var us := layers[k];
      var rest := child.Keys;
      while rest != {}
        invariant rest <= child.Keys && layers == old(layers)
        invariant WrittenExcept(layers[k], child, rest, us)
        invariant forall o :: o in child.Keys - rest ==> !Misapplied(layers[k], child, o)
        decreases |rest|
      {
        var o := PickAny(rest);
        var e := child[o];
        if e.isDirty {
          assert At(us, o) == At(layers[k], o);
          if o !in us {
            if !(e.isFresh && e.coin.Spent?) {
              us := us[o := Entry(e.coin, true, e.isFresh)];
            }
          } else {
            if e.isFresh && !us[o].coin.Spent? {
              layers := layers[k := us];
              return false;
            }
            if us[o].isFresh && e.coin.Spent? {
              us := us - {o};
            } else {
              us := us[o := Entry(e.coin, true, us[o].isFresh)];
            }
          }
        }
        rest := rest - {o};
      }
      assert child.Keys - rest == child.Keys;
      layers := layers[k := us];
      return true;
    }

    /** Writes a child's entries into the database. */
    method BatchWriteDb(child: Cache)
      modifies this`db
      ensures WrittenToDb(old(db), child, db)
    {
      var rest := child.Keys;
      while rest != {}
        invariant rest <= child.Keys
        invariant WrittenToDbExcept(old(db), child, rest, db)
        decreases |rest|
      {
        var o := PickAny(rest);
        if child[o].isDirty {
          if child[o].coin.Spent? {
            db := db - {o};
          } else {
            db := db[o := child[o].coin];
          }
        }
        rest := rest - {o};
      }
    }

    /** Pushes the top cache down one level and empties it. With truthful flags it always succeeds, and
        what the top shows does not change. */
    method Flush() returns (ok: bool)
      requires layers != [] && StackOk(Now())
      modifies this
      ensures ok && Flushed(old(Now()), Now()) && StackOk(Now())
      ensures |layers| == |old(layers)|
      ensures forall o :: View(Now(), |layers|, o) == View(old(Now()), |layers|, o)
                       && View(Now(), |layers| - 1, o) == View(old(Now()), |layers|, o)
    {
      hide StackOk, WrittenTo, WrittenToDb;
      var n := |layers|;
      if n == 1 {
        BatchWriteDb(layers[0]);
        ok := true;
      } else {
        FlushNeverThrows(Now());
        ok := BatchWriteCache(n - 2, layers[n - 1]);
      }
      layers := layers[n - 1 := map[]];
      FlushRefines(old(Now()), Now());
    }

    /** A new, empty cache on top shows what it sits on, and changes no view below it. */
    method PushLayer()
      requires StackOk(Now())
      modifies this`layers
      ensures layers == old(layers) + [map[]] && StackOk(Now())
      ensures forall o :: View(Now(), |layers|, o) == View(old(Now()), |old(layers)|, o)
      ensures forall k, o :: 0 <= k <= |old(layers)| ==> View(Now(), k, o) == View(old(Now()), k, o)
    {
      layers := layers + [map[]];
      forall k, o | 0 <= k <= |old(layers)| ensures View(Now(), k, o) == View(old(Now()), k, o) {
        ViewSame(old(Now()), Now(), k, o);
      }
      forall k | 0 <= k < |layers| ensures LayerOk(Now(), k) {
        if k < |old(layers)| { assert LayerOk(old(Now()), k); }
      }
    }
  }

  /** The write-back half done: the entries in `rest` are still to come. */
  ghost predicate WrittenExcept(parent: Cache, child: Cache, rest: set<OutPoint>, after: Cache) {
    forall o :: At(after, o) == if o in child && o !in rest && child[o].isDirty then Written(At(parent, o), child[o]) else At(parent, o)
  }

  ghost predicate WrittenToDbExcept(before: map<OutPoint, Coin>, child: Cache, rest: set<OutPoint>, after: map<OutPoint, Coin>) {
    forall o :: At(after, o) == if o in child && o !in rest && child[o].isDirty
                                then (if child[o].coin.Spent? then None else Some(child[o].coin)) else At(before, o)
  }
}
