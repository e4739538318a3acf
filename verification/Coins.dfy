/** The UTXO cache stack: write-back caches with DIRTY and FRESH flags layered over the coin database,
    and the flat outpoint-to-coin maps they stand for.
 */
module Coins {
  import opened Wrappers

  datatype OutPoint = OutPoint(hash: nat, n: nat)

  /** A spent (pruned) coin is the null output. */
  datatype Coin = Spent | Coin(value: nat, unspendable: bool, fCoinBase: bool, nHeight: nat)

  datatype Entry = Entry(coin: Coin, isDirty: bool, isFresh: bool)

  type Cache = map<OutPoint, Entry>

  /** layers[0] sits on the database; the last layer is the top. */
  datatype Stack = Stack(db: map<OutPoint, Coin>, layers: seq<Cache>)

  datatype Result<T> = Ok(value: T) | Throw

  // ---------------------------------------------------------------------------------------------
  // What a level of the stack shows

  /** The coin visible at outpoint o with the lowest k layers in place; level 0 is the database. */
  function View(s: Stack, k: nat, o: OutPoint): Coin
    requires k <= |s.layers|
  {
    if k == 0 then if o in s.db then s.db[o] else Spent
    else if o in s.layers[k - 1] then s.layers[k - 1][o].coin
    else View(s, k - 1, o)
  }

  /** FRESH: no unspent coin below. Not DIRTY: the same as below. */
  ghost predicate EntryOk(e: Entry, below: Coin) {
    (e.isFresh ==> below.Spent?) && (!e.isDirty ==> e.coin == below)
  }

  ghost predicate LayerOk(s: Stack, k: nat)
    requires k < |s.layers|
  {
    forall o :: o in s.layers[k] ==> EntryOk(s.layers[k][o], View(s, k, o))
  }

  ghost predicate StackOk(s: Stack) {
    && (forall o :: o in s.db ==> s.db[o] != Spent)
    && (forall k :: 0 <= k < |s.layers| ==> LayerOk(s, k))
  }

  // ---------------------------------------------------------------------------------------------
  // Operations

  /** GetCoin at level k: a hit in the cache, or a copy pulled up from below (and into every layer on
      the way). True even for a spent coin some layer below remembers. */
  function Fetch(s: Stack, k: nat, o: OutPoint): (r: (bool, Stack))
    requires k <= |s.layers|
    ensures r.1.db == s.db && |r.1.layers| == |s.layers| && r.1.layers[k..] == s.layers[k..]
    decreases k
  {
    if k == 0 then (o in s.db, s)
    else if o in s.layers[k - 1] then (true, s)
    else
      var (found, s') := Fetch(s, k - 1, o);
      if found then
        var coin := View(s', k - 1, o);
        (true, s'.(layers := s'.layers[k - 1 := s'.layers[k - 1][o := Entry(coin, false, coin.Spent?)]]))
      else (false, s')
  }

  function Top(s: Stack): Cache
    requires s.layers != []
  {
    s.layers[|s.layers| - 1]
  }

  function WithTop(s: Stack, c: Cache): Stack
    requires s.layers != []
  {
    s.(layers := s.layers[|s.layers| - 1 := c])
  }

  function AddCoin(s: Stack, o: OutPoint, coin: Coin, possibleOverwrite: bool): Result<Stack>
    requires s.layers != [] && coin.Coin?
  {
    if coin.unspendable then Ok(s)
    else
      var e := if o in Top(s) then Top(s)[o] else Entry(Spent, false, false);
      if !possibleOverwrite && !e.coin.Spent? then Throw
      else Ok(WithTop(s, Top(s)[o := Entry(coin, true, e.isFresh || (!possibleOverwrite && !e.isDirty))]))
  }

  function SpendCoin(s: Stack, o: OutPoint): Stack
    requires s.layers != []
  {
    var n := |s.layers|;
    var (found, s') := Fetch(s, n, o);
    if !found || o !in Top(s') then s'
    else if Top(s')[o].isFresh then WithTop(s', Top(s') - {o})
    else WithTop(s', Top(s')[o := Entry(Spent, true, false)])
  }

  function Uncache(s: Stack, k: nat, o: OutPoint): Stack
    requires k < |s.layers|
  {
    if o in s.layers[k] && !s.layers[k][o].isDirty && !s.layers[k][o].isFresh
    then s.(layers := s.layers[k := s.layers[k] - {o}]) else s
  }

  /** One child entry arriving at the parent cache: what becomes of the parent's entry. */
  function Written(parent: Option<Entry>, child: Entry): Option<Entry> {
    match parent
    case None => if child.isFresh && child.coin.Spent? then None else Some(Entry(child.coin, true, child.isFresh))
    case Some(p) => if p.isFresh && child.coin.Spent? then None else Some(Entry(child.coin, true, p.isFresh))
  }

  function At<T>(m: map<OutPoint, T>, o: OutPoint): Option<T> {
    if o in m then Some(m[o]) else None
  }

  /** The "FRESH flag misapplied" error. */
  ghost predicate FreshMisapplied(parent: Cache, child: Cache) {
    exists o :: o in child && Misapplied(parent, child, o)
  }

  ghost predicate Misapplied(parent: Cache, child: Cache, o: OutPoint)
    requires o in child
  {
    child[o].isDirty && o in parent && child[o].isFresh && !parent[o].coin.Spent?
  }

  ghost predicate WrittenTo(parent: Cache, child: Cache, after: Cache) {
    forall o :: At(after, o) == if o in child && child[o].isDirty then Written(At(parent, o), child[o]) else At(parent, o)
  }

  ghost predicate WrittenToDb(db: map<OutPoint, Coin>, child: Cache, after: map<OutPoint, Coin>) {
    forall o :: At(after, o) ==
      if o in child && child[o].isDirty then (if child[o].coin.Spent? then None else Some(child[o].coin)) else At(db, o)
  }

  /** Flush: the top cache is written to what it sits on, then emptied. */
  ghost predicate Flushed(s: Stack, r: Stack)
    requires s.layers != []
  {
    var n := |s.layers|;
    && |r.layers| == n && r.layers[n - 1] == map[]
    && (if n == 1 then WrittenToDb(s.db, Top(s), r.db)
        else r.db == s.db && WrittenTo(s.layers[n - 2], Top(s), r.layers[n - 2]))
    && (forall k :: 0 <= k < n - 2 ==> r.layers[k] == s.layers[k])
  }

  // ---------------------------------------------------------------------------------------------
  // Views under change of one layer

  lemma {:induction false} ViewSame(s: Stack, r: Stack, k: nat, o: OutPoint)
    requires k <= |s.layers| && k <= |r.layers| && At(s.db, o) == At(r.db, o)
    requires forall i :: 0 <= i < k ==> At(s.layers[i], o) == At(r.layers[i], o)
    ensures View(s, k, o) == View(r, k, o)
  {
    if k > 0 { ViewSame(s, r, k - 1, o); }
  }

  /** Replacing layer j's entry at o so that level j + 1 shows the same leaves every view as it was. */
  lemma {:induction false} ViewAbove(s: Stack, r: Stack, j: nat, k: nat, o: OutPoint)
    requires j < k <= |s.layers| == |r.layers|
    requires View(s, j + 1, o) == View(r, j + 1, o)
    requires forall i :: j < i < k ==> At(s.layers[i], o) == At(r.layers[i], o)
    ensures View(s, k, o) == View(r, k, o)
    decreases k
  {
    if k > j + 1 { ViewAbove(s, r, j, k - 1, o); }
  }

  /** Fetching fills caches but changes no view, and keeps every flag truthful. */
  lemma {:induction false} FetchKeepsViews(s: Stack, k: nat, o: OutPoint)
    requires StackOk(s) && k <= |s.layers|
    ensures var (found, r) := Fetch(s, k, o);
            && r.db == s.db && |r.layers| == |s.layers|
            && (forall j, p :: 0 <= j <= |s.layers| ==> View(r, j, p) == View(s, j, p))
            && StackOk(r)
            && (!found ==> View(s, k, o).Spent?)
            && (found && k > 0 ==> o in r.layers[k - 1])
    decreases k
  {
    if k > 0 && o !in s.layers[k - 1] {
      FetchKeepsViews(s, k - 1, o);
      var (found, m) := Fetch(s, k - 1, o);
      assert m.layers[k - 1] == m.layers[k - 1..][0] == s.layers[k - 1];
      if found {
        var coin := View(m, k - 1, o);
        InsertKeepsViews(m, k - 1, o, Entry(coin, false, coin.Spent?));
      }
    }
  }

  lemma InsertKeepsViews(s: Stack, k: nat, o: OutPoint, e: Entry)
    requires StackOk(s) && k < |s.layers| && e.coin == View(s, k + 1, o) && EntryOk(e, View(s, k, o))
    ensures var r := s.(layers := s.layers[k := s.layers[k][o := e]]);
            && (forall j, p :: 0 <= j <= |s.layers| ==> View(r, j, p) == View(s, j, p))
            && StackOk(r)
  {
    var r := s.(layers := s.layers[k := s.layers[k][o := e]]);
    ChangeOneEntry(s, r, k, o);
    forall j | 0 <= j < |r.layers| ensures LayerOk(r, j) {
      assert LayerOk(s, j);
    }
  }

  /** A change confined to o in layer k that keeps level k + 1's view keeps all views. */
  lemma ChangeOneEntry(s: Stack, r: Stack, k: nat, o: OutPoint)
    requires r.db == s.db && |r.layers| == |s.layers| && k < |s.layers|
    requires forall i :: 0 <= i < |s.layers| && i != k ==> r.layers[i] == s.layers[i]
    requires forall p :: p != o ==> At(r.layers[k], p) == At(s.layers[k], p)
    requires View(r, k + 1, o) == View(s, k + 1, o)
    ensures forall j, p :: 0 <= j <= |s.layers| ==> View(r, j, p) == View(s, j, p)
  {
    forall j, p | 0 <= j <= |s.layers| ensures View(r, j, p) == View(s, j, p) {
      if p == o && j > k {
        ViewAbove(s, r, k, j, o);
      } else {
        ViewSame(s, r, j, p);
      }
    }
  }

  // ---------------------------------------------------------------------------------------------
  // Each operation against the flat maps

  /** Only the top layer changed. */
  ghost predicate TopOnly(s: Stack, r: Stack) {
    s.layers != [] && r.db == s.db && |r.layers| == |s.layers| && forall i :: 0 <= i < |s.layers| - 1 ==> r.layers[i] == s.layers[i]
  }

  lemma TopOnlyKeeps(s: Stack, r: Stack)
    requires StackOk(s) && TopOnly(s, r)
    ensures forall k, o :: 0 <= k < |s.layers| ==> View(r, k, o) == View(s, k, o)
    ensures forall k :: 0 <= k < |s.layers| - 1 ==> LayerOk(r, k)
  {
    forall k, o | 0 <= k < |s.layers| ensures View(r, k, o) == View(s, k, o) {
      ViewSame(s, r, k, o);
    }
    forall k | 0 <= k < |s.layers| - 1 ensures LayerOk(r, k) {
      assert LayerOk(s, k);
    }
  }

  /** Views of r are those of s except that the top shows coin c at o. */
  ghost predicate TopShows(s: Stack, r: Stack, o: OutPoint, c: Coin) {
    && |r.layers| == |s.layers|
    && (forall k, p :: 0 <= k < |s.layers| ==> View(r, k, p) == View(s, k, p))
    && (forall p :: View(r, |s.layers|, p) == if p == o then c else View(s, |s.layers|, p))
  }

  /** A new top entry for o: its coin shows, nothing else moves, and the flags stay truthful if this one's are. */
  lemma SetTopEntry(s: Stack, o: OutPoint, e: Entry)
    requires StackOk(s) && s.layers != []
    ensures var r := WithTop(s, Top(s)[o := e]);
            TopShows(s, r, o, e.coin) && (StackOk(r) <==> EntryOk(e, View(s, |s.layers| - 1, o)))
  {
    var n := |s.layers|;
    var r := WithTop(s, Top(s)[o := e]);
    TopOnlyKeeps(s, r);
    assert LayerOk(s, n - 1);
    if EntryOk(e, View(s, n - 1, o)) {
      assert LayerOk(r, n - 1);
    }
    if StackOk(r) {
      assert LayerOk(r, n - 1);
      assert o in r.layers[n - 1];
    }
  }

  lemma DropTopEntry(s: Stack, o: OutPoint)
    requires StackOk(s) && s.layers != []
    ensures var r := WithTop(s, Top(s) - {o});
            TopShows(s, r, o, View(s, |s.layers| - 1, o)) && StackOk(r)
  {
    var n := |s.layers|;
    var r := WithTop(s, Top(s) - {o});
    TopOnlyKeeps(s, r);
    assert LayerOk(s, n - 1);
    assert LayerOk(r, n - 1);
  }

  /** AddCoin puts the coin into the top view. Without the overwrite flag it refuses exactly when the top cache
      itself holds an unspent coin; otherwise the flags stay truthful exactly when the view had no coin there. */
  lemma AddCoinRefines(s: Stack, o: OutPoint, coin: Coin, possibleOverwrite: bool)
    requires StackOk(s) && s.layers != [] && coin.Coin? && !coin.unspendable
    ensures AddCoin(s, o, coin, possibleOverwrite).Throw? <==> !possibleOverwrite && View(s, |s.layers|, o).Coin? && o in Top(s)
    ensures match AddCoin(s, o, coin, possibleOverwrite)
            case Throw => true
            case Ok(r) => TopShows(s, r, o, coin) && (StackOk(r) <==> possibleOverwrite || View(s, |s.layers|, o).Spent?)
  {
    assert LayerOk(s, |s.layers| - 1);
    var e := if o in Top(s) then Top(s)[o] else Entry(Spent, false, false);
    SetTopEntry(s, o, Entry(coin, true, e.isFresh || (!possibleOverwrite && !e.isDirty)));
  }

  /** A coin the top cache has not seen: replacing it goes undetected, and spending the replacement makes the
      replaced coin show again. */
  lemma ReplacedCoinReturns(o: OutPoint, kept: Coin, coin: Coin)
    requires kept.Coin? && coin.Coin? && !coin.unspendable
    ensures var s := Stack(map[o := kept], [map[]]);
            StackOk(s) && View(s, 1, o) == kept && AddCoin(s, o, coin, false).Ok?
    ensures var r := AddCoin(Stack(map[o := kept], [map[]]), o, coin, false).value;
            !StackOk(r) && View(r, 1, o) == coin && View(SpendCoin(r, o), 1, o) == kept
  {
    var s := Stack(map[o := kept], [map[]]);
    AddCoinRefines(s, o, coin, false);
  }

  /** SpendCoin removes the coin from the top view, whether or not there was one. */
  lemma SpendCoinRefines(s: Stack, o: OutPoint)
    requires StackOk(s) && s.layers != []
    ensures TopShows(s, SpendCoin(s, o), o, Spent) && StackOk(SpendCoin(s, o))
  {
    var n := |s.layers|;
    FetchKeepsViews(s, n, o);
    var (found, m) := Fetch(s, n, o);
    if found {
      assert LayerOk(m, n - 1);
      if Top(m)[o].isFresh {
        DropTopEntry(m, o);
      } else {
        SetTopEntry(m, o, Entry(Spent, true, false));
      }
    }
  }

  /** Uncache drops only entries that add nothing: no view changes. */
  lemma UncacheKeepsViews(s: Stack, k: nat, o: OutPoint)
    requires StackOk(s) && k < |s.layers|
    ensures var r := Uncache(s, k, o);
            && |r.layers| == |s.layers|
            && (forall j, p :: 0 <= j <= |s.layers| ==> View(r, j, p) == View(s, j, p))
            && StackOk(r)
  {
    var r := Uncache(s, k, o);
    if r != s {
      assert LayerOk(s, k);
      ViewSame(s, r, k, o);
      ChangeOneEntry(s, r, k, o);
      forall j | 0 <= j < |r.layers| ensures LayerOk(r, j) {
        assert LayerOk(s, j);
      }
    }
  }

  /** The FRESH-misapplied error cannot occur when flushing. */
  lemma FlushNeverThrows(s: Stack)
    requires StackOk(s) && |s.layers| >= 2
    ensures !FreshMisapplied(s.layers[|s.layers| - 2], Top(s))
  {
    var n := |s.layers|;
    assert LayerOk(s, n - 1);
    var parent, child := s.layers[n - 2], Top(s);
    forall o | o in child && o in parent && child[o].isFresh ensures parent[o].coin.Spent? {
      assert View(s, n - 1, o) == parent[o].coin;
    }
  }

  /** After the write-back, the level below shows what the top showed. */
  lemma WrittenShows(parent: Cache, child: Entry, below: Coin, o: OutPoint)
    requires o in parent ==> EntryOk(parent[o], below)
    requires EntryOk(child, if o in parent then parent[o].coin else below)
    ensures match Written(At(parent, o), child)
            case None => child.coin == below
            case Some(e) => e.coin == child.coin && EntryOk(e, below)
  {
  }

  lemma FlushShows(s: Stack, r: Stack, o: OutPoint)
    requires StackOk(s) && s.layers != [] && Flushed(s, r)
    ensures var n := |s.layers|;
            && (n == 1 ==> View(r, 0, o) == View(s, 1, o))
            && (n >= 2 ==> View(r, n - 1, o) == View(s, n, o) && View(r, n - 2, o) == View(s, n - 2, o)
                           && (o in r.layers[n - 2] ==> EntryOk(r.layers[n - 2][o], View(s, n - 2, o))))
  {
    var n := |s.layers|;
    assert LayerOk(s, n - 1);
    if n >= 2 {
      assert LayerOk(s, n - 2);
      ViewSame(s, r, n - 2, o);
      var parent := s.layers[n - 2];
      assert At(r.layers[n - 2], o) ==
        if o in Top(s) && Top(s)[o].isDirty then Written(At(parent, o), Top(s)[o]) else At(parent, o);
      if o in Top(s) {
        WrittenShows(parent, Top(s)[o], View(s, n - 2, o), o);
      }
    } else {
      assert At(r.db, o) ==
        if o in Top(s) && Top(s)[o].isDirty then (if Top(s)[o].coin.Spent? then None else Some(Top(s)[o].coin)) else At(s.db, o);
    }
  }

  /** Flush moves the top view one level down, leaves the top view and everything further down as it
      was, and keeps every flag truthful. */
  lemma FlushRefines(s: Stack, r: Stack)
    requires StackOk(s) && s.layers != [] && Flushed(s, r)
    ensures var n := |s.layers|;
            && (forall o :: View(r, n, o) == View(s, n, o) && View(r, n - 1, o) == View(s, n, o))
            && (forall k, o :: 0 <= k < n - 1 ==> View(r, k, o) == View(s, k, o))
            && StackOk(r)
  {
    var n := |s.layers|;
    forall o ensures View(r, n, o) == View(s, n, o) && View(r, n - 1, o) == View(s, n, o) {
      FlushShows(s, r, o);
    }
    forall k, o | 0 <= k < n - 1 ensures View(r, k, o) == View(s, k, o) {
      ViewSame(s, r, k, o);
    }
    forall k | 0 <= k < n ensures LayerOk(r, k) {
      if k == n - 2 {
        forall o | o in r.layers[k] ensures EntryOk(r.layers[k][o], View(r, k, o)) { FlushShows(s, r, o); }
      } else if k < n - 2 {
        assert LayerOk(s, k);
      }
    }
    forall o | o in r.db ensures r.db[o] != Spent {
      if n == 1 { assert At(r.db, o) == Some(r.db[o]); }
    }
  }

  // ---------------------------------------------------------------------------------------------
  // Runs of operations against a stack of flat maps

  datatype Op =
    | Get(o: OutPoint)
    | Add(o: OutPoint, coin: Coin, possibleOverwrite: bool)
    | Spend(o: OutPoint)
    | Forget(o: OutPoint)      // Uncache on the top cache
    | Flush
    | Push                     // a new cache on top
    | Discard                  // the top cache is dropped unflushed

  type Flat = map<OutPoint, Coin>

  function Shown(flat: Flat, o: OutPoint): Coin {
    if o in flat then flat[o] else Spent
  }

  /** flats[k] holds exactly the unspent coins level k shows. */
  ghost predicate Refines(s: Stack, flats: seq<Flat>) {
    && |flats| == |s.layers| + 1
    && (forall k, o :: 0 <= k <= |s.layers| ==>
          View(s, k, o) == Shown(flats[k], o))
    && (forall k, o :: 0 <= k < |flats| && o in flats[k] ==> flats[k][o].Coin?)
  }

  /** The callers' side of the contract: a new coin is unspent, and one added without the overwrite flag
      is not already there. */
  predicate Admissible(flats: seq<Flat>, op: Op) {
    && (!op.Push? ==> |flats| >= 2) && |flats| >= 1
    && (op.Add? ==> op.coin.Coin? && (op.possibleOverwrite || op.o !in flats[|flats| - 1]))
  }

  function Abstract(flats: seq<Flat>, op: Op): seq<Flat>
    requires Admissible(flats, op)
  {
    var t := |flats| - 1;
    match op
    case Get(_) => flats
    case Add(o, coin, _) => if coin.Coin? && coin.unspendable then flats else flats[t := flats[t][o := coin]]
    case Spend(o) => flats[t := flats[t] - {o}]
    case Forget(_) => flats
    case Flush => flats[t - 1 := flats[t]]
    case Push => flats + [flats[t]]
    case Discard => flats[..t]
  }

  ghost predicate Throws(s: Stack, op: Op)
    requires op.Push? || s.layers != []
  {
    match op
    case Add(o, coin, overwrite) => coin.Coin? && AddCoin(s, o, coin, overwrite) == Throw
    case Flush => |s.layers| >= 2 && FreshMisapplied(s.layers[|s.layers| - 2], Top(s))
    case _ => false
  }

  ghost predicate StepTo(s: Stack, op: Op, r: Stack)
    requires op.Push? || s.layers != []
  {
    match op
    case Get(o) => r == Fetch(s, |s.layers|, o).1
    case Add(o, coin, overwrite) => coin.Coin? && AddCoin(s, o, coin, overwrite) == Ok(r)
    case Spend(o) => r == SpendCoin(s, o)
    case Forget(o) => r == Uncache(s, |s.layers| - 1, o)
    case Flush => Flushed(s, r)
    case Push => r == s.(layers := s.layers + [map[]])
    case Discard => r == s.(layers := s.layers[..|s.layers| - 1])
  }

  ghost predicate SameViews(s: Stack, r: Stack) {
    |r.layers| == |s.layers| && forall k, o :: 0 <= k <= |s.layers| ==> View(r, k, o) == View(s, k, o)
  }

  lemma SameViewsRefine(s: Stack, r: Stack, flats: seq<Flat>)
    requires Refines(s, flats) && SameViews(s, r)
    ensures Refines(r, flats)
  {
  }

  lemma TopShowsRefines(s: Stack, r: Stack, flats: seq<Flat>, o: OutPoint, c: Coin)
    requires Refines(s, flats) && s.layers != [] && TopShows(s, r, o, c)
    ensures var t := |flats| - 1; Refines(r, flats[t := if c.Spent? then flats[t] - {o} else flats[t][o := c]])
  {
    var t := |flats| - 1;
    var after: seq<Flat> := flats[t := if c.Spent? then flats[t] - {o} else flats[t][o := c]];
    forall k, p | 0 <= k <= |r.layers|
      ensures View(r, k, p) == Shown(after[k], p)
    {
      assert View(s, k, p) == Shown(flats[k], p);
      if k < t { assert View(r, k, p) == View(s, k, p); } else { assert View(r, |s.layers|, p) == if p == o then c else View(s, |s.layers|, p); }
    }
  }

  lemma PushRefines(s: Stack, flats: seq<Flat>)
    requires StackOk(s) && Refines(s, flats)
    ensures var r := s.(layers := s.layers + [map[]]); StackOk(r) && Refines(r, flats + [flats[|flats| - 1]])
  {
    var n := |s.layers|;
    var r := s.(layers := s.layers + [map[]]);
    forall k, o | 0 <= k <= n ensures View(r, k, o) == View(s, k, o) { ViewSame(s, r, k, o); }
    forall k | 0 <= k < |r.layers| ensures LayerOk(r, k) { if k < n { assert LayerOk(s, k); } }
    forall o ensures View(r, n + 1, o) == View(s, n, o) {}
  }

  lemma DiscardRefines(s: Stack, flats: seq<Flat>)
    requires StackOk(s) && s.layers != [] && Refines(s, flats)
    ensures var r := s.(layers := s.layers[..|s.layers| - 1]); StackOk(r) && Refines(r, flats[..|flats| - 1])
  {
    var n := |s.layers| - 1;
    var r := s.(layers := s.layers[..n]);
    forall k, o | 0 <= k <= n ensures View(r, k, o) == View(s, k, o) { ViewSame(s, r, k, o); }
    forall k | 0 <= k < n ensures LayerOk(r, k) { assert LayerOk(s, k); }
  }

  lemma FlushStepRefines(s: Stack, r: Stack, flats: seq<Flat>)
    requires StackOk(s) && s.layers != [] && Refines(s, flats) && Flushed(s, r)
    ensures StackOk(r) && Refines(r, flats[|flats| - 2 := flats[|flats| - 1]])
  {
    FlushRefines(s, r);
    var n := |s.layers|;
    var after: seq<Flat> := flats[n - 1 := flats[n]];
    forall k, o | 0 <= k <= n
      ensures View(r, k, o) == Shown(after[k], o)
    {
      assert View(s, n, o) == Shown(flats[n], o);
      assert View(s, k, o) == Shown(flats[k], o);
    }
  }

  /** One operation: it does not throw, keeps the flags truthful, and does to the views exactly what the
      flat maps say. */
  lemma StepRefines(s: Stack, flats: seq<Flat>, op: Op)
    requires StackOk(s) && Refines(s, flats) && Admissible(flats, op)
    ensures !Throws(s, op)
    ensures forall r :: StepTo(s, op, r) ==> StackOk(r) && Refines(r, Abstract(flats, op))
  {
    hide StackOk, Refines, TopShows, Flushed;
    var n := |s.layers|;
    LevelsMatch(s, flats);
    forall r | StepTo(s, op, r) ensures StackOk(r) && Refines(r, Abstract(flats, op)) {
      match op {
        case Get(o) => FetchKeepsViews(s, n, o); SameViewsRefine(s, r, flats);
        case Add(o, coin, overwrite) =>
          if !coin.unspendable {
            TopMatches(s, flats, o);
            AddCoinRefines(s, o, coin, overwrite);
            TopShowsRefines(s, r, flats, o, coin);
          }
        case Spend(o) => SpendCoinRefines(s, o); TopShowsRefines(s, r, flats, o, Spent);
        case Forget(o) => UncacheKeepsViews(s, n - 1, o); SameViewsRefine(s, r, flats);
        case Flush => FlushStepRefines(s, r, flats);
        case Push => PushRefines(s, flats);
        case Discard => DiscardRefines(s, flats);
      }
    }
    if op.Add? && !op.coin.unspendable {
      TopMatches(s, flats, op.o);
      AddCoinRefines(s, op.o, op.coin, op.possibleOverwrite);
    } else if op.Flush? && n >= 2 {
      FlushNeverThrows(s);
    }
  }

  lemma LevelsMatch(s: Stack, flats: seq<Flat>)
    requires Refines(s, flats)
    ensures |flats| == |s.layers| + 1
  {
  }

  lemma TopMatches(s: Stack, flats: seq<Flat>, o: OutPoint)
    requires Refines(s, flats)
    ensures |flats| == |s.layers| + 1 && (o in flats[|flats| - 1] <==> View(s, |s.layers|, o).Coin?)
  {
    var t := |s.layers|;
    assert View(s, t, o) == Shown(flats[t], o);
    if o in flats[t] { assert flats[t][o].Coin?; }
  }

  /** The flat stack after a run of admissible operations. */
  ghost predicate AdmissibleRun(flats: seq<Flat>, ops: seq<Op>)
    decreases |ops|
  {
    ops == [] || (Admissible(flats, ops[0]) && AdmissibleRun(Abstract(flats, ops[0]), ops[1..]))
  }

  ghost function AbstractRun(flats: seq<Flat>, ops: seq<Op>): seq<Flat>
    requires AdmissibleRun(flats, ops)
    decreases |ops|
  {
    if ops == [] then flats else AbstractRun(Abstract(flats, ops[0]), ops[1..])
  }

  /** The cache stacks a run passes through. */
  ghost predicate RunsThrough(s: Stack, ops: seq<Op>, trace: seq<Stack>)
    decreases |ops|
  {
    |trace| == |ops| + 1 && trace[0] == s &&
    (ops == [] || ((ops[0].Push? || s.layers != []) && StepTo(s, ops[0], trace[1]) && RunsThrough(trace[1], ops[1..], trace[1..])))
  }

  /** Main result: along every admissible run the stack of caches behaves as the stack of flat maps, and
      neither logic error is ever thrown. */
  lemma {:induction false} EveryRunRefines(s: Stack, flats: seq<Flat>, ops: seq<Op>, trace: seq<Stack>)
    requires StackOk(s) && Refines(s, flats) && AdmissibleRun(flats, ops) && RunsThrough(s, ops, trace)
    ensures StackOk(trace[|ops|]) && Refines(trace[|ops|], AbstractRun(flats, ops))
    ensures forall i :: 0 <= i < |ops| ==> (ops[i].Push? || trace[i].layers != []) && !Throws(trace[i], ops[i])
    decreases |ops|
  {
    hide StackOk, Refines, StepTo, Throws, Admissible, Abstract;
    if ops != [] {
      StepRefines(s, flats, ops[0]);
      EveryRunRefines(trace[1], Abstract(flats, ops[0]), ops[1..], trace[1..]);
      forall i | 0 <= i < |ops| ensures (ops[i].Push? || trace[i].layers != []) && !Throws(trace[i], ops[i]) {
        if i > 0 {
          assert ops[1..][i - 1] == ops[i] && trace[1..][i - 1] == trace[i];
        }
      }
    }
  }
}
