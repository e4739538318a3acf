/** The merging iterator over a transaction and its parent, which may itself be a transaction. */
module DbCursor {
  import opened DbKeys
  import opened DbOverlay

  datatype Db = Base(m: map<Key, Value>) | Over(parent: Db, layer: Layer)

  function Content(db: Db): map<Key, Value> {
    match db
    case Base(m) => m
    case Over(parent, layer) => View(Content(parent), layer)
  }

  /** A position: the keys still ahead in a plain store; or those ahead in the transaction's writes next to a
      position in the parent, the parent's key last looked at, and whose key is current. */
  datatype Cursor = AtBase(rest: set<Key>) | Merging(parent: Cursor, ahead: set<Key>, parentKey: Key, curIsParent: bool)

  predicate Valid(c: Cursor) {
    match c
    case AtBase(rest) => rest != {}
    case Merging(parent, ahead, _, _) => ahead != {} || Valid(parent)
  }

  function GetKey(c: Cursor): Key {
    if !Valid(c) then []
    else match c
      case AtBase(rest) => First(rest)
      case Merging(parent, ahead, parentKey, curIsParent) =>
        if curIsParent then parentKey else if ahead == {} then [] else First(ahead)
  }

  /** Neither deleted nor overwritten by the transaction. */
  predicate Visible(l: Layer, k: Key) {
    k !in l.deletes && k !in l.writes
  }

  ghost function VisibleIn(l: Layer, s: set<Key>): set<Key> {
    set k | k in s && Visible(l, k)
  }

  ghost predicate Shaped(db: Db, c: Cursor) {
    match db
    case Base(_) => c.AtBase?
    case Over(parent, _) => c.Merging? && Shaped(parent, c.parent)
  }

  /** The keys a position still has to yield. */
  ghost function Rest(db: Db, c: Cursor): set<Key>
    requires Shaped(db, c)
  {
    match db
    case Base(_) => c.rest
    case Over(parent, layer) => c.ahead + VisibleIn(layer, Rest(parent, c.parent))
  }

  /** The parent rests on a visible key, and the smaller of the two keys is current. */
  ghost predicate Settled(l: Layer, c: Cursor)
    requires c.Merging?
  {
    && (Valid(c.parent) ==> c.parentKey == GetKey(c.parent) && Visible(l, c.parentKey))
    && (Valid(c) ==> (c.curIsParent <==> Valid(c.parent) && (c.ahead == {} || !Less(First(c.ahead), c.parentKey))))
  }

  ghost predicate CursorOk(db: Db, c: Cursor) {
    && Shaped(db, c)
    && match db
       case Base(m) => c.rest <= m.Keys
       case Over(parent, layer) => CursorOk(parent, c.parent) && c.ahead <= layer.writes.Keys && Settled(layer, c)
  }

  /** The current key is the smallest of those ahead, and there is one exactly when the position is valid. */
  lemma {:induction false} CurrentIsFirst(db: Db, c: Cursor)
    requires CursorOk(db, c)
    ensures Valid(c) <==> Rest(db, c) != {}
    ensures Valid(c) ==> IsFirst(GetKey(c), Rest(db, c))
  {
    match db
    case Base(_) =>
    case Over(parent, layer) =>
      CurrentIsFirst(parent, c.parent);
      var seen := Rest(parent, c.parent);
      if Valid(c.parent) {
        assert c.parentKey in VisibleIn(layer, seen);
        if c.ahead != {} { FirstOfBoth(c.ahead, VisibleIn(layer, seen), First(c.ahead), c.parentKey); }
      }
  }

  lemma FirstOfBoth(a: set<Key>, b: set<Key>, x: Key, y: Key)
    requires IsFirst(x, a) && IsFirst(y, b)
    ensures IsFirst(if Less(x, y) then x else y, a + b)
  {
    hide Less;
    forall z | z in a + b ensures !Less(z, if Less(x, y) then x else y) {
      if Less(x, y) {
        if Less(z, x) { LessTransitive(z, x, y); }
      } else {
        LessTotal(x, y);
        if Less(z, y) && y != x { LessTransitive(z, y, x); }
      }
    }
  }

  // ---------------------------------------------------------------------------------------------
  // Moving

  /** The position with the smaller key made current. */
  function Decide(parent: Cursor, ahead: set<Key>): (r: Cursor)
    ensures r.Merging? && r.parent == parent && r.ahead == ahead
  {
    var parentKey := GetKey(parent);
    Merging(parent, ahead, parentKey, Valid(parent) && (ahead == {} || !Less(First(ahead), parentKey)))
  }

  /** One key further. */
  function Next(db: Db, c: Cursor): (r: Cursor)
    requires CursorOk(db, c) && Valid(c)
    ensures CursorOk(db, r) && Rest(db, r) == Rest(db, c) - {GetKey(c)}
    decreases db, 0, 0
  {
    CurrentIsFirst(db, c);
    match db
    case Base(_) => AtBase(c.rest - {First(c.rest)})
    case Over(parent, layer) =>
      CurrentIsFirst(parent, c.parent);
      if c.curIsParent then
        StepParent(layer, c.ahead, Rest(parent, c.parent), c.parentKey);
        Decide(Skip(parent, layer, Next(parent, c.parent)), c.ahead)
      else
        StepAhead(layer, c.ahead, Rest(parent, c.parent), First(c.ahead));
        Decide(c.parent, c.ahead - {First(c.ahead)})
  }

  /** Past the parent's keys that the transaction deleted or overwrote. */
  function Skip(db: Db, layer: Layer, c: Cursor): (r: Cursor)
    requires CursorOk(db, c)
    ensures CursorOk(db, r) && (Valid(r) ==> Visible(layer, GetKey(r)))
    ensures VisibleIn(layer, Rest(db, r)) == VisibleIn(layer, Rest(db, c))
    decreases db, 1, Rest(db, c)
  {
    CurrentIsFirst(db, c);
    if Valid(c) && !Visible(layer, GetKey(c)) then Skip(db, layer, Next(db, c)) else c
  }

  lemma StepParent(layer: Layer, ahead: set<Key>, seen: set<Key>, k: Key)
    requires ahead <= layer.writes.Keys && Visible(layer, k)
    ensures ahead + VisibleIn(layer, seen - {k}) == ahead + VisibleIn(layer, seen) - {k}
  {
  }

  lemma StepAhead(layer: Layer, ahead: set<Key>, seen: set<Key>, k: Key)
    requires ahead <= layer.writes.Keys && k in ahead
    ensures (ahead - {k}) + VisibleIn(layer, seen) == ahead + VisibleIn(layer, seen) - {k}
  {
  }

  // ---------------------------------------------------------------------------------------------
  // Positioning

  function From(s: set<Key>, k: Key): set<Key> {
    set x | x in s && !Less(x, k)
  }

  /** At the first key not below k. */
  function Seek(db: Db, k: Key): (r: Cursor)
    ensures CursorOk(db, r) && Rest(db, r) == From(Content(db).Keys, k)
  {
    match db
    case Base(m) => AtBase(From(m.Keys, k))
    case Over(parent, layer) =>
      SeenFrom(Content(parent), layer, k);
      Decide(Skip(parent, layer, Seek(parent, k)), From(layer.writes.Keys, k))
  }

  function SeekToFirst(db: Db): (r: Cursor)
    ensures CursorOk(db, r) && Rest(db, r) == Content(db).Keys
  {
    match db
    case Base(m) => AtBase(m.Keys)
    case Over(parent, layer) =>
      SeenAll(Content(parent), layer);
      Decide(Skip(parent, layer, SeekToFirst(parent)), layer.writes.Keys)
  }

  lemma SeenAll(parent: map<Key, Value>, l: Layer)
    ensures View(parent, l).Keys == l.writes.Keys + VisibleIn(l, parent.Keys)
  {
  }

  lemma SeenFrom(parent: map<Key, Value>, l: Layer, k: Key)
    ensures From(View(parent, l).Keys, k) == From(l.writes.Keys, k) + VisibleIn(l, From(parent.Keys, k))
  {
    hide Less;
    SeenAll(parent, l);
  }

  /** Before any seek: nothing ahead. */
  function End(db: Db): (r: Cursor)
    ensures CursorOk(db, r) && Rest(db, r) == {} && !Valid(r)
  {
    match db
    case Base(_) => AtBase({})
    case Over(parent, _) => Merging(End(parent), {}, [], false)
  }

  lemma {:induction false} RestWithin(db: Db, c: Cursor)
    requires CursorOk(db, c)
    ensures Rest(db, c) <= Content(db).Keys
  {
    match db
    case Base(_) =>
    case Over(parent, layer) =>
      RestWithin(parent, c.parent);
      SeenAll(Content(parent), layer);
  }

  // ---------------------------------------------------------------------------------------------
  // Scanning

  /** The keys met by calling Next until the position is no longer valid. */
  function Scan(db: Db, c: Cursor): seq<Key>
    requires CursorOk(db, c)
    decreases Rest(db, c)
  {
    CurrentIsFirst(db, c);
    if !Valid(c) then [] else [GetKey(c)] + Scan(db, Next(db, c))
  }

  /** A scan is ascending and meets each key ahead exactly once. */
  lemma {:induction false} ScanIsAscending(db: Db, c: Cursor)
    requires CursorOk(db, c)
    ensures Ascending(Scan(db, c))
    ensures forall k :: k in Scan(db, c) <==> k in Rest(db, c)
    decreases Rest(db, c)
  {
    hide Less;
    CurrentIsFirst(db, c);
    if Valid(c) {
      var k, rest := GetKey(c), Scan(db, Next(db, c));
      ScanIsAscending(db, Next(db, c));
      forall x | x in Rest(db, c) - {k} ensures Less(k, x) { LessTotal(k, x); }
    }
  }

  /** Main result on iteration: however many transactions are laid over each other, a scan from the start
      meets exactly the keys of the overlay, and a scan from k exactly those not below k, in ascending order. */
  lemma ScanMeetsOverlay(db: Db, k: Key)
    ensures Ascending(Scan(db, SeekToFirst(db))) && Ascending(Scan(db, Seek(db, k)))
    ensures forall x :: x in Scan(db, SeekToFirst(db)) <==> x in Content(db)
    ensures forall x :: x in Scan(db, Seek(db, k)) <==> x in Content(db) && !Less(x, k)
  {
    ScanIsAscending(db, SeekToFirst(db));
    ScanIsAscending(db, Seek(db, k));
  }
}
