/**
 Price levels of first-in first-out queues and the index of live ids, as values: what each
 update of them means for the flat list of a side.
 */
module LevelBook {
  import opened FlatBook

  datatype Level = Level(price: int, orders: seq<Order>)

  /** All orders of a side, best price first, oldest first within a price. */
  function Flat(levels: seq<Level>): seq<Order> {
    if levels == [] then [] else levels[0].orders + Flat(levels[1..])
  }

  ghost predicate LevelOk(level: Level) {
    level.orders != [] && forall i :: 0 <= i < |level.orders| ==> level.orders[i].price == level.price
  }

  /** No level is empty, orders sit at their level's price, and levels are strictly ordered. */
  ghost predicate LevelsOk(side: Side, levels: seq<Level>) {
    && (forall i :: 0 <= i < |levels| ==> LevelOk(levels[i]))
    && (forall i, j :: 0 <= i < j < |levels| ==> Ahead(side, levels[i].price, levels[j].price))
  }

  /** The index maps exactly the ids resting on `side` to `side`. */
  ghost predicate Indexed(live: map<nat, Side>, side: Side, orders: seq<Order>) {
    forall id :: (id in live && live[id] == side) <==> Holds(orders, id)
  }

  // ------------------------------------------------------------- front of book

  lemma FlatCons(level: Level, rest: seq<Level>)
    ensures Flat([level] + rest) == level.orders + Flat(rest)
  {
    assert ([level] + rest)[1..] == rest;
  }

  lemma FlatFront(levels: seq<Level>)
    requires levels != [] && LevelOk(levels[0])
    ensures Flat(levels) != [] && Flat(levels)[0] == levels[0].orders[0]
    ensures Flat(levels)[1..] == levels[0].orders[1..] + Flat(levels[1..])
  {}

  /** `maker.quantity -= traded`, then drop the maker, and its level, if nothing is left. */
  function FrontTraded(levels: seq<Level>, traded: nat): seq<Level>
    requires levels != [] && levels[0].orders != [] && traded <= levels[0].orders[0].quantity
  {
    var level := levels[0];
    var maker := level.orders[0];
    if maker.quantity == traded then
      if |level.orders| == 1 then levels[1..] else [Level(level.price, level.orders[1..])] + levels[1..]
    else [Level(level.price, [maker.(quantity := maker.quantity - traded)] + level.orders[1..])] + levels[1..]
  }

  lemma FrontTradedOk(side: Side, levels: seq<Level>, traded: nat)
    requires LevelsOk(side, levels) && levels != [] && traded <= levels[0].orders[0].quantity
    ensures LevelsOk(side, FrontTraded(levels, traded))
  {
    var level := levels[0];
    var maker := level.orders[0];
    assert LevelOk(level);
    var orders := if maker.quantity == traded then level.orders[1..]
      else [maker.(quantity := maker.quantity - traded)] + level.orders[1..];
    if orders != [] {
      assert LevelOk(Level(level.price, orders));
      ReplaceFront(side, levels, Level(level.price, orders));
    }
  }

  lemma ReplaceFront(side: Side, levels: seq<Level>, level: Level)
    requires LevelsOk(side, levels) && levels != [] && LevelOk(level) && level.price == levels[0].price
    ensures LevelsOk(side, [level] + levels[1..])
  {
    var r := [level] + levels[1..];
    assert forall i :: 0 <= i < |r| ==> r[i].price == levels[i].price;
  }

  lemma Regroup<T>(a: seq<T>, b: seq<T>, c: seq<T>)
    ensures (a + b) + c == a + (b + c)
  {}

  lemma FrontShrunk(levels: seq<Level>, traded: nat)
    requires levels != [] && LevelOk(levels[0]) && traded < levels[0].orders[0].quantity
    ensures var maker := levels[0].orders[0];
            Flat(FrontTraded(levels, traded)) == [maker.(quantity := maker.quantity - traded)] + Flat(levels)[1..]
  {
    FlatFront(levels);
    var level, rest := levels[0], levels[1..];
    var shrunk := level.orders[0].(quantity := level.orders[0].quantity - traded);
    FlatCons(Level(level.price, [shrunk] + level.orders[1..]), rest);
    Regroup([shrunk], level.orders[1..], Flat(rest));
  }

  lemma FrontDropped(side: Side, levels: seq<Level>)
    requires LevelsOk(side, levels) && levels != []
    ensures Flat(FrontTraded(levels, levels[0].orders[0].quantity)) == Flat(levels)[1..]
  {
    FlatFront(levels);
    var level, rest := levels[0], levels[1..];
    if |level.orders| > 1 {
      FlatCons(Level(level.price, level.orders[1..]), rest);
    } else {
      assert level.orders[1..] + Flat(rest) == Flat(rest);
    }
  }

  // ------------------------------------------------------------------- resting

  /** `side_[price].orders.push_back(order)`: find or create the level, then append. */
  function PushBack(side: Side, levels: seq<Level>, o: Order): seq<Level> {
    if levels == [] || Ahead(side, o.price, levels[0].price) then [Level(o.price, [o])] + levels
    else if levels[0].price == o.price then [Level(o.price, levels[0].orders + [o])] + levels[1..]
    else [levels[0]] + PushBack(side, levels[1..], o)
  }

  lemma {:induction false} PositionPastLevel(side: Side, level: Level, n: nat, later: seq<Order>, price: int)
    requires LevelOk(level) && n <= |level.orders| && !Ahead(side, price, level.price)
    ensures Position(side, level.orders[n..] + later, price) == |level.orders| - n + Position(side, later, price)
    decreases |level.orders| - n
  {
    if n < |level.orders| {
      var orders := level.orders[n..] + later;
      PositionPastLevel(side, level, n + 1, later, price);
      assert orders[1..] == level.orders[n + 1..] + later;
      assert orders[0] == level.orders[n];
    } else {
      assert level.orders[n..] + later == later;
    }
  }

  lemma PushBackOk(side: Side, levels: seq<Level>, o: Order)
    requires LevelsOk(side, levels)
    ensures LevelsOk(side, PushBack(side, levels, o))
    ensures levels != [] ==> PushBack(side, levels, o)[0].price == levels[0].price || PushBack(side, levels, o)[0].price == o.price
    decreases |levels|
  {
    if levels != [] && !Ahead(side, o.price, levels[0].price) && levels[0].price != o.price {
      PushBackOk(side, levels[1..], o);
      var r := PushBack(side, levels[1..], o);
      assert r != [] && Ahead(side, levels[0].price, r[0].price);
    }
  }

  lemma SpliceAcross<T>(a: seq<T>, b: seq<T>, k: nat, x: T)
    requires k <= |b|
    ensures (a + b)[..|a| + k] + [x] + (a + b)[|a| + k..] == a + (b[..k] + [x] + b[k..])
  {
    assert (a + b)[..|a| + k] == a + b[..k];
    assert (a + b)[|a| + k..] == b[k..];
  }

  /** A newcomer not ahead of a level goes past all of it. */
  lemma InsertPastLevel(side: Side, level: Level, later: seq<Order>, o: Order)
    requires LevelOk(level) && !Ahead(side, o.price, level.price)
    ensures Insert(side, level.orders + later, o) == level.orders + Insert(side, later, o)
  {
    PositionPastLevel(side, level, 0, later, o.price);
    assert level.orders[0..] == level.orders;
    SpliceAcross(level.orders, later, Position(side, later, o.price), o);
  }

  lemma InsertFirst(side: Side, orders: seq<Order>, o: Order)
    requires orders == [] || Ahead(side, o.price, orders[0].price)
    ensures Insert(side, orders, o) == [o] + orders
  {}

  lemma {:induction false} PushBackIsInsert(side: Side, levels: seq<Level>, o: Order)
    requires LevelsOk(side, levels)
    ensures Flat(PushBack(side, levels, o)) == Insert(side, Flat(levels), o)
    decreases |levels|
  {
    if levels == [] || Ahead(side, o.price, levels[0].price) {
      if levels != [] {
        FlatFront(levels);
      }
      FlatCons(Level(o.price, [o]), levels);
      InsertFirst(side, Flat(levels), o);
    } else {
      var rest := levels[1..];
      assert LevelsOk(side, rest);
      InsertPastLevel(side, levels[0], Flat(rest), o);
      if levels[0].price == o.price {
        if rest != [] {
          FlatFront(rest);
        }
        InsertFirst(side, Flat(rest), o);
        FlatCons(Level(o.price, levels[0].orders + [o]), rest);
        assert (levels[0].orders + [o]) + Flat(rest) == levels[0].orders + ([o] + Flat(rest));
      } else {
        PushBackIsInsert(side, rest, o);
        FlatCons(levels[0], PushBack(side, rest, o));
      }
    }
  }

  // ---------------------------------------------------------------- cancelling

  /** `orders.erase(item)`, then erase the level if it is empty. */
  function Erased(levels: seq<Level>, k: nat, item: nat): seq<Level>
    requires k < |levels| && item < |levels[k].orders|
  {
    var orders := RemoveAt(levels[k].orders, item);
    levels[..k] + (if orders == [] then [] else [Level(levels[k].price, orders)]) + levels[k + 1..]
  }

  lemma ErasedOk(side: Side, levels: seq<Level>, k: nat, item: nat)
    requires LevelsOk(side, levels) && k < |levels| && item < |levels[k].orders|
    ensures LevelsOk(side, Erased(levels, k, item))
  {
    var r := Erased(levels, k, item);
    var orders := RemoveAt(levels[k].orders, item);
    if orders == [] {
      assert forall i :: 0 <= i < |r| ==> r[i] == if i < k then levels[i] else levels[i + 1];
    } else {
      assert LevelOk(Level(levels[k].price, orders));
      assert forall i :: 0 <= i < |r| && i != k ==> r[i] == levels[i];
    }
  }

  lemma {:induction false} FindAcross(a: seq<Order>, b: seq<Order>, id: nat)
    ensures FindId(a + b, id) == if FindId(a, id) < |a| then FindId(a, id) else |a| + FindId(b, id)
    decreases |a|
  {
    if a == [] {
      assert a + b == b;
    } else {
      FindAcross(a[1..], b, id);
      assert (a + b)[1..] == a[1..] + b;
    }
  }

  lemma CutLeft<T>(a: seq<T>, b: seq<T>, k: nat)
    requires k < |a|
    ensures RemoveAt(a + b, k) == RemoveAt(a, k) + b
  {
    assert (a + b)[..k] == a[..k] && (a + b)[k + 1..] == a[k + 1..] + b;
  }

  lemma CutRight<T>(a: seq<T>, b: seq<T>, k: nat)
    requires k < |b|
    ensures RemoveAt(a + b, |a| + k) == a + RemoveAt(b, k)
  {
    assert (a + b)[..|a| + k] == a + b[..k] && (a + b)[|a| + k + 1..] == b[k + 1..];
  }

  lemma WithoutLeft(a: seq<Order>, b: seq<Order>, id: nat)
    requires FindId(a, id) < |a|
    ensures Without(a + b, id) == Without(a, id) + b
  {
    var k := FindId(a, id);
    assert FindId(a + b, id) == k by {
      FindAcross(a, b, id);
    }
    CutLeft(a, b, k);
  }

  lemma WithoutAs(orders: seq<Order>, id: nat, k: nat)
    requires FindId(orders, id) == k
    ensures Without(orders, id) == if k < |orders| then RemoveAt(orders, k) else orders
  {}

  lemma WithoutRight(a: seq<Order>, b: seq<Order>, id: nat)
    requires FindId(a, id) == |a|
    ensures Without(a + b, id) == a + Without(b, id)
  {
    var k, all := FindId(b, id), a + b;
    FindAcross(a, b, id);
    WithoutAs(b, id, k);
    WithoutAs(all, id, |a| + k);
    if k < |b| {
      CutRight(a, b, k);
    }
  }

  lemma ErasedLater(levels: seq<Level>, k: nat, item: nat)
    requires 0 < k < |levels| && item < |levels[k].orders|
    ensures Erased(levels, k, item) == [levels[0]] + Erased(levels[1..], k - 1, item)
  {
    var rest := levels[1..];
    assert rest[k - 1] == levels[k] && rest[k..] == levels[k + 1..];
    assert levels[..k] == [levels[0]] + rest[..k - 1];
  }

  /** Erasing the first match found level by level is removing the first match of the flat list. */
  lemma {:induction false} ErasedIsWithout(levels: seq<Level>, k: nat, item: nat, id: nat)
    requires k < |levels| && item == FindId(levels[k].orders, id) < |levels[k].orders|
    requires forall i :: 0 <= i < k ==> FindId(levels[i].orders, id) == |levels[i].orders|
    ensures Flat(Erased(levels, k, item)) == Without(Flat(levels), id)
    decreases k
  {
    var rest := levels[1..];
    if k == 0 {
      WithoutLeft(levels[0].orders, Flat(rest), id);
      var orders := RemoveAt(levels[0].orders, item);
      assert Without(levels[0].orders, id) == orders;
      if orders == [] {
        assert Erased(levels, 0, item) == rest;
        assert orders + Flat(rest) == Flat(rest);
      } else {
        assert Erased(levels, 0, item) == [Level(levels[0].price, orders)] + rest;
        FlatCons(Level(levels[0].price, orders), rest);
      }
    } else {
      WithoutRight(levels[0].orders, Flat(rest), id);
      assert rest[k - 1] == levels[k];
      ErasedIsWithout(rest, k - 1, item, id);
      ErasedLater(levels, k, item);
      FlatCons(levels[0], Erased(rest, k - 1, item));
    }
  }

  lemma {:induction false} NotInLevels(levels: seq<Level>, id: nat)
    requires forall i :: 0 <= i < |levels| ==> FindId(levels[i].orders, id) == |levels[i].orders|
    ensures !Holds(Flat(levels), id)
    decreases |levels|
  {
    if levels != [] {
      NotInLevels(levels[1..], id);
    }
  }

  // ------------------------------------------------------------- the live index

  ghost predicate Distinct(orders: seq<Order>) {
    forall i, j :: 0 <= i < j < |orders| ==> orders[i].id != orders[j].id
  }

  lemma IndexedDrop(live: map<nat, Side>, side: Side, orders: seq<Order>)
    requires Indexed(live, side, orders) && Distinct(orders) && orders != []
    ensures Indexed(live - {orders[0].id}, side, orders[1..])
  {
    var live' := live - {orders[0].id};
    forall id
      ensures (id in live' && live'[id] == side) <==> Holds(orders[1..], id)
    {
      if Holds(orders[1..], id) {
        var i :| 0 <= i < |orders[1..]| && orders[1..][i].id == id;
        assert orders[i + 1].id == id;
        assert Holds(orders, id);
      }
      if id in live' && live'[id] == side {
        var i :| 0 <= i < |orders| && orders[i].id == id;
        assert orders[1..][i - 1].id == id;
      }
    }
  }

  lemma IndexedOther(live: map<nat, Side>, side: Side, orders: seq<Order>, other: Side, others: seq<Order>, id: nat)
    requires Indexed(live, side, orders) && Indexed(live, other, others) && side != other && Holds(orders, id)
    ensures Indexed(live - {id}, other, others)
  {
    assert id in live && live[id] == side;
  }

  lemma IndexedSameIds(live: map<nat, Side>, side: Side, orders: seq<Order>, orders': seq<Order>)
    requires Indexed(live, side, orders) && |orders| == |orders'|
    requires forall i :: 0 <= i < |orders| ==> orders[i].id == orders'[i].id
    ensures Indexed(live, side, orders')
  {
    forall id
      ensures Holds(orders, id) <==> Holds(orders', id)
    {
      if Holds(orders, id) {
        var i :| 0 <= i < |orders| && orders[i].id == id;
        assert orders'[i].id == id;
      }
    }
  }

  lemma IndexedInsert(live: map<nat, Side>, side: Side, orders: seq<Order>, o: Order)
    requires Indexed(live, side, orders)
    ensures Indexed(live[o.id := side], side, Insert(side, orders, o))
  {
    InsertElements(side, orders, o);
    var r := Insert(side, orders, o);
    forall id
      ensures Holds(r, id) <==> Holds(orders, id) || id == o.id
    {
      if Holds(r, id) {
        var i :| 0 <= i < |r| && r[i].id == id;
        if r[i] != o {
          assert r[i] in orders;
        }
      }
      if Holds(orders, id) {
        var i :| 0 <= i < |orders| && orders[i].id == id;
        assert orders[i] in r;
      }
    }
  }

  lemma IndexedWithout(live: map<nat, Side>, side: Side, symbol: string, orders: seq<Order>, id: nat)
    requires Indexed(live, side, orders) && SideOk(side, symbol, orders)
    ensures Indexed(live - {id}, side, Without(orders, id))
  {
    var r := Without(orders, id);
    forall x
      ensures Holds(r, x) <==> Holds(orders, x) && x != id
    {
      if Holds(r, x) {
        var i :| 0 <= i < |r| && r[i].id == x;
        WithoutElements(side, symbol, orders, id, r[i]);
      }
      if Holds(orders, x) && x != id {
        var i :| 0 <= i < |orders| && orders[i].id == x;
        WithoutElements(side, symbol, orders, id, orders[i]);
      }
    }
  }

  // ------------------------------------------------------------------ one fill

  /** One turn of the matching loop, seen on the flat list. */
  lemma OneGreedyStep(o: Order, remaining: nat, makers: seq<Order>, makers': seq<Order>)
    requires remaining > 0 && makers != [] && Crosses(o.side, o.price, makers[0].price)
    requires var traded := Min(remaining, makers[0].quantity);
             makers' == if makers[0].quantity == traded then makers[1..]
                        else [makers[0].(quantity := makers[0].quantity - traded)] + makers[1..]
    ensures var traded := Min(remaining, makers[0].quantity);
            var fill := Fill(o.id, makers[0].id, o.side, makers[0].price, traded, o.sequence);
            var rest := Match(o, remaining - traded, makers');
            Match(o, remaining, makers) == Matched([fill] + rest.fills, rest.makers, rest.remaining)
  {}
}
