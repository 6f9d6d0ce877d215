/** `OrderBook`: submit, cancel and best prices, in place on the levels and the live index. */
module OrderBooks {
  import opened Common
  import opened FlatBook
  import opened LevelBook
  import opened BookSubmits

  class OrderBook {
    const symbol: string
    var bids: seq<Level>
    var asks: seq<Level>
    var live: map<nat, Side>

    /** The book as one list per side. */
    ghost function Value(): Book
      reads this
    {
      Book(symbol, Flat(bids), Flat(asks))
    }

    ghost predicate Structured()
      reads this
    {
      && LevelsOk(Buy, bids) && LevelsOk(Sell, asks)
      && Indexed(live, Buy, Flat(bids)) && Indexed(live, Sell, Flat(asks))
    }

    ghost predicate Valid()
      reads this
    {
      Structured() && Good(Value())
    }

    constructor (symbol: string)
      ensures Valid() && Value() == Book(symbol, [], [])
      ensures this.symbol == symbol
    {
      this.symbol := symbol;
      bids, asks, live := [], [], map[];
    }

    /** `asks_.begin()` or `bids_.begin()`, and whether the order crosses it. */
    predicate FrontCrosses(o: Order)
      reads this
    {
      if o.side.Buy? then asks != [] && Crosses(o.side, o.price, asks[0].price)
      else bids != [] && Crosses(o.side, o.price, bids[0].price)
    }

    /** The body of the matching loop: trade with the oldest order at the best opposing price. */
    method FillFront(o: Order, remaining: nat) returns (fill: Fill)
      requires Structured() && remaining > 0 && FrontCrosses(o)
      requires SideOk(Opposite(o.side), symbol, Value().On(Opposite(o.side)))
      modifies this`bids, this`asks, this`live
      ensures Structured()
      ensures SideOk(Opposite(o.side), symbol, Value().On(Opposite(o.side)))
      ensures Value().On(o.side) == old(Value()).On(o.side)
      ensures live.Keys <= old(live.Keys)
      ensures 0 < fill.quantity <= remaining
      ensures var rest := Match(o, remaining - fill.quantity, Value().On(Opposite(o.side)));
              Match(o, remaining, old(Value()).On(Opposite(o.side)))
              == Matched([fill] + rest.fills, rest.makers, rest.remaining)
    {
      ghost var makers := Value().On(Opposite(o.side));
      if o.side.Buy? {
        FlatFront(asks);
        var maker := asks[0].orders[0];
        var traded := Min(remaining, maker.quantity);
        fill := Fill(o.id, maker.id, o.side, maker.price, traded, o.sequence);
        ghost var before := live;
        if maker.quantity == traded {
          live := live - {maker.id};
        }
        FrontStep(Sell, symbol, asks, traded, before, Flat(bids));
        asks := FrontTraded(asks, traded);
      } else {
        FlatFront(bids);
        var maker := bids[0].orders[0];
        var traded := Min(remaining, maker.quantity);
        fill := Fill(o.id, maker.id, o.side, maker.price, traded, o.sequence);
        ghost var before := live;
        if maker.quantity == traded {
          live := live - {maker.id};
        }
        FrontStep(Buy, symbol, bids, traded, before, Flat(asks));
        bids := FrontTraded(bids, traded);
      }
      OneGreedyStep(o, remaining, makers, Value().On(Opposite(o.side)));
    }

    /** The matching loop: trade with the front of the other side while it crosses. */
    method MatchOrder(order: Order, fills: seq<Fill>) returns (remaining: nat, allFills: seq<Fill>)
      requires Structured() && order.id !in live
      requires SideOk(Opposite(order.side), symbol, Value().On(Opposite(order.side)))
      modifies this`bids, this`asks, this`live
      ensures Structured() && order.id !in live
      ensures var m := Match(order, order.quantity, old(Value()).On(Opposite(order.side)));
              && Value() == old(Value()).With(Opposite(order.side), m.makers)
              && remaining == m.remaining && allFills == fills + m.fills
    {
      ghost var other := Opposite(order.side);
      ghost var m := Match(order, order.quantity, Value().On(other));
      remaining, allFills := order.quantity, fills;
      ghost var done: seq<Fill> := [];
      while remaining > 0 && FrontCrosses(order)
        invariant Structured() && SideOk(other, symbol, Value().On(other))
        invariant Value().On(order.side) == old(Value()).On(order.side)
        invariant order.id !in live
        invariant allFills == fills + done
        invariant var rest := Match(order, remaining, Value().On(other));
                  m == Matched(done + rest.fills, rest.makers, rest.remaining)
        decreases remaining
      {
        var fill := FillFront(order, remaining);
        allFills := allFills + [fill];
        remaining := remaining - fill.quantity;
        ghost var rest := Match(order, remaining, Value().On(other));
        OneMoreFill(fills, done, fill, rest.fills);
        done := done + [fill];
      }
      MatchingStops(order, remaining);
      assert done + [] == done;
    }

    /** Appends the order's fills to `fills` and answers with an acknowledgement. */
    method Submit(order: Order, fills: seq<Fill>) returns (ack: Ack, allFills: seq<Fill>)
      requires Valid()
      modifies this`bids, this`asks, this`live
      ensures Valid()
      ensures var r := FlatBook.Submit(old(Value()), order);
              && Value() == r.book && ack == r.ack && allFills == fills + r.fills
              && Describes(old(Value()), order, r)
    {
      LiveIsIndexed();
      SubmitExactly(Value(), order);
      SubmitKeepsGood(Value(), order);
      if order.symbol != symbol {
        return Ack(order.id, false, 0, "symbol mismatch"), fills;
      }
      if order.id == 0 || order.quantity == 0 || order.price <= 0 {
        return Ack(order.id, false, 0, "invalid order"), fills;
      }
      if order.id in live {
        return Ack(order.id, false, 0, "duplicate live order id"), fills;
      }
      var remaining;
      remaining, allFills := MatchOrder(order, fills);
      if remaining > 0 && order.tif.GoodTillCancel? {
        RestOrder(order, remaining);
      }
      ack := Ack(order.id, true, remaining, "accepted");
    }

    /** When the loop stops, the greedy walk over what is left does nothing. */
    lemma MatchingStops(o: Order, remaining: nat)
      requires Structured() && (remaining == 0 || !FrontCrosses(o))
      ensures Match(o, remaining, Value().On(Opposite(o.side))) == Matched([], Value().On(Opposite(o.side)), remaining)
    {
      if o.side.Buy? && asks != [] {
        FlatFront(asks);
      }
      if o.side.Sell? && bids != [] {
        FlatFront(bids);
      }
    }

    lemma LiveIsIndexed()
      requires Structured()
      ensures forall id :: id in live <==> Value().Live(id)
    {
      forall id
        ensures id in live <==> Value().Live(id)
      {
        if id in live {
          assert live[id] == Buy || live[id] == Sell;
        }
      }
    }

    /** Queue the remainder behind everyone at its price and index it. */
    method RestOrder(order: Order, remaining: nat)
      requires Structured() && order.id !in live && remaining > 0
      modifies this`bids, this`asks, this`live
      ensures Structured()
      ensures Value() == old(Value()).With(order.side,
                Insert(order.side, old(Value()).On(order.side), order.(quantity := remaining)))
    {
      var resting := order.(quantity := remaining);
      if order.side.Buy? {
        RestStep(Buy, bids, live, Flat(asks), resting);
        bids := PushBack(Buy, bids, resting);
      } else {
        RestStep(Sell, asks, live, Flat(bids), resting);
        asks := PushBack(Sell, asks, resting);
      }
      live := live[order.id := order.side];
    }

    /** The search through the bid levels; an indexed id is always found. */
    method CancelInBids(id: nat)
      requires Valid() && id in live && live[id] == Buy
      modifies this`bids, this`live
      ensures LevelsOk(Buy, bids) && Flat(bids) == Without(old(Flat(bids)), id) && live == old(live) - {id}
    {
      for k := 0 to |bids|
        invariant bids == old(bids) && live == old(live)
        invariant forall i :: 0 <= i < k ==> FindId(bids[i].orders, id) == |bids[i].orders|
      {
        var item := FindId(bids[k].orders, id);
        if item < |bids[k].orders| {
          ErasedOk(Buy, bids, k, item);
          ErasedIsWithout(bids, k, item, id);
          bids := Erased(bids, k, item);
          live := live - {id};
          return;
        }
      }
      NotInLevels(bids, id);
      // so the last `return false` of the source is never reached
      assert false;
    }

    /** The search through the ask levels; an indexed id is always found. */
    method CancelInAsks(id: nat)
      requires Valid() && id in live && live[id] == Sell
      modifies this`asks, this`live
      ensures LevelsOk(Sell, asks) && Flat(asks) == Without(old(Flat(asks)), id) && live == old(live) - {id}
    {
      for k := 0 to |asks|
        invariant asks == old(asks) && live == old(live)
        invariant forall i :: 0 <= i < k ==> FindId(asks[i].orders, id) == |asks[i].orders|
      {
        var item := FindId(asks[k].orders, id);
        if item < |asks[k].orders| {
          ErasedOk(Sell, asks, k, item);
          ErasedIsWithout(asks, k, item, id);
          asks := Erased(asks, k, item);
          live := live - {id};
          return;
        }
      }
      NotInLevels(asks, id);
      // so the last `return false` of the source is never reached
      assert false;
    }

    /** Removes a live order; answers whether there was one. */
    method Cancel(id: nat) returns (found: bool)
      requires Valid()
      modifies this`bids, this`asks, this`live
      ensures Valid()
      ensures (Value(), found) == FlatBook.Cancel(old(Value()), id)
      ensures found <==> id in old(live)
      ensures live == old(live) - {id}
    {
      LiveIsIndexed();
      CancelStep(symbol, Flat(bids), Flat(asks), live, id);
      if id !in live {
        return false;
      }
      if live[id] == Buy {
        CancelInBids(id);
      } else {
        CancelInAsks(id);
      }
      found := true;
    }

    /** The highest resting bid, if any. */
    method BestBid() returns (best: Option<int>)
      requires Valid()
      ensures best.None? <==> Value().bids == []
      ensures best.Some? ==> exists i :: 0 <= i < |Value().bids| && Value().bids[i].price == best.value
      ensures best.Some? ==> forall i :: 0 <= i < |Value().bids| ==> Value().bids[i].price <= best.value
    {
      if bids == [] {
        return None;
      }
      FlatFront(bids);
      assert Flat(bids)[0].price == bids[0].price;
      best := Some(bids[0].price);
    }

    /** The lowest resting ask, if any. */
    method BestAsk() returns (best: Option<int>)
      requires Valid()
      ensures best.None? <==> Value().asks == []
      ensures best.Some? ==> exists i :: 0 <= i < |Value().asks| && Value().asks[i].price == best.value
      ensures best.Some? ==> forall i :: 0 <= i < |Value().asks| ==> Value().asks[i].price >= best.value
    {
      if asks == [] {
        return None;
      }
      FlatFront(asks);
      assert Flat(asks)[0].price == asks[0].price;
      best := Some(asks[0].price);
    }
  }

  lemma OneMoreFill(fills: seq<Fill>, done: seq<Fill>, fill: Fill, rest: seq<Fill>)
    ensures done + ([fill] + rest) == (done + [fill]) + rest
    ensures (fills + done) + [fill] == fills + (done + [fill])
  {}

  /** What resting an order does to its side and to the index. */
  lemma RestStep(side: Side, levels: seq<Level>, live: map<nat, Side>, others: seq<Order>, o: Order)
    requires LevelsOk(side, levels) && Indexed(live, side, Flat(levels)) && Indexed(live, Opposite(side), others)
    requires o.id !in live
    ensures var levels', live' := PushBack(side, levels, o), live[o.id := side];
            && LevelsOk(side, levels') && Flat(levels') == Insert(side, Flat(levels), o)
            && Indexed(live', side, Flat(levels')) && Indexed(live', Opposite(side), others)
  {
    PushBackOk(side, levels, o);
    PushBackIsInsert(side, levels, o);
    IndexedInsert(live, side, Flat(levels), o);
    NotIndexed(live, Opposite(side), others, o.id);
  }

  lemma NotIndexed(live: map<nat, Side>, side: Side, orders: seq<Order>, id: nat)
    requires Indexed(live, side, orders) && (id !in live || live[id] != side)
    ensures !Holds(orders, id) && Without(orders, id) == orders
  {}

  /** What cancelling does to both sides and to the index; the side that has not the id stays as it is. */
  lemma CancelStep(symbol: string, bids: seq<Order>, asks: seq<Order>, live: map<nat, Side>, id: nat)
    requires Good(Book(symbol, bids, asks)) && Indexed(live, Buy, bids) && Indexed(live, Sell, asks)
    ensures Good(FlatBook.Cancel(Book(symbol, bids, asks), id).0)
    ensures Indexed(live - {id}, Buy, Without(bids, id)) && Indexed(live - {id}, Sell, Without(asks, id))
    ensures (id in live && live[id] == Buy) || Without(bids, id) == bids
    ensures (id in live && live[id] == Sell) || Without(asks, id) == asks
    ensures id !in live ==> live - {id} == live
  {
    CancelRemovesExactly(Book(symbol, bids, asks), id);
    IndexedWithout(live, Buy, symbol, bids, id);
    IndexedWithout(live, Sell, symbol, asks, id);
    if id !in live || live[id] != Buy {
      NotIndexed(live, Buy, bids, id);
    }
    if id !in live || live[id] != Sell {
      NotIndexed(live, Sell, asks, id);
    }
  }

  /** A side whose first order is gone or has shrunk is still in order. */
  lemma FrontSideOk(side: Side, symbol: string, makers: seq<Order>, traded: nat)
    requires SideOk(side, symbol, makers) && makers != [] && traded <= makers[0].quantity
    ensures SideOk(side, symbol, makers[1..])
    ensures traded < makers[0].quantity ==>
              SideOk(side, symbol, [makers[0].(quantity := makers[0].quantity - traded)] + makers[1..])
  {}

  /** What trading with the front order does to its side and to the index. */
  lemma FrontStep(side: Side, symbol: string, levels: seq<Level>, traded: nat, live: map<nat, Side>, others: seq<Order>)
    requires LevelsOk(side, levels) && levels != [] && SideOk(side, symbol, Flat(levels))
    requires traded <= levels[0].orders[0].quantity
    requires Indexed(live, side, Flat(levels)) && Indexed(live, Opposite(side), others)
    ensures var maker := levels[0].orders[0];
            var levels' := FrontTraded(levels, traded);
            var live' := if maker.quantity == traded then live - {maker.id} else live;
            && LevelsOk(side, levels') && SideOk(side, symbol, Flat(levels'))
            && Indexed(live', side, Flat(levels')) && Indexed(live', Opposite(side), others)
            && Flat(levels) != [] && Flat(levels)[0] == maker
            && Flat(levels') == if maker.quantity == traded then Flat(levels)[1..]
                                else [maker.(quantity := maker.quantity - traded)] + Flat(levels)[1..]
  {
    var maker, makers := levels[0].orders[0], Flat(levels);
    FlatFront(levels);
    FrontTradedOk(side, levels, traded);
    FrontSideOk(side, symbol, makers, traded);
    if maker.quantity == traded {
      FrontDropped(side, levels);
      IndexedDrop(live, side, makers);
      assert Holds(makers, maker.id);
      IndexedOther(live, side, makers, Opposite(side), others, maker.id);
    } else {
      FrontShrunk(levels, traded);
      IndexedSameIds(live, side, makers, Flat(FrontTraded(levels, traded)));
    }
  }
}
