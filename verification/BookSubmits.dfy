/** What a submission does to a good book, said without the walk that does it. */
module BookSubmits {
  import opened Common
  import opened FlatBook
  import opened BookRuns

  // ---------------------------------------------------------- the opposing side

  /** A buyer pays at most the limit, a seller gets at least the limit. */
  predicate WithinLimit(o: Order, price: int) {
    (o.side.Buy? ==> price <= o.price) && (o.side.Sell? ==> price >= o.price)
  }

  /** The i-th fill trades with the i-th maker, at its price, what the makers before it left of the order. */
  ghost predicate FillsInTurn(o: Order, makers: seq<Order>, fills: seq<Fill>) {
    && |fills| <= |makers|
    && forall i :: 0 <= i < |fills| ==>
         && WithinLimit(o, fills[i].price) && Before(makers, i) < o.quantity
         && fills[i] == Fill(o.id, makers[i].id, o.side, makers[i].price,
                             Min(makers[i].quantity, o.quantity - Before(makers, i)), o.sequence)
  }

  /** It goes on while there is quantity left and a maker within the limit. */
  ghost predicate StopsInTime(o: Order, makers: seq<Order>, fills: seq<Fill>) {
    && |fills| <= |makers|
    && (|fills| == |makers| || o.quantity <= Before(makers, |fills|) || !WithinLimit(o, makers[|fills|].price))
  }

  /** Filled makers are gone, a partly filled one keeps its place and the rest of its quantity. */
  ghost predicate LeftBehind(makers: seq<Order>, fills: seq<Fill>, left: seq<Order>) {
    var gone := |makers| - |left|;
    && 0 <= gone <= |fills| <= gone + 1 && |fills| <= |makers|
    && (forall i :: 0 <= i < gone ==> fills[i].quantity == makers[i].quantity)
    && (if |fills| == gone then left == makers[gone..]
        else
          var maker := makers[gone];
          && 0 < fills[gone].quantity < maker.quantity
          && left == [maker.(quantity := maker.quantity - fills[gone].quantity)] + makers[gone + 1..])
  }

  lemma MatchInTurn(o: Order, makers: seq<Order>, m: Matched)
    requires Positive(makers) && m == Match(o, o.quantity, makers)
    ensures FillsInTurn(o, makers, m.fills)
  {
    WalkEnds(o, o.quantity, makers);
    forall i | 0 <= i < |m.fills| {
      FillAt(o, o.quantity, makers, i);
    }
  }

  lemma MatchStopsInTime(o: Order, makers: seq<Order>, m: Matched)
    requires Positive(makers) && m == Match(o, o.quantity, makers)
    ensures StopsInTime(o, makers, m.fills)
  {
    WalkEnds(o, o.quantity, makers);
  }

  /** The makers that are gone were filled in full; */
  lemma {:induction false} GoneIsFilled(o: Order, quantity: nat, makers: seq<Order>, i: nat)
    requires Positive(makers)
    ensures var m := Match(o, quantity, makers);
            i < |makers| - |m.makers| ==> i < |m.fills| && m.fills[i].quantity == makers[i].quantity
    decreases i
  {
    if i > 0 && quantity != 0 && makers != [] && Crosses(o.side, o.price, makers[0].price) && makers[0].quantity <= quantity {
      GoneIsFilled(o, quantity - makers[0].quantity, makers[1..], i - 1);
    }
  }

  /** one filled in part keeps the rest of its quantity. */
  lemma {:induction false} ShrunkByItsFill(o: Order, quantity: nat, makers: seq<Order>)
    requires Positive(makers)
    ensures var m := Match(o, quantity, makers);
            var gone := |makers| - |m.makers|;
            && gone >= 0
            && (gone < |m.fills| ==>
              m.makers != [] && gone < |makers| && m.makers[0].quantity == makers[gone].quantity - m.fills[gone].quantity)
    decreases |makers|
  {
    if quantity != 0 && makers != [] && Crosses(o.side, o.price, makers[0].price) && makers[0].quantity <= quantity {
      ShrunkByItsFill(o, quantity - makers[0].quantity, makers[1..]);
    }
  }

  lemma MatchLeavesBehind(o: Order, makers: seq<Order>, m: Matched)
    requires Positive(makers) && m == Match(o, o.quantity, makers)
    ensures LeftBehind(makers, m.fills, m.makers)
  {
    WalkEnds(o, o.quantity, makers);
    MakersLeft(o, o.quantity, makers);
    ShrunkByItsFill(o, o.quantity, makers);
    forall i | 0 <= i < |makers| - |m.makers| {
      GoneIsFilled(o, o.quantity, makers, i);
    }
  }

  /** The parts of an accepted submission. */
  lemma SubmitParts(b: Book, o: Order)
    requires Submit(b, o).ack.accepted
    ensures var r, m := Submit(b, o), Match(o, o.quantity, b.On(Opposite(o.side)));
            && r.fills == m.fills && r.ack.remaining == m.remaining && r.book.On(Opposite(o.side)) == m.makers
            && r.book.On(o.side) == (if m.remaining > 0 && o.tif.GoodTillCancel?
                                     then Insert(o.side, b.On(o.side), o.(quantity := m.remaining)) else b.On(o.side))
  {}

  // --------------------------------------------------------------- the own side

  /** `o` stands behind every order at least as good and before every worse one. */
  ghost predicate InsertedAt(orders: seq<Order>, o: Order, k: nat, after: seq<Order>) {
    && k <= |orders| && after == orders[..k] + [o] + orders[k..]
    && (forall i :: 0 <= i < k ==> if o.side.Buy? then orders[i].price >= o.price else orders[i].price <= o.price)
    && (forall i :: k <= i < |orders| ==> if o.side.Buy? then orders[i].price < o.price else orders[i].price > o.price)
  }

  lemma InsertIsAt(symbol: string, orders: seq<Order>, o: Order) returns (k: nat)
    requires SideOk(o.side, symbol, orders)
    ensures InsertedAt(orders, o, k, Insert(o.side, orders, o))
  {
    k := Position(o.side, orders, o.price);
    if k < |orders| {
      forall i | k <= i < |orders|
        ensures Ahead(o.side, o.price, orders[i].price)
      {
        assert i == k || !Ahead(o.side, orders[i].price, orders[k].price);
      }
    }
  }

  ghost predicate Joins(orders: seq<Order>, o: Order, after: seq<Order>) {
    exists k: nat :: InsertedAt(orders, o, k, after)
  }

  // ------------------------------------------------------------------ all of it

  /** The answer: the guards decide, in this order. */
  predicate Answers(b: Book, o: Order, ack: Ack) {
    var named, valid := o.symbol == b.symbol, o.id != 0 && o.quantity != 0 && o.price > 0;
    && ack.orderId == o.id
    && (ack.accepted <==> named && valid && !b.Live(o.id))
    && ack.reason == (if !named then "symbol mismatch" else if !valid then "invalid order"
                      else if b.Live(o.id) then "duplicate live order id" else "accepted")
  }

  /** The effect of an accepted order, for both times in force. */
  ghost predicate Executes(b: Book, o: Order, after: Book, fills: seq<Fill>, remaining: nat) {
    var makers := b.On(Opposite(o.side));
    && FillsInTurn(o, makers, fills) && StopsInTime(o, makers, fills)
    && remaining == (if Offered(o, makers) < o.quantity then o.quantity - Offered(o, makers) else 0)
    && LeftBehind(makers, fills, after.On(Opposite(o.side)))
    && (if remaining > 0 && o.tif.GoodTillCancel? then Joins(b.On(o.side), o.(quantity := remaining), after.On(o.side))
        else after.On(o.side) == b.On(o.side))
  }

  lemma AcceptedExecutes(b: Book, o: Order)
    requires Good(b) && Submit(b, o).ack.accepted
    ensures var r := Submit(b, o); Executes(b, o, r.book, r.fills, r.ack.remaining)
  {
    var makers, own := b.On(Opposite(o.side)), b.On(o.side);
    var m := Match(o, o.quantity, makers);
    SubmitParts(b, o);
    MatchInTurn(o, makers, m);
    MatchStopsInTime(o, makers, m);
    MatchLeavesBehind(o, makers, m);
    RemainsBeyondOffer(o, o.quantity, makers);
    var k := InsertIsAt(b.symbol, own, o.(quantity := m.remaining));
  }

  /** A submission as a whole; a refusal changes nothing. */
  ghost predicate Describes(b: Book, o: Order, r: Outcome) {
    && Answers(b, o, r.ack) && r.book.symbol == b.symbol
    && (if r.ack.accepted then Executes(b, o, r.book, r.fills, r.ack.remaining)
        else r.book == b && r.fills == [] && r.ack.remaining == 0)
  }

  /** On a good book, what every submission answers, trades and leaves. */
  lemma SubmitExactly(b: Book, o: Order)
    requires Good(b)
    ensures Describes(b, o, Submit(b, o))
  {
    if Submit(b, o).ack.accepted {
      AcceptedExecutes(b, o);
    }
  }

  // ----------------------------------------------------------------- uniqueness

  lemma NotFewer(o: Order, makers: seq<Order>, fills: seq<Fill>, fills': seq<Fill>)
    requires FillsInTurn(o, makers, fills) && StopsInTime(o, makers, fills) && FillsInTurn(o, makers, fills')
    ensures |fills'| <= |fills|
  {
    assert |fills| < |fills'| ==> WithinLimit(o, fills'[|fills|].price);
  }

  lemma SameFills(o: Order, makers: seq<Order>, fills: seq<Fill>, fills': seq<Fill>)
    requires FillsInTurn(o, makers, fills) && StopsInTime(o, makers, fills)
    requires FillsInTurn(o, makers, fills') && StopsInTime(o, makers, fills')
    ensures fills == fills'
  {
    NotFewer(o, makers, fills, fills');
    NotFewer(o, makers, fills', fills);
  }

  lemma SameLeft(makers: seq<Order>, fills: seq<Fill>, left: seq<Order>, left': seq<Order>)
    requires LeftBehind(makers, fills, left) && LeftBehind(makers, fills, left')
    ensures left == left'
  {}

  lemma NotLater(orders: seq<Order>, o: Order, k: nat, after: seq<Order>, k': nat, after': seq<Order>)
    requires InsertedAt(orders, o, k, after) && InsertedAt(orders, o, k', after')
    ensures k <= k'
  {
    var price := if k' < |orders| then orders[k'].price else o.price;
  }

  lemma SamePlace(orders: seq<Order>, o: Order, after: seq<Order>, after': seq<Order>)
    requires Joins(orders, o, after) && Joins(orders, o, after')
    ensures after == after'
  {
    var k: nat :| InsertedAt(orders, o, k, after);
    var k': nat :| InsertedAt(orders, o, k', after');
    NotLater(orders, o, k, after, k', after');
    NotLater(orders, o, k', after', k, after);
  }

  /** The description leaves no choice: only what `Submit` does meets it. */
  lemma OnlySubmitFits(b: Book, o: Order, r: Outcome)
    requires Good(b) && Describes(b, o, r)
    ensures r == Submit(b, o)
  {
    SubmitExactly(b, o);
    if r.ack.accepted {
      ExecutionIsUnique(b, o, r, Submit(b, o));
    }
  }

  lemma ExecutionIsUnique(b: Book, o: Order, r: Outcome, r': Outcome)
    requires r.book.symbol == r'.book.symbol
    requires Executes(b, o, r.book, r.fills, r.ack.remaining) && Executes(b, o, r'.book, r'.fills, r'.ack.remaining)
    ensures r.book == r'.book && r.fills == r'.fills && r.ack.remaining == r'.ack.remaining
  {
    var makers, own := b.On(Opposite(o.side)), b.On(o.side);
    SameFills(o, makers, r.fills, r'.fills);
    SameLeft(makers, r.fills, r.book.On(Opposite(o.side)), r'.book.On(Opposite(o.side)));
    if r.ack.remaining > 0 && o.tif.GoodTillCancel? {
      SamePlace(own, o.(quantity := r.ack.remaining), r.book.On(o.side), r'.book.On(o.side));
    }
  }

  // -------------------------------------------------------------------- cancels

  /** The order with this id, if it is there, is taken out; the others keep their order. */
  ghost predicate TakenOut(orders: seq<Order>, id: nat, after: seq<Order>) {
    if Holds(orders, id) then exists k :: 0 <= k < |orders| && orders[k].id == id && after == orders[..k] + orders[k + 1..]
    else after == orders
  }

  /** A cancel finds exactly the live ids and takes that one order out of its side. */
  lemma CancelExactly(b: Book, id: nat)
    ensures var (after, found) := Cancel(b, id);
            && (found <==> b.Live(id)) && after.symbol == b.symbol
            && TakenOut(b.bids, id, after.bids) && TakenOut(b.asks, id, after.asks)
  {
    WithoutTakesOut(b.bids, id);
    WithoutTakesOut(b.asks, id);
  }

  lemma WithoutTakesOut(orders: seq<Order>, id: nat)
    ensures TakenOut(orders, id, Without(orders, id))
  {
    var k := FindId(orders, id);
    assert k < |orders| ==> Holds(orders, id);
  }
}
