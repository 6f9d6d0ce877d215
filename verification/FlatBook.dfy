/**
 The order book at its simplest: each side one list of resting orders in
 price-then-arrival order, and a submit that walks the opposing list greedily.
 `OrderBook` refines it; what it promises over whole runs is proved in `BookRuns`.
 */
module FlatBook {

  datatype Side = Buy | Sell
  datatype TimeInForce = GoodTillCancel | ImmediateOrCancel

  datatype Order = Order(id: nat, symbol: string, side: Side, price: int, quantity: nat, sequence: nat, tif: TimeInForce)
  datatype Fill = Fill(takerId: nat, makerId: nat, takerSide: Side, price: int, quantity: nat, sequence: nat)
  datatype Ack = Ack(orderId: nat, accepted: bool, remaining: nat, reason: string)

  function Min(a: nat, b: nat): nat { if a <= b then a else b }

  /** A taker on `side` with limit `limit` accepts a maker's price. */
  predicate Crosses(side: Side, limit: int, makerPrice: int) {
    if side.Buy? then makerPrice <= limit else makerPrice >= limit
  }

  /** On the resting side `side`, price `p` is strictly ahead of price `q`. */
  predicate Ahead(side: Side, p: int, q: int) {
    if side.Buy? then p > q else p < q
  }

  function Opposite(side: Side): Side { if side.Buy? then Sell else Buy }

  // --------------------------------------------------------- greedy matching

  datatype Matched = Matched(fills: seq<Fill>, makers: seq<Order>, remaining: nat)

  function Match(o: Order, quantity: nat, makers: seq<Order>): Matched
    decreases |makers|
  {
    if quantity == 0 || makers == [] || !Crosses(o.side, o.price, makers[0].price) then Matched([], makers, quantity)
    else
      var maker := makers[0];
      var traded := Min(quantity, maker.quantity);
      var fill := Fill(o.id, maker.id, o.side, maker.price, traded, o.sequence);
      if traded == maker.quantity then
        var rest := Match(o, quantity - traded, makers[1..]);
        Matched([fill] + rest.fills, rest.makers, rest.remaining)
      else Matched([fill], [maker.(quantity := maker.quantity - traded)] + makers[1..], 0)
  }

  /** Total quantity of the first `n` makers. */
  function Before(makers: seq<Order>, n: nat): nat
    requires n <= |makers|
  {
    if n == 0 then 0 else makers[0].quantity + Before(makers[1..], n - 1)
  }

  ghost predicate Positive(makers: seq<Order>) {
    forall i :: 0 <= i < |makers| ==> makers[i].quantity > 0
  }

  lemma {:induction false} FillAt(o: Order, quantity: nat, makers: seq<Order>, i: nat)
    requires Positive(makers) && i < |Match(o, quantity, makers).fills|
    ensures i < |makers| && Crosses(o.side, o.price, makers[i].price) && Before(makers, i) < quantity
    ensures Match(o, quantity, makers).fills[i]
            == Fill(o.id, makers[i].id, o.side, makers[i].price, Min(makers[i].quantity, quantity - Before(makers, i)), o.sequence)
    decreases i
  {
    if i > 0 {
      FillAt(o, quantity - makers[0].quantity, makers[1..], i - 1);
    }
  }

  lemma {:induction false} WalkEnds(o: Order, quantity: nat, makers: seq<Order>)
    requires Positive(makers)
    ensures var m := Match(o, quantity, makers);
            var n := |m.fills|;
            && n <= |makers|
            && m.remaining == (if Before(makers, n) <= quantity then quantity - Before(makers, n) else 0)
            && (m.remaining == 0 || n == |makers| || !Crosses(o.side, o.price, makers[n].price))
    decreases |makers|
  {
    if quantity != 0 && makers != [] && Crosses(o.side, o.price, makers[0].price) {
      if makers[0].quantity <= quantity {
        WalkEnds(o, quantity - makers[0].quantity, makers[1..]);
      } else {
        assert Before(makers, 1) == makers[0].quantity + Before(makers[1..], 0);
      }
    }
  }

  /**
   The fills in closed form: the i-th names the i-th maker, at the maker's price, for what the
   makers ahead of it left over; the walk stops only when nothing is left to trade with.
   */
  lemma FillsInClosedForm(o: Order, quantity: nat, makers: seq<Order>)
    requires Positive(makers)
    ensures var m := Match(o, quantity, makers);
            var n := |m.fills|;
            && n <= |makers|
            && (forall i :: 0 <= i < n ==>
                  && Crosses(o.side, o.price, makers[i].price)
                  && Before(makers, i) < quantity
                  && m.fills[i] == Fill(o.id, makers[i].id, o.side, makers[i].price,
                                        Min(makers[i].quantity, quantity - Before(makers, i)), o.sequence))
            && m.remaining == (if Before(makers, n) <= quantity then quantity - Before(makers, n) else 0)
            && (m.remaining == 0 || n == |makers| || !Crosses(o.side, o.price, makers[n].price))
  {
    WalkEnds(o, quantity, makers);
    forall i | 0 <= i < |Match(o, quantity, makers).fills| {
      FillAt(o, quantity, makers, i);
    }
  }

  /** What stays of the makers: the filled ones are gone, at most the next one shrinks, the rest is untouched. */
  lemma {:induction false} MakersLeft(o: Order, quantity: nat, makers: seq<Order>)
    requires Positive(makers)
    ensures var m := Match(o, quantity, makers);
            var gone := |makers| - |m.makers|;
            && 0 <= gone <= |m.fills| <= gone + 1
            && (if |m.fills| == gone then m.makers == makers[gone..]
                else && m.remaining == 0 && m.makers != []
                     && gone < |makers| && 0 < m.makers[0].quantity < makers[gone].quantity
                     && m.makers == [makers[gone].(quantity := m.makers[0].quantity)] + makers[gone + 1..])
    decreases |makers|
  {
    if quantity != 0 && makers != [] && Crosses(o.side, o.price, makers[0].price) {
      var traded := Min(quantity, makers[0].quantity);
      if traded == makers[0].quantity {
        MakersLeft(o, quantity - traded, makers[1..]);
      }
    }
  }

  /** The i-th maker left is an old one in everything but its quantity. */
  lemma MakersLeftAt(o: Order, quantity: nat, makers: seq<Order>, i: nat)
    requires Positive(makers) && i < |Match(o, quantity, makers).makers|
    ensures var left := Match(o, quantity, makers).makers;
            && |left| <= |makers|
            && left[i] == makers[|makers| - |left| + i].(quantity := left[i].quantity)
            && left[i].quantity > 0
  {
    MakersLeft(o, quantity, makers);
  }

  // ------------------------------------------------------------------ the book

  datatype Book = Book(symbol: string, bids: seq<Order>, asks: seq<Order>)
  {
    function On(side: Side): seq<Order> { if side.Buy? then bids else asks }

    function With(side: Side, orders: seq<Order>): Book {
      if side.Buy? then Book(symbol, orders, asks) else Book(symbol, bids, orders)
    }

    predicate Live(id: nat) { Holds(bids, id) || Holds(asks, id) }
  }

  predicate Holds(orders: seq<Order>, id: nat) {
    exists i :: 0 <= i < |orders| && orders[i].id == id
  }

  /** How many resting orders come before a newcomer at `price`: those at least as good. */
  function Position(side: Side, orders: seq<Order>, price: int): (k: nat)
    ensures k <= |orders|
    ensures forall i :: 0 <= i < k ==> !Ahead(side, price, orders[i].price)
    ensures k < |orders| ==> Ahead(side, price, orders[k].price)
  {
    if orders == [] || Ahead(side, price, orders[0].price) then 0
    else 1 + Position(side, orders[1..], price)
  }

  function Insert(side: Side, orders: seq<Order>, o: Order): seq<Order> {
    var k := Position(side, orders, o.price);
    orders[..k] + [o] + orders[k..]
  }

  datatype Outcome = Outcome(book: Book, ack: Ack, fills: seq<Fill>)

  function Rest(b: Book, o: Order, remaining: nat): Book {
    if remaining > 0 && o.tif.GoodTillCancel? then
      b.With(o.side, Insert(o.side, b.On(o.side), o.(quantity := remaining)))
    else b
  }

  function Submit(b: Book, o: Order): Outcome {
    if o.symbol != b.symbol then Outcome(b, Ack(o.id, false, 0, "symbol mismatch"), [])
    else if o.id == 0 || o.quantity == 0 || o.price <= 0 then Outcome(b, Ack(o.id, false, 0, "invalid order"), [])
    else if b.Live(o.id) then Outcome(b, Ack(o.id, false, 0, "duplicate live order id"), [])
    else
      var m := Match(o, o.quantity, b.On(Opposite(o.side)));
      Outcome(Rest(b.With(Opposite(o.side), m.makers), o, m.remaining), Ack(o.id, true, m.remaining, "accepted"), m.fills)
  }

  /** First position of an order with this id, or the length if there is none. */
  function FindId(orders: seq<Order>, id: nat): (k: nat)
    ensures k <= |orders|
    ensures k < |orders| ==> orders[k].id == id
    ensures forall i :: 0 <= i < k ==> orders[i].id != id
  {
    if orders == [] || orders[0].id == id then 0 else 1 + FindId(orders[1..], id)
  }

  function RemoveAt<T>(s: seq<T>, k: nat): seq<T>
    requires k < |s|
  {
    s[..k] + s[k + 1..]
  }

  function Without(orders: seq<Order>, id: nat): seq<Order> {
    var k := FindId(orders, id);
    if k < |orders| then RemoveAt(orders, k) else orders
  }

  function Cancel(b: Book, id: nat): (Book, bool) {
    (Book(b.symbol, Without(b.bids, id), Without(b.asks, id)), b.Live(id))
  }

  // --------------------------------------------------------------- invariants

  predicate OrderOk(side: Side, symbol: string, o: Order) {
    o.side == side && o.symbol == symbol && o.quantity > 0 && o.id > 0 && o.price > 0 && o.tif.GoodTillCancel?
  }

  ghost predicate SideOk(side: Side, symbol: string, orders: seq<Order>) {
    && (forall i :: 0 <= i < |orders| ==> OrderOk(side, symbol, orders[i]))
    && (forall i, j :: 0 <= i < j < |orders| ==> !Ahead(side, orders[j].price, orders[i].price))
    && (forall i, j :: 0 <= i < j < |orders| ==> orders[i].id != orders[j].id)
  }

  ghost predicate DisjointIds(a: seq<Order>, b: seq<Order>) {
    forall i, j :: 0 <= i < |a| && 0 <= j < |b| ==> a[i].id != b[j].id
  }

  ghost predicate Uncrossed(bids: seq<Order>, asks: seq<Order>) {
    forall i, j :: 0 <= i < |bids| && 0 <= j < |asks| ==> bids[i].price < asks[j].price
  }

  ghost predicate Good(b: Book) {
    && SideOk(Buy, b.symbol, b.bids) && SideOk(Sell, b.symbol, b.asks)
    && DisjointIds(b.bids, b.asks) && Uncrossed(b.bids, b.asks)
  }

  /** Removing filled makers and shrinking one keeps a side in order. */
  lemma MatchKeepsSide(o: Order, quantity: nat, side: Side, symbol: string, makers: seq<Order>)
    requires SideOk(side, symbol, makers)
    ensures SideOk(side, symbol, Match(o, quantity, makers).makers)
  {
    var left := Match(o, quantity, makers).makers;
    forall i | 0 <= i < |left|
      ensures OrderOk(side, symbol, left[i])
    {
      MakersLeftAt(o, quantity, makers, i);
    }
    forall i, j | 0 <= i < j < |left|
      ensures !Ahead(side, left[j].price, left[i].price) && left[i].id != left[j].id
    {
      MakersLeftAt(o, quantity, makers, i);
      MakersLeftAt(o, quantity, makers, j);
    }
  }

  /** If anything is left to trade, no crossing maker is. */
  lemma NothingLeftCrosses(o: Order, quantity: nat, side: Side, symbol: string, makers: seq<Order>)
    requires SideOk(side, symbol, makers) && side == Opposite(o.side)
    ensures var m := Match(o, quantity, makers);
            m.remaining > 0 ==> forall i :: 0 <= i < |m.makers| ==> !Crosses(o.side, o.price, m.makers[i].price)
  {
    MakersLeft(o, quantity, makers);
    FillsInClosedForm(o, quantity, makers);
  }

  lemma InsertKeepsSide(side: Side, symbol: string, orders: seq<Order>, o: Order)
    requires SideOk(side, symbol, orders) && OrderOk(side, symbol, o) && !Holds(orders, o.id)
    ensures SideOk(side, symbol, Insert(side, orders, o))
  {
    var k := Position(side, orders, o.price);
    var r := Insert(side, orders, o);
    forall i | 0 <= i < |r|
      ensures r[i] == if i < k then orders[i] else if i == k then o else orders[i - 1]
    {}
  }

  lemma InsertElements(side: Side, orders: seq<Order>, o: Order)
    ensures var r := Insert(side, orders, o);
            && |r| == |orders| + 1
            && (forall i :: 0 <= i < |r| ==> r[i] == o || r[i] in orders)
            && o in r && forall x :: x in orders ==> x in r
  {
    var k := Position(side, orders, o.price);
    var r := Insert(side, orders, o);
    assert r[k] == o;
    forall x | x in orders
      ensures x in r
    {
      var i :| 0 <= i < |orders| && orders[i] == x;
      assert x == if i < k then r[i] else r[i + 1];
    }
  }

  /** A side whose orders all stem from the old ones leaves the book good. */
  lemma ShrinkKeepsGood(b: Book, side: Side, orders: seq<Order>)
    requires Good(b) && SideOk(side, b.symbol, orders)
    requires forall i :: 0 <= i < |orders| ==>
               exists j :: 0 <= j < |b.On(side)| && orders[i].id == b.On(side)[j].id && orders[i].price == b.On(side)[j].price
    ensures Good(b.With(side, orders))
  {
    var b' := b.With(side, orders);
    forall i, k | 0 <= i < |orders| && 0 <= k < |b.On(Opposite(side))|
      ensures orders[i].id != b.On(Opposite(side))[k].id
      ensures Crosses(side, orders[i].price, b.On(Opposite(side))[k].price) == false
    {
      var j :| 0 <= j < |b.On(side)| && orders[i].id == b.On(side)[j].id && orders[i].price == b.On(side)[j].price;
    }
  }

  lemma RestKeepsGood(b: Book, o: Order)
    requires Good(b) && OrderOk(o.side, b.symbol, o) && !b.Live(o.id)
    requires forall i :: 0 <= i < |b.On(Opposite(o.side))| ==>
               !Crosses(o.side, o.price, b.On(Opposite(o.side))[i].price)
    ensures Good(b.With(o.side, Insert(o.side, b.On(o.side), o)))
  {
    var orders, others := b.On(o.side), b.On(Opposite(o.side));
    InsertKeepsSide(o.side, b.symbol, orders, o);
    InsertElements(o.side, orders, o);
    var r := Insert(o.side, orders, o);
    forall i, k | 0 <= i < |r| && 0 <= k < |others|
      ensures r[i].id != others[k].id && !Crosses(o.side, r[i].price, others[k].price)
    {
      if r[i] != o {
        var j :| 0 <= j < |orders| && orders[j] == r[i];
      }
    }
  }

  lemma MatchedBookGood(b: Book, o: Order)
    requires Good(b)
    ensures var mid := b.With(Opposite(o.side), Match(o, o.quantity, b.On(Opposite(o.side))).makers);
            Good(mid) && forall id :: mid.Live(id) ==> b.Live(id)
  {
    var other := Opposite(o.side);
    var makers := b.On(other);
    MatchKeepsSide(o, o.quantity, other, b.symbol, makers);
    var left := Match(o, o.quantity, makers).makers;
    forall i | 0 <= i < |left|
      ensures exists j :: 0 <= j < |makers| && left[i].id == makers[j].id && left[i].price == makers[j].price
    {
      MakersLeftAt(o, o.quantity, makers, i);
      var j := |makers| - |left| + i;
      assert left[i].id == makers[j].id && left[i].price == makers[j].price;
    }
    ShrinkKeepsGood(b, other, left);
  }

  /** Submitting keeps the book good: uncrossed, ordered, live ids unique, quantities positive. */
  lemma SubmitKeepsGood(b: Book, o: Order)
    requires Good(b)
    ensures Good(Submit(b, o).book)
  {
    if Submit(b, o).ack.accepted {
      var other := Opposite(o.side);
      var m := Match(o, o.quantity, b.On(other));
      MatchedBookGood(b, o);
      if m.remaining > 0 && o.tif.GoodTillCancel? {
        NothingLeftCrosses(o, o.quantity, other, b.symbol, b.On(other));
        RestKeepsGood(b.With(other, m.makers), o.(quantity := m.remaining));
      }
    }
  }

  lemma WithoutAt(orders: seq<Order>, id: nat, i: nat)
    requires i < |Without(orders, id)|
    ensures var k := FindId(orders, id);
            i + 1 <= |orders| && (k <= i ==> i + 1 < |orders|)
            && Without(orders, id)[i] == if i < k then orders[i] else orders[i + 1]
  {}

  lemma WithoutKeepsSide(side: Side, symbol: string, orders: seq<Order>, id: nat)
    requires SideOk(side, symbol, orders)
    ensures SideOk(side, symbol, Without(orders, id))
  {
    var r := Without(orders, id);
    forall i | 0 <= i < |r|
      ensures OrderOk(side, symbol, r[i])
    {
      WithoutAt(orders, id, i);
    }
    forall i, j | 0 <= i < j < |r|
      ensures !Ahead(side, r[j].price, r[i].price) && r[i].id != r[j].id
    {
      WithoutAt(orders, id, i);
      WithoutAt(orders, id, j);
    }
  }

  lemma WithoutElements(side: Side, symbol: string, orders: seq<Order>, id: nat, o: Order)
    requires SideOk(side, symbol, orders)
    ensures o in Without(orders, id) <==> o in orders && o.id != id
  {
    var k, r := FindId(orders, id), Without(orders, id);
    if o in r {
      var i :| 0 <= i < |r| && r[i] == o;
      WithoutAt(orders, id, i);
    }
    if o in orders && o.id != id {
      var i :| 0 <= i < |orders| && orders[i] == o;
      WithoutAt(orders, id, if i < k then i else i - 1);
    }
  }

  /** A cancel succeeds exactly for live ids, removes that order and nothing else, and keeps the book good. */
  lemma CancelRemovesExactly(b: Book, id: nat)
    requires Good(b)
    ensures var (b', found) := Cancel(b, id);
            && Good(b') && (found <==> b.Live(id)) && (!found ==> b' == b)
            && (forall o :: o in b'.bids <==> o in b.bids && o.id != id)
            && (forall o :: o in b'.asks <==> o in b.asks && o.id != id)
            && |b'.bids| + |b'.asks| == |b.bids| + |b.asks| - (if found then 1 else 0)
  {
    WithoutKeepsSide(Buy, b.symbol, b.bids, id);
    WithoutKeepsSide(Sell, b.symbol, b.asks, id);
    var b' := Cancel(b, id).0;
    forall o
      ensures o in b'.bids <==> o in b.bids && o.id != id
      ensures o in b'.asks <==> o in b.asks && o.id != id
    {
      WithoutElements(Buy, b.symbol, b.bids, id, o);
      WithoutElements(Sell, b.symbol, b.asks, id, o);
    }
    forall i, j | 0 <= i < |b'.bids| && 0 <= j < |b'.asks|
      ensures b'.bids[i].id != b'.asks[j].id && b'.bids[i].price < b'.asks[j].price
    {
      assert b'.bids[i] in b.bids && b'.asks[j] in b.asks;
    }
  }
}
