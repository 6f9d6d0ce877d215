/**
 Whole runs of submits and cancels on one book: the invariants every reachable
 book keeps, conservation of quantity, and time priority.
 */
module BookRuns {
  import opened FlatBook

  datatype Command = New(order: Order) | Pull(id: nat)

  /** Everything a run has produced so far. */
  datatype Journal = Journal(
    book: Book,
    accepted: seq<Order>,   // as submitted
    fills: seq<Fill>,
    cancelled: seq<Order>,  // with the quantity still resting when pulled
    discarded: seq<Order>)  // immediate-or-cancel remainders

  function Start(symbol: string): Journal { Journal(Book(symbol, [], []), [], [], [], []) }

  function Pulled(orders: seq<Order>, id: nat): seq<Order> {
    var k := FindId(orders, id);
    if k < |orders| then [orders[k]] else []
  }

  function Apply(j: Journal, c: Command): Journal {
    match c
    case New(o) =>
      var r := Submit(j.book, o);
      if !r.ack.accepted then j.(book := r.book)
      else j.(book := r.book, accepted := j.accepted + [o], fills := j.fills + r.fills,
              discarded := j.discarded + (if o.tif.ImmediateOrCancel? then [o.(quantity := r.ack.remaining)] else []))
    case Pull(id) =>
      j.(book := Cancel(j.book, id).0,
         cancelled := j.cancelled + (Pulled(j.book.bids, id) + Pulled(j.book.asks, id)))
  }

  function Run(j: Journal, commands: seq<Command>): Journal
    decreases |commands|
  {
    if commands == [] then j else Run(Apply(j, commands[0]), commands[1..])
  }

  // --------------------------------------------------------------- invariants

  lemma ApplyKeepsGood(j: Journal, c: Command)
    requires Good(j.book)
    ensures Good(Apply(j, c).book) && Apply(j, c).book.symbol == j.book.symbol
  {
    match c
    case New(o) => SubmitKeepsGood(j.book, o);
    case Pull(id) => CancelRemovesExactly(j.book, id);
  }

  lemma {:induction false} RunKeepsGood(j: Journal, commands: seq<Command>)
    requires Good(j.book)
    ensures Good(Run(j, commands).book)
    decreases |commands|
  {
    if commands != [] {
      ApplyKeepsGood(j, commands[0]);
      RunKeepsGood(Apply(j, commands[0]), commands[1..]);
    }
  }

  /** After any run the book is uncrossed, in price order, with unique live ids and positive quantities. */
  lemma EveryBookIsGood(symbol: string, commands: seq<Command>)
    ensures Good(Run(Start(symbol), commands).book)
  {
    RunKeepsGood(Start(symbol), commands);
  }

  // ------------------------------------------------------------- conservation

  /** Quantity of the orders whose id satisfies `f`. */
  function Held(f: nat -> bool, orders: seq<Order>): nat {
    if orders == [] then 0
    else (if f(orders[0].id) then orders[0].quantity else 0) + Held(f, orders[1..])
  }

  /** Quantity traded by the ids satisfying `f`, once for each side of a fill. */
  function Traded(f: nat -> bool, fills: seq<Fill>): nat {
    if fills == [] then 0
    else
      (if f(fills[0].takerId) then fills[0].quantity else 0)
      + (if f(fills[0].makerId) then fills[0].quantity else 0)
      + Traded(f, fills[1..])
  }

  lemma {:induction false} HeldAppend(f: nat -> bool, a: seq<Order>, b: seq<Order>)
    ensures Held(f, a + b) == Held(f, a) + Held(f, b)
    decreases |a|
  {
    if a == [] {
      assert a + b == b;
    } else {
      HeldAppend(f, a[1..], b);
      assert (a + b)[1..] == a[1..] + b;
    }
  }

  lemma {:induction false} TradedAppend(f: nat -> bool, a: seq<Fill>, b: seq<Fill>)
    ensures Traded(f, a + b) == Traded(f, a) + Traded(f, b)
    decreases |a|
  {
    if a == [] {
      assert a + b == b;
    } else {
      TradedAppend(f, a[1..], b);
      assert (a + b)[1..] == a[1..] + b;
    }
  }

  lemma HeldAround(f: nat -> bool, orders: seq<Order>, k: nat)
    requires k < |orders|
    ensures Held(f, orders) == Held(f, orders[..k] + orders[k + 1..]) + Held(f, [orders[k]])
  {
    HeldAppend(f, orders[..k], orders[k + 1..]);
    HeldAppend(f, orders[..k], [orders[k]] + orders[k + 1..]);
    HeldAppend(f, [orders[k]], orders[k + 1..]);
    assert orders == orders[..k] + ([orders[k]] + orders[k + 1..]);
  }

  lemma HeldInsert(f: nat -> bool, side: Side, orders: seq<Order>, o: Order)
    ensures Held(f, Insert(side, orders, o)) == Held(f, orders) + Held(f, [o])
  {
    var k, r := Position(side, orders, o.price), Insert(side, orders, o);
    HeldAround(f, r, k);
    assert r[..k] + r[k + 1..] == orders;
  }

  lemma HeldWithout(f: nat -> bool, orders: seq<Order>, id: nat)
    ensures Held(f, orders) == Held(f, Without(orders, id)) + Held(f, Pulled(orders, id))
  {
    var k := FindId(orders, id);
    if k < |orders| {
      HeldAround(f, orders, k);
    }
  }

  /** Matching moves quantity from the taker and the makers into fills, losing none. */
  lemma {:induction false} MatchConserves(f: nat -> bool, o: Order, quantity: nat, makers: seq<Order>)
    ensures var m := Match(o, quantity, makers);
            Held(f, makers) + (if f(o.id) then quantity else 0)
            == Held(f, m.makers) + Traded(f, m.fills) + (if f(o.id) then m.remaining else 0)
    decreases |makers|
  {
    if quantity != 0 && makers != [] && Crosses(o.side, o.price, makers[0].price) {
      var maker := makers[0];
      var traded := Min(quantity, maker.quantity);
      var fill := Fill(o.id, maker.id, o.side, maker.price, traded, o.sequence);
      if traded == maker.quantity {
        MatchConserves(f, o, quantity - traded, makers[1..]);
        var rest := Match(o, quantity - traded, makers[1..]);
        TradedAppend(f, [fill], rest.fills);
      } else {
        HeldAppend(f, [maker.(quantity := maker.quantity - traded)], makers[1..]);
      }
    }
  }

  function FillTotal(fills: seq<Fill>): nat {
    if fills == [] then 0 else fills[0].quantity + FillTotal(fills[1..])
  }

  lemma {:induction false} MatchPaysTheTaker(o: Order, quantity: nat, makers: seq<Order>)
    ensures FillTotal(Match(o, quantity, makers).fills) + Match(o, quantity, makers).remaining == quantity
    decreases |makers|
  {
    if quantity != 0 && makers != [] && Crosses(o.side, o.price, makers[0].price) {
      var traded := Min(quantity, makers[0].quantity);
      if traded == makers[0].quantity {
        MatchPaysTheTaker(o, quantity - traded, makers[1..]);
      }
    }
  }

  /** The taker's own account: its fills and the reported remainder add up to what it asked for. */
  lemma SubmitPaysTheTaker(b: Book, o: Order)
    requires Submit(b, o).ack.accepted
    ensures FillTotal(Submit(b, o).fills) + Submit(b, o).ack.remaining == o.quantity
  {
    MatchPaysTheTaker(o, o.quantity, b.On(Opposite(o.side)));
  }

  /** The books balance for the ids satisfying `f`. */
  ghost predicate Balanced(f: nat -> bool, j: Journal) {
    Held(f, j.accepted)
    == Held(f, j.book.bids) + Held(f, j.book.asks) + Traded(f, j.fills) + Held(f, j.cancelled) + Held(f, j.discarded)
  }

  lemma SubmitConserves(f: nat -> bool, b: Book, o: Order)
    requires Submit(b, o).ack.accepted
    ensures var r := Submit(b, o);
            Held(f, b.bids) + Held(f, b.asks) + Held(f, [o])
            == Held(f, r.book.bids) + Held(f, r.book.asks) + Traded(f, r.fills)
               + (if o.tif.ImmediateOrCancel? then Held(f, [o.(quantity := r.ack.remaining)]) else 0)
  {
    var other := Opposite(o.side);
    var m := Match(o, o.quantity, b.On(other));
    MatchConserves(f, o, o.quantity, b.On(other));
    if m.remaining > 0 && o.tif.GoodTillCancel? {
      HeldInsert(f, o.side, b.On(o.side), o.(quantity := m.remaining));
    }
  }

  lemma ApplyBalances(f: nat -> bool, j: Journal, c: Command)
    requires Balanced(f, j)
    ensures Balanced(f, Apply(j, c))
  {
    match c
    case New(o) =>
      var r := Submit(j.book, o);
      if r.ack.accepted {
        SubmitConserves(f, j.book, o);
        HeldAppend(f, j.accepted, [o]);
        TradedAppend(f, j.fills, r.fills);
        HeldAppend(f, j.discarded, if o.tif.ImmediateOrCancel? then [o.(quantity := r.ack.remaining)] else []);
      }
    case Pull(id) =>
      HeldWithout(f, j.book.bids, id);
      HeldWithout(f, j.book.asks, id);
      HeldAppend(f, Pulled(j.book.bids, id), Pulled(j.book.asks, id));
      HeldAppend(f, j.cancelled, Pulled(j.book.bids, id) + Pulled(j.book.asks, id));
  }

  lemma {:induction false} RunBalances(f: nat -> bool, j: Journal, commands: seq<Command>)
    requires Balanced(f, j)
    ensures Balanced(f, Run(j, commands))
    decreases |commands|
  {
    if commands != [] {
      ApplyBalances(f, j, commands[0]);
      RunBalances(f, Apply(j, commands[0]), commands[1..]);
    }
  }

  /**
   Conservation over whole runs, for any set of ids: what was accepted is resting, traded,
   cancelled or discarded.
   */
  lemma QuantityConserved(f: nat -> bool, symbol: string, commands: seq<Command>)
    ensures Balanced(f, Run(Start(symbol), commands))
  {
    RunBalances(f, Start(symbol), commands);
  }

  lemma {:induction false} EveryFillCountsTwice(f: nat -> bool, fills: seq<Fill>)
    requires forall id :: f(id)
    ensures Traded(f, fills) == 2 * FillTotal(fills)
    decreases |fills|
  {
    if fills != [] {
      EveryFillCountsTwice(f, fills[1..]);
    }
  }

  /** The whole book's account: accepted = resting + 2 * filled + cancelled + discarded. */
  lemma TotalConserved(all: nat -> bool, symbol: string, commands: seq<Command>)
    requires forall id :: all(id)
    ensures var j := Run(Start(symbol), commands);
            Held(all, j.accepted) == Held(all, j.book.bids) + Held(all, j.book.asks) + 2 * FillTotal(j.fills)
                                     + Held(all, j.cancelled) + Held(all, j.discarded)
  {
    QuantityConserved(all, symbol, commands);
    EveryFillCountsTwice(all, Run(Start(symbol), commands).fills);
  }

  // -------------------------------------------------------------- time priority

  /** Among resting orders at one price, nobody waits behind a higher sequence number. */
  ghost predicate LowestFirst(orders: seq<Order>) {
    forall i, j :: 0 <= i < j < |orders| && orders[i].price == orders[j].price ==> orders[i].sequence <= orders[j].sequence
  }

  /** Nobody at the newcomer's price has a higher sequence number than it. */
  ghost predicate Latest(orders: seq<Order>, o: Order) {
    forall i :: 0 <= i < |orders| && orders[i].price == o.price ==> orders[i].sequence <= o.sequence
  }

  /** A newcomer goes behind everyone at its price. */
  lemma InsertAt(side: Side, symbol: string, orders: seq<Order>, o: Order, i: nat)
    requires SideOk(side, symbol, orders) && i < |orders|
    ensures var k, r := Position(side, orders, o.price), Insert(side, orders, o);
            && |r| == |orders| + 1 && r[k] == o && r[if i < k then i else i + 1] == orders[i]
            && (k <= i ==> orders[i].price != o.price)
  {
    var k := Position(side, orders, o.price);
    if k < i {
      assert !Ahead(side, orders[i].price, orders[k].price);
    }
  }

  lemma InsertStaysOrdered(side: Side, symbol: string, orders: seq<Order>, o: Order)
    requires SideOk(side, symbol, orders) && LowestFirst(orders) && Latest(orders, o)
    ensures LowestFirst(Insert(side, orders, o))
  {
    var k, r := Position(side, orders, o.price), Insert(side, orders, o);
    forall i, j | 0 <= i < j < |r| && r[i].price == r[j].price
      ensures r[i].sequence <= r[j].sequence
    {
      if i != k {
        InsertAt(side, symbol, orders, o, if i < k then i else i - 1);
      }
      if j != k {
        InsertAt(side, symbol, orders, o, if j < k then j else j - 1);
      }
    }
  }

  lemma InsertWasOrdered(side: Side, symbol: string, orders: seq<Order>, o: Order)
    requires SideOk(side, symbol, orders) && LowestFirst(Insert(side, orders, o))
    ensures LowestFirst(orders) && Latest(orders, o)
  {
    forall i, j | 0 <= i < j < |orders| && orders[i].price == orders[j].price
      ensures orders[i].sequence <= orders[j].sequence
    {
      InsertAt(side, symbol, orders, o, i);
      InsertAt(side, symbol, orders, o, j);
    }
    forall i | 0 <= i < |orders| && orders[i].price == o.price
      ensures orders[i].sequence <= o.sequence
    {
      InsertAt(side, symbol, orders, o, i);
    }
  }

  /** Queueing a newcomer leaves a side lowest-first exactly if it was and the newcomer is the latest at its price. */
  lemma InsertKeepsOrder(side: Side, symbol: string, orders: seq<Order>, o: Order)
    requires SideOk(side, symbol, orders)
    ensures LowestFirst(Insert(side, orders, o)) <==> LowestFirst(orders) && Latest(orders, o)
  {
    if LowestFirst(Insert(side, orders, o)) {
      InsertWasOrdered(side, symbol, orders, o);
    } else if LowestFirst(orders) && Latest(orders, o) {
      InsertStaysOrdered(side, symbol, orders, o);
    }
  }

  lemma MatchKeepsOrder(o: Order, quantity: nat, makers: seq<Order>)
    requires Positive(makers) && LowestFirst(makers)
    ensures LowestFirst(Match(o, quantity, makers).makers)
  {
    var left := Match(o, quantity, makers).makers;
    forall i, j | 0 <= i < j < |left| && left[i].price == left[j].price
      ensures left[i].sequence <= left[j].sequence
    {
      MakersLeftAt(o, quantity, makers, i);
      MakersLeftAt(o, quantity, makers, j);
    }
  }

  lemma WithoutKeepsOrder(orders: seq<Order>, id: nat)
    requires LowestFirst(orders)
    ensures LowestFirst(Without(orders, id))
  {
    var r := Without(orders, id);
    forall i, j | 0 <= i < j < |r| && r[i].price == r[j].price
      ensures r[i].sequence <= r[j].sequence
    {
      WithoutAt(orders, id, i);
      WithoutAt(orders, id, j);
    }
  }

  /** Both sides of the book are served lowest sequence number first. */
  ghost predicate BySequence(b: Book) { LowestFirst(b.bids) && LowestFirst(b.asks) }

  /** What the makers ahead that cross the order's limit have to offer. */
  function Offered(o: Order, makers: seq<Order>): nat {
    if makers == [] || !Crosses(o.side, o.price, makers[0].price) then 0 else makers[0].quantity + Offered(o, makers[1..])
  }

  /** The order passes the guards, wants more than is offered to it, and may stay. */
  predicate Rests(b: Book, o: Order) {
    && o.symbol == b.symbol && o.id != 0 && o.quantity != 0 && o.price > 0 && !b.Live(o.id)
    && Offered(o, b.On(Opposite(o.side))) < o.quantity && o.tif.GoodTillCancel?
  }

  lemma {:induction false} RemainsBeyondOffer(o: Order, quantity: nat, makers: seq<Order>)
    ensures Match(o, quantity, makers).remaining == if Offered(o, makers) < quantity then quantity - Offered(o, makers) else 0
    decreases |makers|
  {
    if quantity > 0 && makers != [] && Crosses(o.side, o.price, makers[0].price) && makers[0].quantity <= quantity {
      RemainsBeyondOffer(o, quantity - makers[0].quantity, makers[1..]);
    }
  }

  /** The guards and the offer, known before the call, decide whether a submit leaves an order resting. */
  lemma RestsExactly(b: Book, o: Order)
    ensures Rests(b, o) <==> Submit(b, o).ack.accepted && Submit(b, o).ack.remaining > 0 && o.tif.GoodTillCancel?
  {
    RemainsBeyondOffer(o, o.quantity, b.On(Opposite(o.side)));
  }

  /** After a submit the book is still by sequence exactly if nothing rests or the order is the latest at its price. */
  lemma SubmitKeepsOrder(b: Book, o: Order)
    requires Good(b) && BySequence(b)
    ensures BySequence(Submit(b, o).book) <==> (Rests(b, o) ==> Latest(b.On(o.side), o))
  {
    RestsExactly(b, o);
    if Submit(b, o).ack.accepted {
      MatchKeepsOrder(o, o.quantity, b.On(Opposite(o.side)));
      RestKeepsOrder(b.symbol, b.On(o.side), o, Submit(b, o).ack.remaining);
    }
  }

  lemma RestKeepsOrder(symbol: string, orders: seq<Order>, o: Order, remaining: nat)
    requires SideOk(o.side, symbol, orders) && LowestFirst(orders)
    ensures LowestFirst(Insert(o.side, orders, o.(quantity := remaining))) <==> Latest(orders, o)
  {
    InsertKeepsOrder(o.side, symbol, orders, o.(quantity := remaining));
    assert Latest(orders, o.(quantity := remaining)) == Latest(orders, o);
  }

  /** The book is by sequence now and after every command of the run. */
  ghost predicate AlwaysBySequence(j: Journal, commands: seq<Command>)
    decreases |commands|
  {
    BySequence(j.book) && (commands == [] || AlwaysBySequence(Apply(j, commands[0]), commands[1..]))
  }

  /** Every order of the run that comes to rest is the latest at its price when it does. */
  ghost predicate RestsInOrder(j: Journal, commands: seq<Command>)
    decreases |commands|
  {
    commands == []
    || (&& (commands[0].New? && Rests(j.book, commands[0].order) ==> Latest(j.book.On(commands[0].order.side), commands[0].order))
        && RestsInOrder(Apply(j, commands[0]), commands[1..]))
  }

  lemma ApplyKeepsOrder(j: Journal, c: Command)
    requires Good(j.book) && BySequence(j.book)
    ensures BySequence(Apply(j, c).book) <==> (c.New? && Rests(j.book, c.order) ==> Latest(j.book.On(c.order.side), c.order))
  {
    match c
    case New(o) => SubmitKeepsOrder(j.book, o);
    case Pull(id) =>
      WithoutKeepsOrder(j.book.bids, id);
      WithoutKeepsOrder(j.book.asks, id);
  }

  lemma {:induction false} RunKeepsOrder(j: Journal, commands: seq<Command>)
    requires Good(j.book) && BySequence(j.book)
    ensures AlwaysBySequence(j, commands) <==> RestsInOrder(j, commands)
    decreases |commands|
  {
    if commands != [] {
      ApplyKeepsOrder(j, commands[0]);
      ApplyKeepsGood(j, commands[0]);
      if BySequence(Apply(j, commands[0]).book) {
        RunKeepsOrder(Apply(j, commands[0]), commands[1..]);
      }
    }
  }

  /**
   Arrival order is priority by sequence number, throughout a run, exactly if every order that comes
   to rest is the latest at its price.
   */
  lemma PriorityExactly(symbol: string, commands: seq<Command>)
    ensures AlwaysBySequence(Start(symbol), commands) <==> RestsInOrder(Start(symbol), commands)
  {
    RunKeepsOrder(Start(symbol), commands);
  }

  // ------------------------------------------ when arrivals carry rising numbers

  ghost predicate NoNewer(orders: seq<Order>, last: nat) {
    forall i :: 0 <= i < |orders| ==> orders[i].sequence <= last
  }

  /** Nothing in the book is newer than `last`. */
  ghost predicate NothingNewer(b: Book, last: nat) { NoNewer(b.bids, last) && NoNewer(b.asks, last) }

  /** No submitted order carries a lower sequence number than one submitted before it. */
  ghost predicate NonDecreasing(commands: seq<Command>, last: nat)
    decreases |commands|
  {
    commands == []
    || (match commands[0]
        case New(o) => last <= o.sequence && NonDecreasing(commands[1..], o.sequence)
        case Pull(_) => NonDecreasing(commands[1..], last))
  }

  lemma MatchKeepsNoNewer(o: Order, quantity: nat, makers: seq<Order>, last: nat)
    requires Positive(makers) && NoNewer(makers, last)
    ensures NoNewer(Match(o, quantity, makers).makers, last)
  {
    forall i | 0 <= i < |Match(o, quantity, makers).makers| {
      MakersLeftAt(o, quantity, makers, i);
    }
  }

  lemma InsertKeepsNoNewer(side: Side, orders: seq<Order>, o: Order, last: nat)
    requires NoNewer(orders, last) && o.sequence <= last
    ensures NoNewer(Insert(side, orders, o), last)
  {
    InsertElements(side, orders, o);
  }

  lemma SubmitKeepsNothingNewer(b: Book, o: Order, last: nat)
    requires Good(b) && NothingNewer(b, last) && last <= o.sequence
    ensures NothingNewer(Submit(b, o).book, o.sequence)
  {
    if Submit(b, o).ack.accepted {
      MatchKeepsNoNewer(o, o.quantity, b.On(Opposite(o.side)), last);
      InsertKeepsNoNewer(o.side, b.On(o.side), o.(quantity := Submit(b, o).ack.remaining), o.sequence);
    }
  }

  lemma CancelKeepsNothingNewer(b: Book, id: nat, last: nat)
    requires NothingNewer(b, last)
    ensures NothingNewer(Cancel(b, id).0, last)
  {
    forall i | 0 <= i < |Without(b.bids, id)| {
      WithoutAt(b.bids, id, i);
    }
    forall i | 0 <= i < |Without(b.asks, id)| {
      WithoutAt(b.asks, id, i);
    }
  }

  lemma {:induction false} RisingRestsInOrder(j: Journal, commands: seq<Command>, last: nat)
    requires Good(j.book) && NothingNewer(j.book, last) && NonDecreasing(commands, last)
    ensures RestsInOrder(j, commands)
    decreases |commands|
  {
    if commands != [] {
      ApplyKeepsGood(j, commands[0]);
      match commands[0]
      case New(o) =>
        SubmitKeepsNothingNewer(j.book, o, last);
        RisingRestsInOrder(Apply(j, commands[0]), commands[1..], o.sequence);
      case Pull(id) =>
        CancelKeepsNothingNewer(j.book, id, last);
        RisingRestsInOrder(Apply(j, commands[0]), commands[1..], last);
    }
  }

  lemma {:induction false} BySequenceAtEnd(j: Journal, commands: seq<Command>)
    requires AlwaysBySequence(j, commands)
    ensures BySequence(Run(j, commands).book)
    decreases |commands|
  {
    if commands != [] {
      BySequenceAtEnd(Apply(j, commands[0]), commands[1..]);
    }
  }

  /** In particular it is when arrivals never carry a lower sequence number than an earlier one. */
  lemma PriorityIsBySequence(symbol: string, commands: seq<Command>)
    requires NonDecreasing(commands, 0)
    ensures AlwaysBySequence(Start(symbol), commands) && BySequence(Run(Start(symbol), commands).book)
  {
    RisingRestsInOrder(Start(symbol), commands, 0);
    PriorityExactly(symbol, commands);
    BySequenceAtEnd(Start(symbol), commands);
  }
}
