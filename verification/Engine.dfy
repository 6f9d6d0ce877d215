/**
 `MatchingEngine`: stamps a sequence number on orders that carry none and routes
 each request to its symbol's book.  The symbols never influence one another.
 */
module EngineModel {
  import opened FlatBook
  import opened BookRuns
  import opened BookSubmits

  datatype Request = Place(order: Order) | Revoke(symbol: string, id: nat)
  datatype Reply = Placed(ack: Ack, fills: seq<Fill>) | Revoked(found: bool)

  datatype Engine = Engine(nextSequence: nat, books: map<string, Book>)
  {
    /** `book(symbol)`: a book is created empty on first use. */
    function BookOf(symbol: string): Book {
      if symbol in books then books[symbol] else Book(symbol, [], [])
    }
  }

  function SymbolOf(r: Request): string {
    if r.Place? then r.order.symbol else r.symbol
  }

  function Stamp(nextSequence: nat, o: Order): Order {
    if o.sequence == 0 then o.(sequence := nextSequence) else o
  }

  function NextAfter(nextSequence: nat, r: Request): nat {
    if r.Place? && r.order.sequence == 0 then nextSequence + 1 else nextSequence
  }

  function Step(e: Engine, r: Request): Engine {
    var b := e.BookOf(SymbolOf(r));
    Engine(NextAfter(e.nextSequence, r),
           e.books[SymbolOf(r) := if r.Place? then Submit(b, Stamp(e.nextSequence, r.order)).book else Cancel(b, r.id).0])
  }

  function Answer(e: Engine, r: Request): Reply {
    var b := e.BookOf(SymbolOf(r));
    if r.Place? then
      var outcome := Submit(b, Stamp(e.nextSequence, r.order));
      Placed(outcome.ack, outcome.fills)
    else Revoked(Cancel(b, r.id).1)
  }

  /** Creating an empty book on first use does not change what a request does. */
  lemma PreparedStep(e: Engine, r: Request)
    ensures var prepared := e.(books := e.books[SymbolOf(r) := e.BookOf(SymbolOf(r))]);
            && prepared.BookOf(SymbolOf(r)) == e.BookOf(SymbolOf(r))
            && Step(prepared, r) == Step(e, r) && Answer(prepared, r) == Answer(e, r)
  {
    var symbol := SymbolOf(r);
    var prepared := e.(books := e.books[symbol := e.BookOf(symbol)]);
    assert prepared.BookOf(symbol) == e.BookOf(symbol);
    var b := if r.Place? then Submit(e.BookOf(symbol), Stamp(e.nextSequence, r.order)).book else Cancel(e.BookOf(symbol), r.id).0;
    assert prepared.books[symbol := b] == e.books[symbol := b];
  }

  function RunEngine(e: Engine, requests: seq<Request>): Engine
    decreases |requests|
  {
    if requests == [] then e else RunEngine(Step(e, requests[0]), requests[1..])
  }

  /** The replies to the requests that name `symbol`, in order, from the shared engine. */
  function RepliesFor(symbol: string, e: Engine, requests: seq<Request>): seq<Reply>
    decreases |requests|
  {
    if requests == [] then []
    else
      (if SymbolOf(requests[0]) == symbol then [Answer(e, requests[0])] else [])
      + RepliesFor(symbol, Step(e, requests[0]), requests[1..])
  }

  // ------------------------------------------------------------- a lone book

  /** The commands a symbol's book sees: its requests only, already stamped. */
  function CommandsFor(symbol: string, nextSequence: nat, requests: seq<Request>): seq<Command>
    decreases |requests|
  {
    if requests == [] then []
    else
      var r := requests[0];
      (if SymbolOf(r) != symbol then []
       else if r.Place? then [New(Stamp(nextSequence, r.order))]
       else [Pull(r.id)])
      + CommandsFor(symbol, NextAfter(nextSequence, r), requests[1..])
  }

  function LoneAnswer(b: Book, c: Command): Reply {
    match c
    case New(o) => Placed(Submit(b, o).ack, Submit(b, o).fills)
    case Pull(id) => Revoked(Cancel(b, id).1)
  }

  function LoneReplies(j: Journal, commands: seq<Command>): seq<Reply>
    decreases |commands|
  {
    if commands == [] then []
    else [LoneAnswer(j.book, commands[0])] + LoneReplies(Apply(j, commands[0]), commands[1..])
  }

  /** From any state, a symbol's replies and its book are those of a lone book fed its commands alone. */
  lemma {:induction false} Isolation(symbol: string, e: Engine, requests: seq<Request>, j: Journal)
    requires j.book == e.BookOf(symbol)
    ensures var commands := CommandsFor(symbol, e.nextSequence, requests);
            && RepliesFor(symbol, e, requests) == LoneReplies(j, commands)
            && RunEngine(e, requests).BookOf(symbol) == Run(j, commands).book
    decreases |requests|
  {
    if requests != [] {
      var r, e' := requests[0], Step(e, requests[0]);
      var later := CommandsFor(symbol, e'.nextSequence, requests[1..]);
      if SymbolOf(r) == symbol {
        var c := if r.Place? then New(Stamp(e.nextSequence, r.order)) else Pull(r.id);
        var commands := CommandsFor(symbol, e.nextSequence, requests);
        assert commands == [c] + later;
        assert commands[0] == c && commands[1..] == later;
        Isolation(symbol, e', requests[1..], Apply(j, c));
      } else {
        assert CommandsFor(symbol, e.nextSequence, requests) == later;
        assert RepliesFor(symbol, e, requests) == RepliesFor(symbol, e', requests[1..]);
        Isolation(symbol, e', requests[1..], j);
      }
    }
  }

  const FRESH := Engine(1, map[])

  /** Mixed runs are isolated: each symbol behaves as if it had the engine to itself. */
  lemma SymbolsAreIsolated(symbol: string, requests: seq<Request>)
    ensures var commands := CommandsFor(symbol, 1, requests);
            && RepliesFor(symbol, FRESH, requests) == LoneReplies(Start(symbol), commands)
            && RunEngine(FRESH, requests).BookOf(symbol) == Run(Start(symbol), commands).book
  {
    Isolation(symbol, FRESH, requests, Start(symbol));
  }

  /** So every symbol's book is good after any mixed run. */
  lemma EverySymbolGood(symbol: string, requests: seq<Request>)
    ensures Good(RunEngine(FRESH, requests).BookOf(symbol))
  {
    SymbolsAreIsolated(symbol, requests);
    EveryBookIsGood(symbol, CommandsFor(symbol, 1, requests));
  }

  // -------------------------------------------------------------------- stamps

  /** How many orders came without a number. */
  function Unstamped(requests: seq<Request>): nat {
    if requests == [] then 0
    else Unstamped(requests[1..]) + if requests[0].Place? && requests[0].order.sequence == 0 then 1 else 0
  }

  lemma {:induction false} CounterCounts(e: Engine, requests: seq<Request>)
    ensures RunEngine(e, requests).nextSequence == e.nextSequence + Unstamped(requests)
    decreases |requests|
  {
    if requests != [] {
      CounterCounts(Step(e, requests[0]), requests[1..]);
    }
  }

  lemma {:induction false} RunOneMore(e: Engine, requests: seq<Request>, r: Request)
    ensures RunEngine(e, requests + [r]) == Step(RunEngine(e, requests), r)
    decreases |requests|
  {
    if requests == [] {
      assert requests + [r] == [r] && [r][1..] == [];
      assert RunEngine(Step(e, r), []) == Step(e, r);
    } else {
      assert (requests + [r])[0] == requests[0] && (requests + [r])[1..] == requests[1..] + [r];
      RunOneMore(Step(e, requests[0]), requests[1..], r);
    }
  }

  /**
   After any run, the next order goes to its symbol's book and to no other: with the caller's number if it
   has one, else as the k-th unstamped order of the whole run, over all symbols, with number k.
   */
  lemma NumbersInTurn(requests: seq<Request>, o: Order, other: string)
    requires other != o.symbol
    ensures var e, e' := RunEngine(FRESH, requests), RunEngine(FRESH, requests + [Place(o)]);
            var k := Unstamped(requests + [Place(o)]);
            var r := Submit(e.BookOf(o.symbol), if o.sequence == 0 then o.(sequence := k) else o);
            && k == Unstamped(requests) + (if o.sequence == 0 then 1 else 0)
            && Answer(e, Place(o)) == Placed(r.ack, r.fills)
            && e'.BookOf(o.symbol) == r.book && e'.BookOf(other) == e.BookOf(other)
  {
    RunOneMore(FRESH, requests, Place(o));
    CounterCounts(FRESH, requests);
    CounterCounts(FRESH, requests + [Place(o)]);
  }

  /** After any run, a cancel takes exactly the order with that id out of its symbol's book, if it is live there. */
  lemma CancelsInPlace(requests: seq<Request>, symbol: string, id: nat, other: string)
    requires other != symbol
    ensures var e, e' := RunEngine(FRESH, requests), RunEngine(FRESH, requests + [Revoke(symbol, id)]);
            var b, b' := e.BookOf(symbol), e'.BookOf(symbol);
            && Answer(e, Revoke(symbol, id)) == Revoked(b.Live(id))
            && TakenOut(b.bids, id, b'.bids) && TakenOut(b.asks, id, b'.asks)
            && e'.BookOf(other) == e.BookOf(other) && e'.nextSequence == e.nextSequence
  {
    RunOneMore(FRESH, requests, Revoke(symbol, id));
    CancelExactly(RunEngine(FRESH, requests).BookOf(symbol), id);
  }

  // ------------------------------------------------------------- time priority

  ghost predicate AllUnstamped(requests: seq<Request>) {
    forall i :: 0 <= i < |requests| && requests[i].Place? ==> requests[i].order.sequence == 0
  }

  lemma {:induction false} StampsIncrease(symbol: string, nextSequence: nat, requests: seq<Request>, last: nat)
    requires AllUnstamped(requests) && last < nextSequence
    ensures NonDecreasing(CommandsFor(symbol, nextSequence, requests), last)
    decreases |requests|
  {
    if requests != [] {
      var r := requests[0];
      var next := NextAfter(nextSequence, r);
      var later := CommandsFor(symbol, next, requests[1..]);
      if SymbolOf(r) == symbol && r.Place? {
        var c := New(Stamp(nextSequence, r.order));
        StampsIncrease(symbol, next, requests[1..], nextSequence);
        assert ([c] + later)[1..] == later;
      } else {
        StampsIncrease(symbol, next, requests[1..], last);
        if SymbolOf(r) == symbol {
          assert ([Pull(r.id)] + later)[1..] == later;
        } else {
          assert [] + later == later;
        }
      }
    }
  }

  /** If the engine stamps every order, each queue is served lowest sequence number first. */
  lemma StampedEngineIsFifo(symbol: string, requests: seq<Request>)
    requires AllUnstamped(requests)
    ensures var b := RunEngine(FRESH, requests).BookOf(symbol); BySequence(b)
  {
    SymbolsAreIsolated(symbol, requests);
    StampsIncrease(symbol, 1, requests, 0);
    PriorityIsBySequence(symbol, CommandsFor(symbol, 1, requests));
  }

  /** With caller-chosen numbers mixed in, a queue can put a higher sequence number first. */
  lemma MixedStampsBreakSequenceOrder()
    ensures var early := Order(1, "X", Sell, 100, 1, 5, GoodTillCancel);
            var late := Order(2, "X", Sell, 100, 1, 0, GoodTillCancel);
            var b := RunEngine(FRESH, [Place(early), Place(late)]).BookOf("X");
            && b.asks == [early, late.(sequence := 1)]
            && !LowestFirst(b.asks)
  {
    var early := Order(1, "X", Sell, 100, 1, 5, GoodTillCancel);
    var late := Order(2, "X", Sell, 100, 1, 0, GoodTillCancel);
    var e1 := Step(FRESH, Place(early));
    assert Insert(Sell, [], early) == [early];
    assert e1.BookOf("X").asks == [early];
    var stamped := late.(sequence := 1);
    assert Position(Sell, [early], 100) == 1;
    assert Insert(Sell, [early], stamped) == [early, stamped];
    var e2 := Step(e1, Place(late));
    assert e2.BookOf("X").asks == [early, stamped];
    assert RunEngine(FRESH, [Place(early), Place(late)]) == e2 by {
      assert [Place(early), Place(late)][1..] == [Place(late)];
      assert [Place(late)][1..] == [];
      assert RunEngine(e1, [Place(late)]) == RunEngine(e2, []);
    }
    assert [early, stamped][0].sequence > [early, stamped][1].sequence;
  }
}

/** The engine object: a map of book objects and the next sequence number. */
module Engines {
  import opened FlatBook
  import opened OrderBooks
  import EM = EngineModel

  class MatchingEngine {
    var books: map<string, OrderBook>
    var nextSequence: nat
    ghost var value: EM.Engine  // the engine with every book object replaced by its value

    ghost predicate Valid()
      reads this, books.Values
    {
      && value.nextSequence == nextSequence && value.books.Keys == books.Keys
      && forall s :: s in books ==> BookOk(s, books[s], value.books[s])
    }

    static ghost predicate BookOk(symbol: string, book: OrderBook, model: Book)
      reads book
    {
      book.symbol == symbol && book.Valid() && book.Value() == model
    }

    constructor ()
      ensures Valid() && value == EM.FRESH
    {
      books, nextSequence, value := map[], 1, EM.FRESH;
    }

    /** Finds the symbol's book, creating an empty one if there is none. */
    method BookFor(symbol: string) returns (b: OrderBook)
      requires Valid()
      modifies this`books, this`value
      ensures Valid() && symbol in books && books[symbol] == b
      ensures b in old(books.Values) || fresh(b)
      ensures value == old(value).(books := old(value.books)[symbol := old(value).BookOf(symbol)])
    {
      if symbol !in books {
        var created := new OrderBook(symbol);
        books := books[symbol := created];
        value := value.(books := value.books[symbol := Book(symbol, [], [])]);
      }
      b := books[symbol];
    }

    /** All books but `symbol`'s are as the value says. */
    ghost predicate OthersOk(symbol: string)
      reads this, books.Values
    {
      && value.nextSequence == nextSequence && value.books.Keys == books.Keys && symbol in books
      && forall s :: s in books && s != symbol ==> BookOk(s, books[s], value.books[s])
    }

    /** A change to one book that brings it to its value makes the engine valid again. */
    twostate lemma OneBookUpdated(symbol: string)
      requires old(OthersOk(symbol)) && unchanged(this) && books[symbol].symbol == symbol
      requires forall b :: b in books.Values && b != books[symbol] ==> unchanged(b)
      requires BookOk(symbol, books[symbol], value.books[symbol])
      ensures Valid()
    {
      forall s | s in books
        ensures BookOk(s, books[s], value.books[s])
      {
        if s != symbol {
          assert old(BookOk(s, books[s], value.books[s]));
          assert books[s] != books[symbol] && books[s] in books.Values;
        }
      }
    }

    /** Moves the counter and the value to the state the request leads to; the book itself follows. */
    method Advance(ghost r: EM.Request, next: nat)
      requires Valid() && EM.SymbolOf(r) in books && next == EM.NextAfter(nextSequence, r)
      modifies this`nextSequence, this`value
      ensures OthersOk(EM.SymbolOf(r)) && value == EM.Step(old(value), r)
      ensures BookOk(EM.SymbolOf(r), books[EM.SymbolOf(r)], old(value).BookOf(EM.SymbolOf(r)))
    {
      assert BookOk(EM.SymbolOf(r), books[EM.SymbolOf(r)], value.books[EM.SymbolOf(r)]);
      nextSequence := next;
      value := EM.Step(value, r);
    }

    method Submit(order: Order, fills: seq<Fill>) returns (ack: Ack, allFills: seq<Fill>)
      requires Valid()
      modifies this, books.Values
      ensures Valid()
      ensures value == EM.Step(old(value), EM.Place(order))
      ensures fills <= allFills
      ensures EM.Answer(old(value), EM.Place(order)) == EM.Placed(ack, allFills[|fills|..])
    {
      var stamped := order;
      var next := nextSequence;
      if order.sequence == 0 {
        stamped := order.(sequence := nextSequence);
        next := nextSequence + 1;
      }
      var b := BookFor(order.symbol);
      EM.PreparedStep(old(value), EM.Place(order));
      Advance(EM.Place(order), next);
      label routed:
      ack, allFills := b.Submit(stamped, fills);
      OneBookUpdated@routed(order.symbol);
    }

    method Cancel(symbol: string, id: nat) returns (found: bool)
      requires Valid()
      modifies this, books.Values
      ensures Valid()
      ensures value == EM.Step(old(value), EM.Revoke(symbol, id))
      ensures EM.Answer(old(value), EM.Revoke(symbol, id)) == EM.Revoked(found)
    {
      var b := BookFor(symbol);
      EM.PreparedStep(old(value), EM.Revoke(symbol, id));
      Advance(EM.Revoke(symbol, id), nextSequence);
      label routed:
      found := b.Cancel(id);
      OneBookUpdated@routed(symbol);
    }
  }
}
