/**
 * The order-book gateway: the registry `orderBooks` with its get-or-create
 * lookup `getOrderBook`, and `BookEach`, which applies one depth update to a
 * symbol's book and builds a quote from the book's best bid and best ask.
 *
 * The order-book engine itself is not part of this model. A book is
 * represented by the sequence of `Bid`/`Ask` updates applied to it since it
 * was created, and its BBO query by a function of that sequence supplied by
 * the caller, so nothing is assumed about how the engine ranks levels.
 */
module OrderBooks {
  import opened GoInt
  import opened Events
  import opened Decoder

  /** `orderbook.Entry`: one price level. */
  datatype Entry = Entry(price: Price, size: int32)

  /** One `[price, size]` pair of a depth message, as decoded (`GetFloat`, `GetInt`). */
  datatype Level = Level(px: Price, sz: int64)

  datatype BookUpdate = BidUpdate(entry: Entry) | AskUpdate(entry: Entry)

  /** What `BBO()` returns: the best bid and the best ask. */
  datatype BestLevels = BestLevels(bid: Entry, ask: Entry)

  /** The entry `BookEach` builds from a decoded level: `Entry{Price: float32(px), Size: int32(sz)}`. */
  function ToEntry(l: Level): (e: Entry)
    ensures e.price == l.px && (-TWO_31 <= l.sz < TWO_31 ==> e.size == l.sz)
  {
    Entry(l.px, Int32Of(l.sz))
  }

  /** The updates that applying `levels` in order on one side sends to the book. */
  function SideUpdates(levels: seq<Level>, bid: bool): (us: seq<BookUpdate>)
    ensures |us| == |levels|
    ensures forall i :: 0 <= i < |levels| ==>
      us[i] == (if bid then BidUpdate(ToEntry(levels[i])) else AskUpdate(ToEntry(levels[i])))
  {
    if levels == [] then []
    else
      var u := if bid then BidUpdate(ToEntry(levels[|levels| - 1])) else AskUpdate(ToEntry(levels[|levels| - 1]));
      SideUpdates(levels[..|levels| - 1], bid) + [u]
  }

  /** Stand-in for `*orderbook.OrderBook`: the engine's state is its update history. */
  class OrderBook {
    var updates: seq<BookUpdate>

    /** `orderbook.NewOrderBook()`. */
    constructor ()
      ensures updates == []
    {
      updates := [];
    }

    method Bid(e: Entry)
      modifies this
      ensures updates == old(updates) + [BidUpdate(e)]
    {
      updates := updates + [BidUpdate(e)];
    }

    method Ask(e: Entry)
      modifies this
      ensures updates == old(updates) + [AskUpdate(e)]
    {
      updates := updates + [AskUpdate(e)];
    }
  }

  /** The `orderBooks` map, owned by an explicit registry object. */
  class Registry {
    var books: map<string, OrderBook>

    /** Each book belongs to exactly one symbol: `NewOrderBook` is called once per symbol. */
    ghost predicate Valid()
      reads this
    {
      forall s, t :: s in books && t in books && s != t ==> books[s] != books[t]
    }

    constructor ()
      ensures Valid() && books == map[]
    {
      books := map[];
    }

    /** `getOrderBook`: the symbol's book, created and registered when there is none yet. */
    method GetOrderBook(symbol: string) returns (book: OrderBook)
      requires Valid()
      modifies this
      ensures Valid()
      ensures symbol in books && book == books[symbol]
      ensures symbol in old(books) ==> books == old(books)
      ensures symbol !in old(books) ==>
        fresh(book) && book.updates == [] && books == old(books)[symbol := book]
    {
      if symbol in books {
        book := books[symbol];
      } else {
        book := new OrderBook();
        books := books[symbol := book];
      }
    }
  }

  /**
   * `BookEach`: when the symbol is present, fetch (or create) its book, apply
   * every bid level and then every ask level in order, read the BBO once and
   * return the quote packet to write; with no symbol, do nothing.
   */
  method BookEach(reg: Registry, symbol: Option<string>, millisec: int64, nanosec: int64,
                  bids: seq<Level>, asks: seq<Level>, bbo: seq<BookUpdate> -> BestLevels)
    returns (pkt: Option<Packet>)
    requires reg.Valid()
    modifies reg, reg.books.Values
    ensures reg.Valid()
    ensures symbol.None? ==> pkt.None? && reg.books == old(reg.books)
    ensures symbol.None? ==> forall t :: t in reg.books ==> reg.books[t].updates == old(reg.books[t].updates)
    ensures symbol.Some? ==>
      var s := symbol.value;
      && s in reg.books
      && reg.books == old(reg.books)[s := reg.books[s]]
      && (s in old(reg.books) ==> reg.books[s] == old(reg.books[s]))
      && reg.books[s].updates
         == (if s in old(reg.books) then old(reg.books[s].updates) else [])
            + SideUpdates(bids, true) + SideUpdates(asks, false)
      && (forall t :: t in old(reg.books) && t != s ==> reg.books[t].updates == old(reg.books[t].updates))
      && var best := bbo(reg.books[s].updates);
         pkt == Some(BookQuote(s, millisec, nanosec, best.bid.price, best.bid.size, best.ask.price, best.ask.size))
  {
    if symbol.None? {
      return None;
    }
    var s := symbol.value;
    var book := reg.GetOrderBook(s);
    ApplyDepth(book, bids, asks);
    var best := bbo(book.updates);
    pkt := Some(BookQuote(s, millisec, nanosec, best.bid.price, best.bid.size, best.ask.price, best.ask.size));
  }

  /** The two `ArrayEach` passes of `BookEach`: every bid level, then every ask level, in order. */
  method ApplyDepth(book: OrderBook, bids: seq<Level>, asks: seq<Level>)
    modifies book
    ensures book.updates == old(book.updates) + SideUpdates(bids, true) + SideUpdates(asks, false)
  {
    for i := 0 to |bids|
      invariant book.updates == old(book.updates) + SideUpdates(bids[..i], true)
    {
      assert bids[..i + 1][..i] == bids[..i];
      book.Bid(ToEntry(bids[i]));
    }
    assert bids[..|bids|] == bids;
    ghost var mid := book.updates;
    for i := 0 to |asks|
      invariant book.updates == mid + SideUpdates(asks[..i], false)
    {
      assert asks[..i + 1][..i] == asks[..i];
      book.Ask(ToEntry(asks[i]));
    }
    assert asks[..|asks|] == asks;
  }
}
