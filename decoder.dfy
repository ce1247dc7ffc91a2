/**
 * `TradeEach` and the quote-building half of `BookEach`: from the decoded
 * fields of one feed message to the packet handed to `Write`.
 *
 * The JSON fields arrive already decoded: `symbol` is None when the "S" field
 * could not be read, and the numeric fields hold what `GetFloat`/`GetInt`
 * returned (zero when the field is missing, since those errors are ignored).
 */
module Decoder {
  import opened GoInt
  import opened Events

  /** The epoch seconds and nanoseconds of the instant `1000*1000*millisec + nanosec` ns after the epoch. */
  function Stamp(millisec: int64, nanosec: int64): (t: Instant)
    ensures t.sec * NANOS_PER_SEC + t.nsec == TotalNanos(millisec, nanosec)
    ensures 0 <= t.nsec < NANOS_PER_SEC
  {
    UnixTime(TotalNanos(millisec, nanosec))
  }

  /** When the total does not overflow int64, the split is exact floor division of the total. */
  lemma StampSplitsTotal(millisec: int64, nanosec: int64)
    requires -TWO_63 <= NANOS_PER_MILLI * millisec + nanosec < TWO_63
    ensures var ns := NANOS_PER_MILLI * millisec + nanosec;
      Stamp(millisec, nanosec) == Instant(ns / NANOS_PER_SEC, ns % NANOS_PER_SEC)
  {
    TotalNanosExact(millisec, nanosec);
    UnixTimeIsFloor(TotalNanos(millisec, nanosec));
  }

  /**
   * `TradeEach`: the packet it writes, or None when it writes nothing
   * (no symbol, or a non-positive price or size).
   */
  function TradeEach(symbol: Option<string>, price: Price, size: int64, millisec: int64, nanosec: int64): (r: Option<Packet>)
    ensures r.Some? <==> symbol.Some? && price > 0 && size > 0
    ensures r.Some? ==>
      && r.value.key == TradeKey(symbol.value)
      && r.value.data.TradeEvent?
      && r.value.data.trade.px == price
      && r.value.data.trade.sz == Int32Of(size)
      && r.value.data.trade.epoch * NANOS_PER_SEC + r.value.data.trade.nanos == TotalNanos(millisec, nanosec)
      && 0 <= r.value.data.trade.nanos < NANOS_PER_SEC
  {
    if symbol.None? then None
    else if price <= 0 || size <= 0 then None
    else
      var ts := Stamp(millisec, nanosec);
      Some(Packet(TradeKey(symbol.value), TradeEvent(Trade(ts.sec, ts.nsec, price, Int32Of(size)))))
  }

  /** A trade that passed the filter keeps its size exactly when the size fits in 32 bits. */
  lemma TradeSizeKept(symbol: string, price: Price, size: int64, millisec: int64, nanosec: int64)
    requires price > 0 && size > 0
    ensures TradeEach(Some(symbol), price, size, millisec, nanosec).value.data.trade.sz == size <==> size < TWO_31
  {
  }

  /** The int32 conversion lets a positive size through as zero: 2^32 passes the filter and is stored as 0. */
  lemma TradeSizeTruncates(symbol: string)
    ensures TradeEach(Some(symbol), 1, TWO_32, 0, 0).value.data.trade.sz == 0
  {
  }

  /** A concrete trade: AAPL at 1700000000000 ms plus 500000 ns, price 15025, size 10. */
  lemma TradeEachExample()
    ensures TradeEach(Some("AAPL"), 15025, 10, 1700000000000, 500000)
      == Some(Packet("AAPL/1Min/TRADE", TradeEvent(Trade(1700000000, 500000, 15025, 10))))
  {
    StampSplitsTotal(1700000000000, 500000);
    assert Stamp(1700000000000, 500000) == Instant(1700000000, 500000);
    assert TradeKey("AAPL") == "AAPL/1Min/TRADE";
  }

  /** The quote packet `BookEach` writes, built from the best bid and best ask read from the book. */
  function BookQuote(symbol: string, millisec: int64, nanosec: int64,
                     bidPx: Price, bidSz: int32, askPx: Price, askSz: int32): (p: Packet)
    ensures p.key == QuoteKey(symbol) && p.data.QuoteEvent?
    ensures var q := p.data.quote;
      && q.bidPx == bidPx && q.bidSz == bidSz && q.askPx == askPx && q.askSz == askSz
      && q.epoch * NANOS_PER_SEC + q.nanos == TotalNanos(millisec, nanosec)
      && 0 <= q.nanos < NANOS_PER_SEC
  {
    var ts := Stamp(millisec, nanosec);
    Packet(QuoteKey(symbol), QuoteEvent(Quote(ts.sec, ts.nsec, bidPx, askPx, bidSz, askSz)))
  }

  /** Every packet the handlers write files its event under a key of the event's own kind. */
  lemma HandlersWriteWellKinded(symbol: Option<string>, price: Price, size: int64, millisec: int64, nanosec: int64,
                                s: string, bidPx: Price, bidSz: int32, askPx: Price, askSz: int32)
    ensures var t := TradeEach(symbol, price, size, millisec, nanosec);
      t.Some? ==> WellKinded(t.value)
    ensures WellKinded(BookQuote(s, millisec, nanosec, bidPx, bidSz, askPx, askSz))
  {
  }
}
