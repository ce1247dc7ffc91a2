/**
 * The records that flow from the feed handlers to the batching writer: the
 * `trade` and `quote` structs, the `writePacket` that carries one of them to a
 * time-bucket key, and the naming of those keys.
 */
module Events {
  import opened GoInt

  datatype Option<T> = None | Some(value: T)

  /**
   * A price. The handlers hold prices as float32 and only compare them with
   * zero and copy them, so an integer stands for the value here.
   */
  type Price = int

  /** The `trade` struct. */
  datatype Trade = Trade(epoch: int64, nanos: int32, px: Price, sz: int32)

  /** The `quote` struct: one best-bid/best-ask snapshot. */
  datatype Quote = Quote(epoch: int64, nanos: int32, bidPx: Price, askPx: Price, bidSz: int32, askSz: int32)

  /** The dynamic value in `writePacket.data`: a `*trade` or a `*quote`. */
  datatype Event = TradeEvent(trade: Trade) | QuoteEvent(quote: Quote)

  datatype Kind = TradeKind | QuoteKind

  function EventKind(e: Event): Kind
  {
    if e.TradeEvent? then TradeKind else QuoteKind
  }

  /** `writePacket`: a time-bucket key and the event to file under it. */
  datatype Packet = Packet(key: string, data: Event)

  const TRADE_SUFFIX: string := "/1Min/TRADE"
  const QUOTE_SUFFIX: string := "/1Min/QUOTE"

  /** The bucket key of a symbol's trades. */
  function TradeKey(symbol: string): (k: string)
    ensures IsTradeKey(k) && |k| == |symbol| + |TRADE_SUFFIX| && k[..|symbol|] == symbol
  {
    symbol + TRADE_SUFFIX
  }

  /** The bucket key of a symbol's quotes. */
  function QuoteKey(symbol: string): (k: string)
    ensures IsQuoteKey(k) && |k| == |symbol| + |QUOTE_SUFFIX| && k[..|symbol|] == symbol
  {
    symbol + QUOTE_SUFFIX
  }

  predicate IsTradeKey(k: string)
  {
    |k| >= |TRADE_SUFFIX| && k[|k| - |TRADE_SUFFIX|..] == TRADE_SUFFIX
  }

  predicate IsQuoteKey(k: string)
  {
    |k| >= |QUOTE_SUFFIX| && k[|k| - |QUOTE_SUFFIX|..] == QUOTE_SUFFIX
  }

  /** The two suffixes differ in their seventh character, so no key names both kinds. */
  lemma TradeAndQuoteKeysDisjoint(k: string)
    ensures !(IsTradeKey(k) && IsQuoteKey(k))
  {
  }

  /** No symbol's trade key is any symbol's quote key. */
  lemma TradeKeyIsNotQuoteKey(s: string, t: string)
    ensures TradeKey(s) != QuoteKey(t)
  {
    TradeAndQuoteKeysDisjoint(TradeKey(s));
  }

  /** A packet as the handlers build it: its key's suffix names its event's kind. */
  predicate WellKinded(p: Packet)
  {
    if p.data.TradeEvent? then IsTradeKey(p.key) else IsQuoteKey(p.key)
  }

  /** Packets that the handlers build never put two kinds of event under one key. */
  lemma WellKindedAgree(p: Packet, q: Packet)
    requires WellKinded(p) && WellKinded(q) && p.key == q.key
    ensures EventKind(p.data) == EventKind(q.data)
  {
    TradeAndQuoteKeysDisjoint(p.key);
  }
}
