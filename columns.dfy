/**
 * Transposing a bucket of events into the named columns the flush hands to
 * a `ColumnSeriesMap`, including the storage sharing between the `bidPx` and
 * `askPx` scratch slices that the flush sets up after every quote bucket.
 */
module Columns {
  import opened Events

  /** One key's columns: column name to values. */
  type ColumnSet = map<string, seq<int>>

  /** The column map a flush builds: bucket key to that key's columns. */
  type ColumnSeriesMap = map<string, ColumnSet>

  const EPOCH: string := "Epoch"
  const NANOSECONDS: string := "Nanoseconds"
  const PRICE: string := "Price"
  const SIZE: string := "Size"
  const BID_PRICE: string := "BidPrice"
  const ASK_PRICE: string := "AskPrice"
  const BID_SIZE: string := "BidSize"
  const ASK_SIZE: string := "AskSize"

  /** The values of one field of every element, in order (a `for range` that appends one field). */
  function Column<T>(s: seq<T>, field: T -> int): (c: seq<int>)
    ensures |c| == |s|
    ensures forall i :: 0 <= i < |s| ==> c[i] == field(s[i])
  {
    if s == [] then [] else Column(s[..|s| - 1], field) + [field(s[|s| - 1])]
  }

  /** A sequence that agrees with a field of every element is that field's column. */
  lemma ColumnPointwise<T>(s: seq<T>, field: T -> int, c: seq<int>)
    requires |c| == |s| && forall j :: 0 <= j < |s| ==> c[j] == field(s[j])
    ensures c == Column(s, field)
  {
  }

  /** Appending one element appends its field. */
  lemma ColumnSnoc<T>(s: seq<T>, x: T, field: T -> int)
    ensures Column(s + [x], field) == Column(s, field) + [field(x)]
  {
    assert (s + [x])[..|s|] == s;
  }

  function TradeEpoch(t: Trade): int { t.epoch }
  function TradeNanos(t: Trade): int { t.nanos }
  function TradePrice(t: Trade): int { t.px }
  function TradeSize(t: Trade): int { t.sz }
  function QuoteEpoch(q: Quote): int { q.epoch }
  function QuoteNanos(q: Quote): int { q.nanos }
  function QuoteBidPrice(q: Quote): int { q.bidPx }
  function QuoteAskPrice(q: Quote): int { q.askPx }
  function QuoteBidSize(q: Quote): int { q.bidSz }
  function QuoteAskSize(q: Quote): int { q.askSz }

  /** The four columns of a trade bucket; entry i of each comes from trade i. */
  function TradeColumns(ts: seq<Trade>): (c: ColumnSet)
    ensures c.Keys == {EPOCH, NANOSECONDS, PRICE, SIZE}
    ensures forall name :: name in c ==> |c[name]| == |ts|
    ensures forall i :: 0 <= i < |ts| ==>
      && c[EPOCH][i] == ts[i].epoch && c[NANOSECONDS][i] == ts[i].nanos
      && c[PRICE][i] == ts[i].px && c[SIZE][i] == ts[i].sz
  {
    map[EPOCH := Column(ts, TradeEpoch), NANOSECONDS := Column(ts, TradeNanos),
        PRICE := Column(ts, TradePrice), SIZE := Column(ts, TradeSize)]
  }

  /**
   * The state of the `bidPx` scratch slice that outlives one quote bucket.
   * `shared` holds once `askPx = bidPx[:0]` has made the ask slice a view of
   * the bid slice's backing array; `cap` is that array's capacity.
   */
  datatype Scratch = Scratch(shared: bool, cap: nat)

  /** The scratch state before the first flush: both slices nil. */
  const INITIAL_SCRATCH: Scratch := Scratch(false, 0)

  /**
   * The BidPrice column a quote bucket produces. While the ask slice shares
   * the bid slice's array, each ask append overwrites the bid just written in
   * the same slot; that lasts for the first `cap` entries, after which the bid
   * append reallocates and the two slices part.
   */
  function BidColumn(qs: seq<Quote>, s: Scratch): (c: seq<int>)
    ensures |c| == |qs|
    ensures forall i :: 0 <= i < |qs| ==>
      c[i] == (if s.shared && i < s.cap then qs[i].askPx else qs[i].bidPx)
  {
    if s.shared then
      var m := if s.cap < |qs| then s.cap else |qs|;
      Column(qs[..m], QuoteAskPrice) + Column(qs[m..], QuoteBidPrice)
    else
      Column(qs, QuoteBidPrice)
  }

  /** The six columns of a quote bucket flushed with scratch state `s`. */
  function QuoteColumns(qs: seq<Quote>, s: Scratch): (c: ColumnSet)
    ensures c.Keys == {EPOCH, NANOSECONDS, BID_PRICE, ASK_PRICE, BID_SIZE, ASK_SIZE}
    ensures forall name :: name in c ==> |c[name]| == |qs|
    ensures forall i :: 0 <= i < |qs| ==>
      && c[EPOCH][i] == qs[i].epoch && c[NANOSECONDS][i] == qs[i].nanos
      && c[ASK_PRICE][i] == qs[i].askPx && c[BID_SIZE][i] == qs[i].bidSz && c[ASK_SIZE][i] == qs[i].askSz
  {
    map[EPOCH := Column(qs, QuoteEpoch), NANOSECONDS := Column(qs, QuoteNanos),
        BID_PRICE := BidColumn(qs, s), ASK_PRICE := Column(qs, QuoteAskPrice),
        BID_SIZE := Column(qs, QuoteBidSize), ASK_SIZE := Column(qs, QuoteAskSize)]
  }

  /** Before the slices are shared, every BidPrice entry is the bid of its quote. */
  lemma BidPriceExactUnshared(qs: seq<Quote>, s: Scratch)
    requires !s.shared
    ensures QuoteColumns(qs, s)[BID_PRICE] == Column(qs, QuoteBidPrice)
  {
  }

  /**
   * Once shared (a previous quote bucket of at least one quote was flushed), the
   * first BidPrice entry is the first quote's ask, so any quote whose bid and ask
   * differ is reported wrongly.
   */
  lemma BidPriceOverwrittenShared(qs: seq<Quote>, s: Scratch)
    requires s.shared && s.cap >= 1 && |qs| >= 1
    ensures QuoteColumns(qs, s)[BID_PRICE][0] == qs[0].askPx
    ensures qs[0].bidPx != qs[0].askPx ==> QuoteColumns(qs, s)[BID_PRICE][0] != qs[0].bidPx
  {
  }

  /** A quote with bid 30000 and ask 30050, flushed the second time round, reports its ask as its bid. */
  lemma SecondQuoteFlushExample()
    ensures var q := Quote(0, 0, 30000, 30050, 5, 7);
      && QuoteColumns([q], INITIAL_SCRATCH)[BID_PRICE] == [30000]
      && QuoteColumns([q], Scratch(true, 1))[BID_PRICE] == [30050]
  {
  }

  /** The trade half of the flush loop: `for _, t := range b { epoch = append(epoch, t.epoch); ... }`. */
  method TransposeTrades(b: seq<Trade>) returns (epoch: seq<int>, nanos: seq<int>, px: seq<int>, sz: seq<int>)
    ensures map[EPOCH := epoch, NANOSECONDS := nanos, PRICE := px, SIZE := sz] == TradeColumns(b)
  {
    epoch, nanos, px, sz := [], [], [], [];
    for i := 0 to |b|
      invariant epoch == Column(b[..i], TradeEpoch) && nanos == Column(b[..i], TradeNanos)
      invariant px == Column(b[..i], TradePrice) && sz == Column(b[..i], TradeSize)
    {
      assert b[..i + 1] == b[..i] + [b[i]];
      ColumnSnoc(b[..i], b[i], TradeEpoch);
      ColumnSnoc(b[..i], b[i], TradeNanos);
      ColumnSnoc(b[..i], b[i], TradePrice);
      ColumnSnoc(b[..i], b[i], TradeSize);
      epoch := epoch + [b[i].epoch];
      nanos := nanos + [b[i].nanos];
      px := px + [b[i].px];
      sz := sz + [b[i].sz];
    }
    assert b[..|b|] == b;
  }

  /**
   * One round of `bidPx = append(bidPx, q.bidPx)` then `askPx = append(askPx, q.askPx)`.
   * When the ask slice views the bid slice's array and the bid append fits in
   * it, the ask append lands in the slot the bid append just filled. When the
   * bid append does not fit it reallocates, which also ends the sharing; the new
   * capacity is the runtime's choice and is only known to hold the new element.
   */
  method AppendPrices(bidPx: seq<int>, askPx: seq<int>, shared: bool, cap: nat, q: Quote)
    returns (bidPx': seq<int>, askPx': seq<int>, shared': bool, cap': nat)
    ensures askPx' == askPx + [q.askPx]
    ensures bidPx' == bidPx + [if shared && |bidPx| < cap then q.askPx else q.bidPx]
    ensures shared' == (shared && |bidPx| < cap)
    ensures if |bidPx| < cap then cap' == cap else cap' > |bidPx|
  {
    shared', cap' := shared, cap;
    if |bidPx| >= cap' {
      var grown: nat :| grown > |bidPx|;
      cap' := grown;
      shared' := false;
    }
    bidPx' := bidPx + [q.bidPx];
    askPx' := askPx + [q.askPx];
    if shared' {
      bidPx' := bidPx'[|bidPx| := q.askPx];
    }
  }

  /**
   * The quote half of the flush loop: `for _, q := range b { epoch = append(epoch, q.epoch); ... }`,
   * starting from the bid slice's scratch state `s`; also returns the bid slice's capacity afterwards.
   */
  method TransposeQuotes(b: seq<Quote>, s: Scratch)
    returns (epoch: seq<int>, nanos: seq<int>, bidPx: seq<int>, askPx: seq<int>, bidSz: seq<int>, askSz: seq<int>,
             cap: nat)
    ensures epoch == Column(b, QuoteEpoch) && nanos == Column(b, QuoteNanos)
    ensures bidPx == BidColumn(b, s) && askPx == Column(b, QuoteAskPrice)
    ensures bidSz == Column(b, QuoteBidSize) && askSz == Column(b, QuoteAskSize)
    ensures cap >= |b| && cap >= s.cap
    ensures |b| <= s.cap ==> cap == s.cap
  {
    epoch, nanos, bidPx, askPx, bidSz, askSz := [], [], [], [], [], [];
    var shared := s.shared;
    cap := s.cap;
    for i := 0 to |b|
      invariant |bidPx| == i && cap >= i && cap >= s.cap
      invariant shared == (s.shared && i <= s.cap)
      invariant i <= s.cap ==> cap == s.cap
      invariant forall j :: 0 <= j < i ==> bidPx[j] == (if s.shared && j < s.cap then b[j].askPx else b[j].bidPx)
      invariant |epoch| == |nanos| == |askPx| == |bidSz| == |askSz| == i
      invariant forall j :: 0 <= j < i ==>
        epoch[j] == b[j].epoch && nanos[j] == b[j].nanos && askPx[j] == b[j].askPx
        && bidSz[j] == b[j].bidSz && askSz[j] == b[j].askSz
    {
      var q := b[i];
      epoch := epoch + [q.epoch];
      nanos := nanos + [q.nanos];
      bidPx, askPx, shared, cap := AppendPrices(bidPx, askPx, shared, cap, q);
      bidSz := bidSz + [q.bidSz];
      askSz := askSz + [q.askSz];
    }
    BidColumnPointwise(b, s, bidPx);
    ColumnPointwise(b, QuoteEpoch, epoch);
    ColumnPointwise(b, QuoteNanos, nanos);
    ColumnPointwise(b, QuoteAskPrice, askPx);
    ColumnPointwise(b, QuoteBidSize, bidSz);
    ColumnPointwise(b, QuoteAskSize, askSz);
  }

  /** A sequence that agrees with the BidPrice rule at every index is the BidPrice column. */
  lemma BidColumnPointwise(qs: seq<Quote>, s: Scratch, c: seq<int>)
    requires |c| == |qs|
    requires forall j :: 0 <= j < |qs| ==> c[j] == (if s.shared && j < s.cap then qs[j].askPx else qs[j].bidPx)
    ensures c == BidColumn(qs, s)
  {
  }
}
