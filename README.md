# polyiex handlers: a Dafny model of the feed-to-column batching core

This project models the core of `contrib/polyiex/handlers/handlers.go`, the
Polygon/IEX feed handlers of the market-data store. Two handlers turn feed
messages into events:

- `TradeEach` turns one trade message into a `trade` record.
- `BookEach` applies one depth message to a symbol's order book and turns the
  book's best bid and offer into a `quote` record.

Each record is wrapped in a `writePacket` under a time-bucket key
(`<symbol>/1Min/TRADE` or `<symbol>/1Min/QUOTE`) and handed to `Write`. A
single consumer loop, `writer.write`, does one of two things on each turn:

- It appends the next packet to that key's bucket.
- When its timer fires, it transposes every non-empty bucket into named
  columns, truncates the bucket and keeps the key.

The goroutine, the unbounded channel, the timer and the mutexes are not
modelled. The channel becomes a FIFO queue field of a `Writer` object. Each
turn of the loop is a call to `Writer.Step`, whose caller says whether the
timer fired.

Modules, in dependency order:

- `GoInt` (goint.dfy): Go's `int32` and `int64`. It covers:
  - the wrap-around of `1000*1000*millisec + nanosec`;
  - the `int32(...)` conversion;
  - the normalisation `time.Unix(0, ns)` performs, written with Go's
    truncating division and proved equal to floor division.
- `Events` (events.dfy): the `trade`, `quote` and `writePacket` records and the
  naming of bucket keys.
- `Decoder` (decoder.dfy): `TradeEach`, and the quote `BookEach` builds. One
  message's fields arrive already decoded; `symbol` is `None` when the "S"
  field cannot be read.
- `OrderBooks` (orderbooks.dfy): the `orderBooks` registry as a `Registry`
  class with `GetOrderBook`, and `BookEach` as a method that applies every bid
  level, then every ask level, in order. A book stands for its update history.
  Its `BBO()` is a function of that history that the caller supplies, because
  the order-book engine is not part of this model.
- `Columns` (columns.dfy): the columns a flush builds from a bucket; see
  "Slice sharing" below.
- `Accumulator` (accumulator.dfy): the bucket map, the append branch as a
  function, and its per-key FIFO property.
- `BatchWriter` (writer.dfy): the `Writer` class. `Submit` is `Write`,
  `Receive` is the append branch and `Flush` is the timer branch. `Flush`
  visits the keys in an order the verifier may not rely on, matching Go's map
  iteration order.

Ghost state of `Writer` records three things:

- every packet written;
- the events each key has delivered in flushes so far;
- the kind each key was first used with.

`Writer.Valid` keeps the conservation invariant: the events written under a
key are exactly those it has delivered, then those in its bucket, then those
still queued, in order.

### Slice sharing between the bid and ask price columns

After every non-empty quote bucket the flush trims its scratch slices. At
handlers.go:225 the ask slice is set to `bidPx[:0]`, not `askPx[:0]`, so from
then on both slices view the bid slice's backing array. At the next quote
bucket each `append(askPx, q.askPx)` overwrites the bid just stored in the
same slot. This continues until the bid slice outgrows its capacity and
reallocates. The model keeps this behaviour:

- `Columns.Scratch` records whether the slices share storage and that
  storage's capacity.
- `Columns.AppendPrices` models one pair of appends, with the reallocated
  capacity left to the Go runtime.
- `Columns.BidColumn` is the resulting BidPrice column: the first `cap` entries
  hold asks once the slices are shared.
- `Writer.Flush` reports, for each quote key, the state its bucket was
  transposed with. At most the first quote key visited in a flush sees
  unshared slices; after the first quote flush, none does.

### Behaviour of the code worth knowing

- Kind mismatch: if a key that already holds one kind of event receives the
  other kind, the unchecked type assertion `bucket.([]*quote)` (or
  `[]*trade`) in the append branch panics. The model makes the matching kind a
  precondition (`Accumulator.Compatible`, `Writer.Submit`). Two lemmas show
  that packets built by the handlers always meet it:
  - `Decoder.HandlersWriteWellKinded`: a handler's key suffix names the kind of
    its event.
  - `Writer.HandlerPacketSubmittable`: if every packet written so far was built
    that way, so is the next one, and it meets `Submit`'s requirement.
- Positive sizes: the size filter checks `size > 0` on the 64-bit value before
  the `int32(...)` conversion. A size of 2^32 therefore passes the filter and
  is stored as 0 (`Decoder.TradeSizeTruncates`).
- The sink: the `WriteCSM` call after the flush is commented out, so the
  columns go nowhere. The model's `Flush` returns the column map.
- The timer: the timer is rebuilt on every turn of the loop
  (`time.After(w.interval)` inside the `select`), so a flush happens only after
  an interval with no packet. The model leaves the choice to the caller of
  `Step`. It flushes when told the timer fired, or when the queue is empty
  (standing for an idle interval).

## Model

| member | source | states |
|---|---|---|
| GoInt.Wrap64 | contrib/polyiex/handlers/handlers.go:32 | the int64 result differs from the exact value by a multiple of 2^64, and equals it when it fits |
| GoInt.Int32Of | contrib/polyiex/handlers/handlers.go:40 | `int32(x)` differs from x by a multiple of 2^32 and equals x when x fits in 32 bits |
| GoInt.UnixTime | contrib/polyiex/handlers/handlers.go:32-38 | `time.Unix(0, ns)` yields seconds and a nanosecond part in [0, 1e9) that rebuild ns exactly |
| GoInt.UnixTimeIsFloor | contrib/polyiex/handlers/handlers.go:32-38 | that split is floor division and remainder of ns by 1e9, also for negative ns |
| GoInt.TotalNanos | contrib/polyiex/handlers/handlers.go:32 | `1000*1000*millisec + nanosec` in int64 is congruent to the exact total modulo 2^64 |
| GoInt.TotalNanosExact | contrib/polyiex/handlers/handlers.go:32 | without overflow the int64 total is the exact total |
| Events.TradeKey | contrib/polyiex/handlers/handlers.go:35 | the trade key is the symbol followed by "/1Min/TRADE" |
| Events.QuoteKey | contrib/polyiex/handlers/handlers.go:82 | the quote key is the symbol followed by "/1Min/QUOTE" |
| Events.TradeAndQuoteKeysDisjoint | contrib/polyiex/handlers/handlers.go:82 | no key ends in both the trade and the quote suffix |
| Events.TradeKeyIsNotQuoteKey | contrib/polyiex/handlers/handlers.go:35 | no symbol's trade key equals any symbol's quote key |
| Events.WellKindedAgree | contrib/polyiex/handlers/handlers.go:174-181 | two packets built by the handlers with the same key carry the same kind of event, so the append branch's type assertions hold |
| Decoder.Stamp | contrib/polyiex/handlers/handlers.go:32-38 | the record's epoch and nanoseconds rebuild the int64 total, with nanoseconds in [0, 1e9) |
| Decoder.StampSplitsTotal | contrib/polyiex/handlers/handlers.go:32-38 | without overflow, epoch and nanoseconds are the floor quotient and remainder of 1e6*millisec+nanosec by 1e9 |
| Decoder.TradeEach | contrib/polyiex/handlers/handlers.go:15-43 | a packet is written if and only if the symbol was read and price > 0 and size > 0; it goes under the trade key and carries the price, the int32 size and the split timestamp |
| Decoder.TradeSizeKept | contrib/polyiex/handlers/handlers.go:40 | an accepted trade keeps its size exactly when the size is below 2^31 |
| Decoder.TradeSizeTruncates | contrib/polyiex/handlers/handlers.go:27-40 | a size of 2^32 passes the filter and is stored as 0 |
| Decoder.TradeEachExample | contrib/polyiex/handlers/handlers.go:15-43 | an AAPL trade at 1700000000000 ms + 500000 ns becomes epoch 1700000000, nanos 500000 under "AAPL/1Min/TRADE" |
| Decoder.BookQuote | contrib/polyiex/handlers/handlers.go:80-90 | the quote goes under the quote key and carries the best bid and ask prices and sizes and the split timestamp |
| Decoder.HandlersWriteWellKinded | contrib/polyiex/handlers/handlers.go:15-93 | every packet either handler writes carries an event of the kind its key's suffix names |
| OrderBooks.ToEntry | contrib/polyiex/handlers/handlers.go:62-64 | a depth level becomes an entry with its price and its size converted to int32 |
| OrderBooks.SideUpdates | contrib/polyiex/handlers/handlers.go:61-70 | the levels of one side become one update each, in order, on that side |
| OrderBooks.OrderBook.Bid | contrib/polyiex/handlers/handlers.go:64 | a bid update is recorded after all earlier updates |
| OrderBooks.OrderBook.Ask | contrib/polyiex/handlers/handlers.go:69 | an ask update is recorded after all earlier updates |
| OrderBooks.Registry.constructor | contrib/polyiex/handlers/handlers.go:104 | the registry starts empty |
| OrderBooks.Registry.GetOrderBook | contrib/polyiex/handlers/handlers.go:107-116 | returns the symbol's registered book, leaving the registry unchanged; or creates an empty book, registers it under the symbol and changes nothing else; no book is ever shared by two symbols |
| OrderBooks.ApplyDepth | contrib/polyiex/handlers/handlers.go:61-70 | the book receives every bid level and then every ask level, in order |
| OrderBooks.BookEach | contrib/polyiex/handlers/handlers.go:51-93 | with no symbol nothing changes and nothing is written; otherwise only that symbol's book changes, it gains the message's bid then ask updates, and the quote is built from the BBO of the updated book |
| Columns.Column | contrib/polyiex/handlers/handlers.go:203-210 | the column has one entry per element, and entry i is that element's field |
| Columns.TradeColumns | contrib/polyiex/handlers/handlers.go:239-243 | a trade bucket gives exactly the columns Epoch, Nanoseconds, Price and Size, each as long as the bucket, with entry i taken from trade i |
| Columns.BidColumn | contrib/polyiex/handlers/handlers.go:203-225 | BidPrice entry i is quote i's ask while the slices share storage and i is below its capacity, and quote i's bid otherwise |
| Columns.QuoteColumns | contrib/polyiex/handlers/handlers.go:212-218 | a quote bucket gives exactly six columns, each as long as the bucket; every column except BidPrice takes entry i from quote i |
| Columns.BidPriceExactUnshared | contrib/polyiex/handlers/handlers.go:206 | before the slices share storage, BidPrice is exactly the bids |
| Columns.BidPriceOverwrittenShared | contrib/polyiex/handlers/handlers.go:225 | once shared, the first BidPrice entry is the first quote's ask, so it is wrong whenever that quote's bid and ask differ |
| Columns.SecondQuoteFlushExample | contrib/polyiex/handlers/handlers.go:203-225 | a quote with bid 30000 and ask 30050 reports bid 30000 on the first quote flush and 30050 on the next |
| Columns.TransposeTrades | contrib/polyiex/handlers/handlers.go:232-243 | the loop's four slices form exactly `TradeColumns` of the bucket |
| Columns.AppendPrices | contrib/polyiex/handlers/handlers.go:206-207 | the ask is appended to the ask slice; the bid slot holds the ask when the slices share storage with room to spare, and the bid otherwise; a full slice reallocates and the sharing ends |
| Columns.TransposeQuotes | contrib/polyiex/handlers/handlers.go:203-218 | the loop's six slices are the five plain columns and `BidColumn` of the bucket; the capacity afterwards holds the bucket and never shrinks |
| Accumulator.AddEvent | contrib/polyiex/handlers/handlers.go:174-181 | appending keeps the bucket's kind and adds the event at the end |
| Accumulator.Singleton | contrib/polyiex/handlers/handlers.go:182-189 | a new key's bucket holds just the event, of its kind |
| Accumulator.Accumulate | contrib/polyiex/handlers/handlers.go:172-192 | the key gains the event at the end of its bucket, the bucket's kind is the event's, and every other key is unchanged |
| Accumulator.Cleared | contrib/polyiex/handlers/handlers.go:227 | `b[:0]` keeps the kind and holds no events |
| Accumulator.Drained | contrib/polyiex/handlers/handlers.go:198-253 | after a flush the keys are kept with their kinds and every bucket is empty |
| Accumulator.NonEmptyKeys | contrib/polyiex/handlers/handlers.go:212 | the keys that produce columns are exactly those with a non-empty bucket |
| Accumulator.AppendAfterDrain | contrib/polyiex/handlers/handlers.go:172-192 | a key kept warm by a flush takes its next event into a one-element bucket |
| Accumulator.KeyEventsConcat | contrib/polyiex/handlers/handlers.go:264-270 | the events written under a key over two runs of writes are those of the first run followed by those of the second |
| Accumulator.AccumulateAllInOrder | contrib/polyiex/handlers/handlers.go:172-192 | appending packets in queue order leaves each key's bucket with its old events followed by that key's packets, in order: none lost, duplicated or reordered |
| Accumulator.AccumulateEvents | contrib/polyiex/handlers/handlers.go:172-192 | one append adds the packet's event to its own key only |
| BatchWriter.DrainedKinds | contrib/polyiex/handlers/handlers.go:198-253 | a flush keeps every key's kind |
| BatchWriter.DrainedConserves | contrib/polyiex/handlers/handlers.go:198-253 | moving every bucket's events to the delivered record keeps the conservation invariant |
| BatchWriter.ScratchHistoryStep | contrib/polyiex/handlers/handlers.go:225 | after any non-empty quote bucket the slices share storage, so at most the first quote key of a flush sees them unshared |
| BatchWriter.TransposeBucket | contrib/polyiex/handlers/handlers.go:199-251 | a bucket gives `TradeColumns` or `QuoteColumns` under the current scratch state; a non-empty quote bucket leaves the slices shared with capacity for at least the bucket |
| BatchWriter.VisitKey | contrib/polyiex/handlers/handlers.go:198-253 | one key's visit keeps the flush's progress invariant over the keys visited so far |
| BatchWriter.FlushBuckets | contrib/polyiex/handlers/handlers.go:196-253 | for any visiting order: every bucket is truncated; columns appear for exactly the non-empty keys, built from each bucket's contents; the delivered record grows by each bucket's events |
| BatchWriter.Writer.constructor | contrib/polyiex/handlers/handlers.go:134-141 | the writer starts with no buckets, an empty channel and nil scratch slices |
| BatchWriter.Writer.Submit | contrib/polyiex/handlers/handlers.go:264-270 | the packet joins the end of the queue, nothing else changes, and the conservation invariant holds |
| BatchWriter.Writer.Append | contrib/polyiex/handlers/handlers.go:174-189 | the buckets become `Accumulate` of the old buckets and the packet |
| BatchWriter.Writer.HeadCompatible | contrib/polyiex/handlers/handlers.go:174-181 | the oldest queued packet always passes the append branch's type assertions |
| BatchWriter.Writer.Receive | contrib/polyiex/handlers/handlers.go:172-192 | the oldest packet leaves the queue and is appended to its key's bucket; nothing else changes; conservation holds |
| BatchWriter.Writer.Flush | contrib/polyiex/handlers/handlers.go:194-255 | buckets become `Drained`, each key's delivered events grow by its bucket's contents, columns match each non-empty bucket, and the scratch states seen follow the sharing rule, and a flush with no quote bucket leaves the scratch unchanged; the queue is untouched |
| BatchWriter.Writer.AllDelivered | contrib/polyiex/handlers/handlers.go:170-262 | with the channel drained and every bucket empty, each key has delivered exactly its written events, in order |
| BatchWriter.Writer.Step | contrib/polyiex/handlers/handlers.go:170-262 | one turn of the loop is either a `Receive` (the head packet appended, the queue popped) or a `Flush` with all of its guarantees (drained buckets, columns per non-empty key, the scratch states used and the new scratch), as the timer decides, and keeps `Valid` |
| BatchWriter.Writer.HandlerPacketSubmittable | contrib/polyiex/handlers/handlers.go:34-42 | when every packet written so far was built by the handlers, a further handler-built packet meets the kind requirement of `Write`'s consumer, and the record stays handler-built |

## Left out

- JSON decoding (`jsonparser.GetString`, `GetFloat`, `GetInt`, `ArrayEach`): modelled by passing in the decoded fields, with `None` for an unreadable symbol; a missing numeric field arrives as its zero value.
- The wrappers `Trade` and `Book` (handlers.go:45-49, 95-101): they only call `TradeEach` or `BookEach` once per element of an array.
- The order-book engine (`orderbook.NewOrderBook`, `Bid`, `Ask`, `BBO`): it is not part of this model. A book is its update history, and `BBO` is a function of that history that the caller supplies, so nothing is assumed about how levels are ranked or merged.
- Floating point: prices (float64 decoded, float32 stored) are integers here. The handlers only compare prices with zero and copy them, so the float32 rounding of `float32(price)` is not modelled.
- Concurrency: the goroutine started by `sync.Once`, the unbounded channel, the `select` with the timer, and the `obMutex` and `writer` mutexes. Each turn of the loop is one `Step` call.
- `ColumnSeriesMap.AddColumn` is taken to copy the slice it is given. If it keeps the slice instead, later appends to the reused scratch slices also rewrite columns already added in the same flush. That effect is not modelled.
- The storage sink (`executor.WriteCSM`, commented out in the source), the debug `print`/`fmt.Printf` of `BookEach`, and the error logging of an unreadable symbol.
- Writer.Step: flushes when the queue is empty, standing for an interval in which no packet arrived; it does not model the timer's duration.
- Columns.AppendPrices: the capacity after a reallocation is only known to exceed the old length. Go's growth policy is left to the runtime, so the exact point at which shared slices part is not pinned down.
- Accumulator.Compatible (and Writer.Submit's precondition): a packet whose kind disagrees with its key's bucket makes the source panic; the model only states the contract the handlers keep and does not model the panic.
