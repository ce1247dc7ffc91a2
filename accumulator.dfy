/**
 * The batch accumulator: the map `dataBuckets` from time-bucket key to a
 * typed bucket (`[]*trade` or `[]*quote`), the append of one packet to it,
 * and the clearing a flush does.
 */
module Accumulator {
  import opened Events

  /** The value `dataBuckets` holds for one key: a slice of trades or a slice of quotes. */
  datatype Bucket = Trades(trades: seq<Trade>) | Quotes(quotes: seq<Quote>)

  type Buckets = map<string, Bucket>

  function BucketKind(b: Bucket): Kind
  {
    if b.Trades? then TradeKind else QuoteKind
  }

  function Size(b: Bucket): nat
  {
    if b.Trades? then |b.trades| else |b.quotes|
  }

  function TradeEvents(ts: seq<Trade>): (es: seq<Event>)
    ensures |es| == |ts| && forall i :: 0 <= i < |ts| ==> es[i] == TradeEvent(ts[i])
  {
    if ts == [] then [] else TradeEvents(ts[..|ts| - 1]) + [TradeEvent(ts[|ts| - 1])]
  }

  function QuoteEvents(qs: seq<Quote>): (es: seq<Event>)
    ensures |es| == |qs| && forall i :: 0 <= i < |qs| ==> es[i] == QuoteEvent(qs[i])
  {
    if qs == [] then [] else QuoteEvents(qs[..|qs| - 1]) + [QuoteEvent(qs[|qs| - 1])]
  }

  /** The events a bucket holds, in order. */
  function Contents(b: Bucket): seq<Event>
  {
    if b.Trades? then TradeEvents(b.trades) else QuoteEvents(b.quotes)
  }

  /** The events filed under key k, or none when k has no bucket. */
  function BucketEvents(bs: Buckets, k: string): seq<Event>
  {
    if k in bs then Contents(bs[k]) else []
  }

  /**
   * The append branch's type assertions `bucket.([]*quote)` and
   * `bucket.([]*trade)` succeed: the key is new or its bucket holds the
   * packet's kind. Otherwise the writer panics.
   */
  predicate Compatible(bs: Buckets, p: Packet)
  {
    p.key in bs ==> BucketKind(bs[p.key]) == EventKind(p.data)
  }

  /** `append(bucket, ev)` on a bucket of the event's kind. */
  function AddEvent(b: Bucket, e: Event): (r: Bucket)
    requires BucketKind(b) == EventKind(e)
    ensures BucketKind(r) == BucketKind(b) && Size(r) == Size(b) + 1
    ensures Contents(r) == Contents(b) + [e]
  {
    match e
    case TradeEvent(t) =>
      assert (b.trades + [t])[..|b.trades|] == b.trades;
      Trades(b.trades + [t])
    case QuoteEvent(q) =>
      assert (b.quotes + [q])[..|b.quotes|] == b.quotes;
      Quotes(b.quotes + [q])
  }

  /** A fresh one-element bucket: `[]*trade{t}` or `[]*quote{q}`. */
  function Singleton(e: Event): (r: Bucket)
    ensures BucketKind(r) == EventKind(e) && Contents(r) == [e]
  {
    match e
    case TradeEvent(t) => Trades([t])
    case QuoteEvent(q) => Quotes([q])
  }

  /** The append branch of the writer: file one packet's event under its key. */
  function Accumulate(bs: Buckets, p: Packet): (r: Buckets)
    requires Compatible(bs, p)
    ensures r.Keys == bs.Keys + {p.key}
    ensures BucketKind(r[p.key]) == EventKind(p.data)
    ensures BucketEvents(r, p.key) == BucketEvents(bs, p.key) + [p.data]
    ensures forall k :: k in bs && k != p.key ==> r[k] == bs[k]
  {
    if p.key in bs then bs[p.key := AddEvent(bs[p.key], p.data)]
    else bs[p.key := Singleton(p.data)]
  }

  /** `b[:0]`: the bucket emptied, of the same kind. */
  function Cleared(b: Bucket): (r: Bucket)
    ensures BucketKind(r) == BucketKind(b) && Size(r) == 0 && Contents(r) == []
  {
    if b.Trades? then Trades([]) else Quotes([])
  }

  /** Every bucket after a flush: same keys, same kinds, all empty. */
  function Drained(bs: Buckets): (r: Buckets)
    ensures r.Keys == bs.Keys
    ensures forall k :: k in r ==> BucketKind(r[k]) == BucketKind(bs[k]) && Size(r[k]) == 0
  {
    map k | k in bs :: Cleared(bs[k])
  }

  /** The keys whose buckets the flush turns into columns. */
  function NonEmptyKeys(bs: Buckets): (ks: set<string>)
    ensures forall k :: k in ks <==> k in bs && Size(bs[k]) > 0
  {
    set k | k in bs && Size(bs[k]) > 0
  }

  /** A key kept warm by a flush takes its next event into a one-element bucket. */
  lemma AppendAfterDrain(bs: Buckets, p: Packet)
    requires p.key in bs && BucketKind(bs[p.key]) == EventKind(p.data)
    ensures Compatible(Drained(bs), p)
    ensures var r := Accumulate(Drained(bs), p);
      Size(r[p.key]) == 1 && BucketEvents(r, p.key) == [p.data]
  {
    assert BucketEvents(Drained(bs), p.key) == [];
  }

  /** The events of the packets in ps that are filed under key k, in order. */
  function KeyEvents(ps: seq<Packet>, k: string): seq<Event>
  {
    if ps == [] then []
    else (if ps[0].key == k then [ps[0].data] else []) + KeyEvents(ps[1..], k)
  }

  /** Filtering by key distributes over concatenation. */
  lemma {:induction false} KeyEventsConcat(a: seq<Packet>, b: seq<Packet>, k: string)
    ensures KeyEvents(a + b, k) == KeyEvents(a, k) + KeyEvents(b, k)
  {
    if a == [] {
      assert a + b == b;
    } else {
      var c := a + b;
      assert c[0] == a[0] && c[1..] == a[1..] + b;
      KeyEventsConcat(a[1..], b, k);
      var h := if a[0].key == k then [a[0].data] else [];
      assert KeyEvents(c, k) == h + KeyEvents(a[1..] + b, k);
      assert KeyEvents(a, k) == h + KeyEvents(a[1..], k);
      SeqAssoc(h, KeyEvents(a[1..], k), KeyEvents(b, k));
    }
  }

  /** The buckets after appending every packet of ps, one at a time from the front. */
  function AccumulateAll(bs: Buckets, ps: seq<Packet>): Buckets
    requires AllCompatible(bs, ps)
    decreases |ps|
  {
    if ps == [] then bs else AccumulateAll(Accumulate(bs, ps[0]), ps[1..])
  }

  /** Every packet of ps can be appended when its turn comes. */
  predicate AllCompatible(bs: Buckets, ps: seq<Packet>)
    decreases |ps|
  {
    ps == [] || (Compatible(bs, ps[0]) && AllCompatible(Accumulate(bs, ps[0]), ps[1..]))
  }

  /**
   * Appending packets in queue order leaves each key's bucket holding its old
   * events followed by that key's new events in submission order: nothing is
   * lost, duplicated or reordered within a key.
   */
  lemma {:induction false} AccumulateAllInOrder(bs: Buckets, ps: seq<Packet>, k: string)
    requires AllCompatible(bs, ps)
    ensures BucketEvents(AccumulateAll(bs, ps), k) == BucketEvents(bs, k) + KeyEvents(ps, k)
    decreases |ps|
  {
    if ps == [] {
      assert BucketEvents(bs, k) + [] == BucketEvents(bs, k);
    } else {
      var p := ps[0];
      var next := Accumulate(bs, p);
      var rest := ps[1..];
      var after := AccumulateAll(next, rest);
      assert AccumulateAll(bs, ps) == after;
      var e0, e1, e2 := BucketEvents(bs, k), BucketEvents(next, k), BucketEvents(after, k);
      var k0, k1 := KeyEvents([p], k), KeyEvents(rest, k);
      AccumulateAllInOrder(next, rest, k);
      assert e2 == e1 + k1;
      AccumulateEvents(bs, p, k);
      assert e1 == e0 + k0;
      KeyEventsCons(ps, k);
      assert KeyEvents(ps, k) == k0 + k1;
      SeqAssoc(e0, k0, k1);
    }
  }

  /** Concatenation is associative (stated once so that proofs can cite it). */
  lemma SeqAssoc<T>(a: seq<T>, b: seq<T>, c: seq<T>)
    ensures (a + b) + c == a + (b + c)
  {
  }

  /** The first packet's share of a key's events comes first. */
  lemma KeyEventsCons(ps: seq<Packet>, k: string)
    requires ps != []
    ensures KeyEvents(ps, k) == KeyEvents([ps[0]], k) + KeyEvents(ps[1..], k)
  {
    assert KeyEvents([ps[0]], k) == (if ps[0].key == k then [ps[0].data] else []) + KeyEvents([], k);
  }

  /** One append adds the packet's event to its own key and leaves every other key's events alone. */
  lemma AccumulateEvents(bs: Buckets, p: Packet, k: string)
    requires Compatible(bs, p)
    ensures BucketEvents(Accumulate(bs, p), k) == BucketEvents(bs, k) + KeyEvents([p], k)
  {
    assert KeyEvents([p], k) == if p.key == k then [p.data] else [];
  }
}
