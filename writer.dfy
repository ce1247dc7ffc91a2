/**
 * The batching writer `w` and its consumer loop `writer.write`, without the
 * goroutine, channel, timer and mutex. The unbounded channel is a FIFO queue
 * of packets; each turn of the loop either takes the next packet and appends
 * it (`case m := <-w.c.Out()`) or flushes (`case <-time.After(w.interval)`),
 * and the caller says which of the two woke the `select`.
 *
 * Ghost state records what the loop has been given and what it has handed
 * on: every packet ever written, the events each key has delivered in
 * flushes so far, and the kind each key was first used with.
 */
module BatchWriter {
  import opened Events
  import opened Accumulator
  import opened Columns

  /** The events key k has delivered according to the record `sunk` (none when k is absent). */
  function SunkEvents(sunk: map<string, seq<Event>>, k: string): seq<Event>
  {
    if k in sunk then sunk[k] else []
  }

  /** Each key keeps the kind of event it was first written with, in its bucket and in the queue. */
  ghost predicate KindsCover(kinds: map<string, Kind>, bs: Buckets, queue: seq<Packet>)
  {
    && (forall k :: k in bs ==> k in kinds && kinds[k] == BucketKind(bs[k]))
    && (forall i :: 0 <= i < |queue| ==> queue[i].key in kinds && kinds[queue[i].key] == EventKind(queue[i].data))
  }

  /** Every key's recorded kind is the kind of some packet written under that key. */
  ghost predicate KindsWitnessed(kinds: map<string, Kind>, submitted: seq<Packet>)
  {
    forall k :: k in kinds ==>
      exists i :: 0 <= i < |submitted| && submitted[i].key == k && EventKind(submitted[i].data) == kinds[k]
  }

  /** Every packet written so far was built the way the handlers build packets. */
  ghost predicate HandlerBuilt(submitted: seq<Packet>)
  {
    forall i :: 0 <= i < |submitted| ==> WellKinded(submitted[i])
  }

  /**
   * Exactly once, in order: the events written under a key are those it has
   * delivered, then those in its bucket, then those still queued.
   */
  ghost predicate Conserves(submitted: seq<Packet>, sunk: map<string, seq<Event>>, bs: Buckets, queue: seq<Packet>)
  {
    forall k :: KeyEvents(submitted, k) == SunkEvents(sunk, k) + BucketEvents(bs, k) + KeyEvents(queue, k)
  }

  /** After a flush every key keeps its kind. */
  lemma DrainedKinds(kinds: map<string, Kind>, bs: Buckets, queue: seq<Packet>)
    requires KindsCover(kinds, bs, queue)
    ensures KindsCover(kinds, Drained(bs), queue)
  {
  }

  /** A flush that moves every bucket's events to the delivered record keeps every key's events in order. */
  lemma DrainedConserves(submitted: seq<Packet>, d0: map<string, seq<Event>>, bs: Buckets, queue: seq<Packet>,
                         d: map<string, seq<Event>>)
    requires Conserves(submitted, d0, bs, queue)
    requires forall k :: SunkEvents(d, k) == SunkEvents(d0, k) + BucketEvents(bs, k)
    ensures Conserves(submitted, d, Drained(bs), queue)
  {
    forall k
      ensures KeyEvents(submitted, k) == SunkEvents(d, k) + BucketEvents(Drained(bs), k) + KeyEvents(queue, k)
    {
      var x, y, q := SunkEvents(d0, k), BucketEvents(bs, k), KeyEvents(queue, k);
      assert KeyEvents(submitted, k) == x + y + q;
      assert SunkEvents(d, k) == x + y;
      assert BucketEvents(Drained(bs), k) == [] by {
        if k in bs {
          assert Drained(bs)[k] == Cleared(bs[k]);
        }
      }
      assert (x + y) + [] == x + y;
    }
  }

  class Writer {
    /** The packets written and not yet taken by the loop, oldest first. */
    var queue: seq<Packet>
    /** `w.dataBuckets`. */
    var buckets: Buckets
    /** The `bidPx`/`askPx` scratch slices of `write`, which live as long as the loop. */
    var scratch: Scratch

    ghost var submitted: seq<Packet>
    ghost var sunk: map<string, seq<Event>>
    ghost var kinds: map<string, Kind>

    /** The events key k has delivered in flushes so far. */
    ghost function Sunk(k: string): seq<Event>
      reads this
    {
      SunkEvents(sunk, k)
    }

    ghost predicate Valid()
      reads this
    {
      && KindsCover(kinds, buckets, queue)
      && KindsWitnessed(kinds, submitted)
      && Conserves(submitted, sunk, buckets, queue)
      && (scratch.shared ==> scratch.cap >= 1)
    }

    /** The writer as the package initialises it: no buckets, an empty channel, nil scratch slices. */
    constructor ()
      ensures Valid()
      ensures queue == [] && buckets == map[] && scratch == INITIAL_SCRATCH
      ensures submitted == [] && sunk == map[] && kinds == map[]
    {
      queue, buckets, scratch := [], map[], INITIAL_SCRATCH;
      submitted, sunk, kinds := [], map[], map[];
    }

    /**
     * `Write`: put a packet on the channel. It never blocks. The packet's key
     * must not have carried the other kind of event before (the handlers build
     * keys whose suffix names the kind, see `HandlerPacketSubmittable`).
     */
    method Submit(pkt: Packet)
      requires Valid()
      requires pkt.key in kinds ==> kinds[pkt.key] == EventKind(pkt.data)
      modifies this
      ensures Valid()
      ensures queue == old(queue) + [pkt] && buckets == old(buckets) && scratch == old(scratch)
      ensures submitted == old(submitted) + [pkt] && sunk == old(sunk)
      ensures kinds == old(kinds)[pkt.key := EventKind(pkt.data)]
    {
      forall k
        ensures KeyEvents(submitted + [pkt], k) == Sunk(k) + BucketEvents(buckets, k) + KeyEvents(queue + [pkt], k)
      {
        KeyEventsConcat(submitted, [pkt], k);
        KeyEventsConcat(queue, [pkt], k);
        SeqAssoc(Sunk(k) + BucketEvents(buckets, k), KeyEvents(queue, k), KeyEvents([pkt], k));
      }
      ghost var s' := submitted + [pkt];
      forall k | k in kinds && k != pkt.key
        ensures exists i :: 0 <= i < |s'| && s'[i].key == k && EventKind(s'[i].data) == kinds[k]
      {
        var i :| 0 <= i < |submitted| && submitted[i].key == k && EventKind(submitted[i].data) == kinds[k];
        assert s'[i] == submitted[i];
      }
      assert s'[|submitted|] == pkt;
      queue := queue + [pkt];
      submitted := s';
      kinds := kinds[pkt.key := EventKind(pkt.data)];
    }

    /**
     * When every packet written so far came from the handlers, the next
     * handler-built packet meets `Submit`'s kind requirement, and writing it
     * keeps every packet handler-built.
     */
    lemma HandlerPacketSubmittable(pkt: Packet)
      requires Valid() && HandlerBuilt(submitted) && WellKinded(pkt)
      ensures pkt.key in kinds ==> kinds[pkt.key] == EventKind(pkt.data)
      ensures HandlerBuilt(submitted + [pkt])
    {
      if pkt.key in kinds {
        var i :| 0 <= i < |submitted| && submitted[i].key == pkt.key && EventKind(submitted[i].data) == kinds[pkt.key];
        WellKindedAgree(submitted[i], pkt);
      }
      assert (submitted + [pkt])[|submitted|] == pkt;
    }

    /** The append branch proper: file the packet's event under its key (the type assertions must hold). */
    method Append(pkt: Packet)
      requires Compatible(buckets, pkt)
      modifies this`buckets
      ensures buckets == Accumulate(old(buckets), pkt)
    {
      if pkt.key in buckets {
        var bucket := buckets[pkt.key];
        match pkt.data
        case QuoteEvent(q) =>
          buckets := buckets[pkt.key := Quotes(bucket.quotes + [q])];
        case TradeEvent(t) =>
          buckets := buckets[pkt.key := Trades(bucket.trades + [t])];
      } else {
        match pkt.data
        case QuoteEvent(q) =>
          buckets := buckets[pkt.key := Quotes([q])];
        case TradeEvent(t) =>
          buckets := buckets[pkt.key := Trades([t])];
      }
    }

    /** The first packet on the channel can always be appended. */
    lemma HeadCompatible()
      requires Valid() && queue != []
      ensures Compatible(buckets, queue[0])
    {
    }

    /** `case m := <-w.c.Out()`: take the oldest packet and append it. */
    method Receive()
      requires Valid() && queue != []
      modifies this
      ensures Valid()
      ensures old(Compatible(buckets, queue[0]))
      ensures buckets == Accumulate(old(buckets), old(queue[0]))
      ensures queue == old(queue[1..]) && scratch == old(scratch)
      ensures submitted == old(submitted) && sunk == old(sunk) && kinds == old(kinds)
    {
      HeadCompatible();
      var pkt := queue[0];
      ghost var before := buckets;
      Append(pkt);
      forall k
        ensures KeyEvents(submitted, k) == Sunk(k) + BucketEvents(buckets, k) + KeyEvents(queue[1..], k)
      {
        KeyEventsCons(queue, k);
        AccumulateEvents(before, pkt, k);
        SeqAssoc(Sunk(k), BucketEvents(before, k), KeyEvents([pkt], k));
        SeqAssoc(Sunk(k) + BucketEvents(before, k), KeyEvents([pkt], k), KeyEvents(queue[1..], k));
      }
      queue := queue[1..];
    }

    /**
     * `case <-time.After(w.interval)`: turn every non-empty bucket into its
     * columns and truncate it, visiting the keys in an order of the runtime's
     * choosing. `modes` records, for each quote key, the scratch state its
     * bucket was transposed with, which depends on that order.
     */
    method Flush() returns (csm: ColumnSeriesMap, ghost modes: map<string, Scratch>)
      requires Valid()
      modifies this
      ensures Valid()
      ensures queue == old(queue) && submitted == old(submitted) && kinds == old(kinds)
      ensures buckets == Drained(old(buckets))
      ensures forall k :: Sunk(k) == old(Sunk(k)) + BucketEvents(old(buckets), k)
      ensures csm.Keys == NonEmptyKeys(old(buckets))
      ensures forall k :: k in csm && old(buckets)[k].Trades? ==> csm[k] == TradeColumns(old(buckets)[k].trades)
      ensures forall k :: k in modes <==> k in csm && old(buckets)[k].Quotes?
      ensures forall k :: k in modes ==> csm[k] == QuoteColumns(old(buckets)[k].quotes, modes[k])
      ensures forall k :: k in modes && modes[k].shared ==> modes[k].cap >= 1
      ensures old(scratch).shared ==> forall k :: k in modes ==> modes[k].shared
      ensures forall k, j :: k in modes && j in modes && !modes[k].shared && !modes[j].shared ==> k == j
      ensures !old(scratch).shared && modes != map[] ==> exists k :: k in modes && !modes[k].shared
      ensures scratch.shared == (old(scratch).shared || modes != map[])
      ensures modes == map[] ==> scratch == old(scratch)
    {
      ghost var d;
      var bs, sc;
      csm, modes, bs, sc, d := FlushBuckets(buckets, scratch, sunk);
      DrainedKinds(kinds, buckets, queue);
      DrainedConserves(submitted, sunk, buckets, queue, d);
      buckets, scratch, sunk := bs, sc, d;
    }

    /**
     * Once the channel is drained and a flush has emptied every bucket, each
     * key has delivered exactly the events written under it, in the order
     * they were written.
     */
    lemma AllDelivered(k: string)
      requires Valid() && queue == []
      requires forall j :: j in buckets ==> Size(buckets[j]) == 0
      ensures Sunk(k) == KeyEvents(submitted, k)
    {
      assert BucketEvents(buckets, k) == [] by {
        if k in buckets {
          var b := buckets[k];
          if b.Trades? { assert b.trades == []; } else { assert b.quotes == []; }
        }
      }
      assert Sunk(k) + [] + [] == Sunk(k);
    }

    /**
     * One turn of the consumer loop: when the timer fired, or (modelling an
     * idle interval) nothing is waiting, flush, with `modes` as in `Flush`;
     * otherwise take the next packet.
     */
    method Step(timerFired: bool) returns (csm: Option<ColumnSeriesMap>, ghost modes: map<string, Scratch>)
      requires Valid()
      modifies this
      ensures Valid()
      ensures submitted == old(submitted) && kinds == old(kinds)
      ensures !timerFired && old(queue) != [] ==>
        && old(Compatible(buckets, queue[0]))
        && csm.None? && queue == old(queue[1..]) && scratch == old(scratch) && sunk == old(sunk)
        && buckets == Accumulate(old(buckets), old(queue[0]))
      ensures timerFired || old(queue) == [] ==>
        && csm.Some? && queue == old(queue) && buckets == Drained(old(buckets))
        && csm.value.Keys == NonEmptyKeys(old(buckets))
        && (forall k :: Sunk(k) == old(Sunk(k)) + BucketEvents(old(buckets), k))
        && (forall k :: k in csm.value && old(buckets)[k].Trades? ==> csm.value[k] == TradeColumns(old(buckets)[k].trades))
        && (forall k :: k in modes <==> k in csm.value && old(buckets)[k].Quotes?)
        && (forall k :: k in modes ==> csm.value[k] == QuoteColumns(old(buckets)[k].quotes, modes[k]))
        && (forall k :: k in modes && modes[k].shared ==> modes[k].cap >= 1)
        && (old(scratch).shared ==> forall k :: k in modes ==> modes[k].shared)
        && (forall k, j :: k in modes && j in modes && !modes[k].shared && !modes[j].shared ==> k == j)
        && (!old(scratch).shared && modes != map[] ==> exists k :: k in modes && !modes[k].shared)
        && scratch.shared == (old(scratch).shared || modes != map[])
        && (modes == map[] ==> scratch == old(scratch))
    {
      if timerFired || queue == [] {
        var m;
        m, modes := Flush();
        csm := Some(m);
      } else {
        Receive();
        csm, modes := None, map[];
      }
    }
  }

  /** The keys not in `todo` have been visited by the flush and their buckets truncated. */
  ghost predicate BucketsVisited(b0: Buckets, todo: set<string>, bs: Buckets)
  {
    && todo <= b0.Keys && bs.Keys == b0.Keys
    && (forall k :: k in todo ==> bs[k] == b0[k])
    && (forall k :: k in b0 && k !in todo ==> bs[k] == Cleared(b0[k]))
  }

  lemma BucketsVisitedStep(b0: Buckets, todo: set<string>, bs: Buckets, k: string)
    requires BucketsVisited(b0, todo, bs) && k in todo
    ensures BucketsVisited(b0, todo - {k}, bs[k := Cleared(bs[k])])
  {
  }

  /** An empty bucket is already truncated, so visiting it changes nothing. */
  lemma BucketsVisitedSkip(b0: Buckets, todo: set<string>, bs: Buckets, k: string)
    requires BucketsVisited(b0, todo, bs) && k in todo && Size(bs[k]) == 0
    ensures BucketsVisited(b0, todo - {k}, bs)
  {
    assert bs[k] == Cleared(b0[k]) by {
      if bs[k].Trades? { assert bs[k].trades == []; } else { assert bs[k].quotes == []; }
    }
  }

  /** Once every key has been visited, the buckets are those of `Drained`. */
  lemma BucketsVisitedAll(b0: Buckets, bs: Buckets)
    requires BucketsVisited(b0, {}, bs)
    ensures bs == Drained(b0)
  {
  }

  /** The visited keys' events have been added to what they had delivered before the flush (`d0`). */
  ghost predicate Delivered(d0: map<string, seq<Event>>, b0: Buckets, todo: set<string>, d: map<string, seq<Event>>)
  {
    forall k :: SunkEvents(d, k) == SunkEvents(d0, k) + (if k in b0 && k !in todo then Contents(b0[k]) else [])
  }

  lemma DeliveredStep(d0: map<string, seq<Event>>, b0: Buckets, todo: set<string>, d: map<string, seq<Event>>,
                      k: string)
    requires Delivered(d0, b0, todo, d) && k in todo && k in b0
    ensures Delivered(d0, b0, todo - {k}, d[k := SunkEvents(d, k) + Contents(b0[k])])
  {
    var d' := d[k := SunkEvents(d, k) + Contents(b0[k])];
    forall j
      ensures SunkEvents(d', j) == SunkEvents(d0, j) + (if j in b0 && j !in todo - {k} then Contents(b0[j]) else [])
    {
      if j == k {
        assert SunkEvents(d, k) == SunkEvents(d0, k) + [] == SunkEvents(d0, k);
        assert SunkEvents(d', k) == SunkEvents(d, k) + Contents(b0[k]);
      } else {
        assert SunkEvents(d', j) == SunkEvents(d, j);
        assert (j in b0 && j !in todo - {k}) == (j in b0 && j !in todo);
      }
    }
  }

  lemma DeliveredAll(d0: map<string, seq<Event>>, b0: Buckets, d: map<string, seq<Event>>)
    requires Delivered(d0, b0, {}, d)
    ensures forall k :: SunkEvents(d, k) == SunkEvents(d0, k) + BucketEvents(b0, k)
  {
    forall k
      ensures SunkEvents(d, k) == SunkEvents(d0, k) + BucketEvents(b0, k)
    {
      assert k !in b0 ==> SunkEvents(d0, k) + [] == SunkEvents(d0, k);
    }
  }

  /** The keys with columns are the visited keys with non-empty buckets; `modes` holds the quote keys among them. */
  ghost predicate ColumnKeys(b0: Buckets, todo: set<string>, csm: ColumnSeriesMap, modes: map<string, Scratch>)
  {
    && (forall k :: k in csm <==> k in b0 && k !in todo && Size(b0[k]) > 0)
    && (forall k :: k in modes <==> k in csm && b0[k].Quotes?)
  }

  lemma ColumnKeysSkip(b0: Buckets, todo: set<string>, csm: ColumnSeriesMap, modes: map<string, Scratch>, k: string)
    requires ColumnKeys(b0, todo, csm, modes) && k in todo && k in b0 && Size(b0[k]) == 0
    ensures ColumnKeys(b0, todo - {k}, csm, modes)
  {
  }

  lemma ColumnKeysTrade(b0: Buckets, todo: set<string>, csm: ColumnSeriesMap, modes: map<string, Scratch>,
                        k: string, c: ColumnSet)
    requires ColumnKeys(b0, todo, csm, modes) && k in todo && k in b0 && Size(b0[k]) > 0 && b0[k].Trades?
    ensures ColumnKeys(b0, todo - {k}, csm[k := c], modes)
  {
  }

  lemma ColumnKeysQuote(b0: Buckets, todo: set<string>, csm: ColumnSeriesMap, modes: map<string, Scratch>,
                        k: string, c: ColumnSet, s: Scratch)
    requires ColumnKeys(b0, todo, csm, modes) && k in todo && k in b0 && Size(b0[k]) > 0 && b0[k].Quotes?
    ensures ColumnKeys(b0, todo - {k}, csm[k := c], modes[k := s])
  {
  }

  /** Each key's columns are built from its bucket as it was; a quote key's with the scratch state in `modes`. */
  ghost predicate ColumnValues(b0: Buckets, csm: ColumnSeriesMap, modes: map<string, Scratch>)
  {
    && (forall k :: k in csm && k in b0 && b0[k].Trades? ==> csm[k] == TradeColumns(b0[k].trades))
    && (forall k :: k in modes && k in csm && k in b0 && b0[k].Quotes? ==> csm[k] == QuoteColumns(b0[k].quotes, modes[k]))
  }

  lemma ColumnValuesTrade(b0: Buckets, csm: ColumnSeriesMap, modes: map<string, Scratch>, k: string)
    requires ColumnValues(b0, csm, modes) && k in b0 && b0[k].Trades? && k !in modes
    ensures ColumnValues(b0, csm[k := TradeColumns(b0[k].trades)], modes)
  {
  }

  lemma ColumnValuesQuote(b0: Buckets, csm: ColumnSeriesMap, modes: map<string, Scratch>, k: string, s: Scratch)
    requires ColumnValues(b0, csm, modes) && k in b0 && b0[k].Quotes?
    ensures ColumnValues(b0, csm[k := QuoteColumns(b0[k].quotes, s)], modes[k := s])
  {
  }

  /**
   * The scratch states the visited quote keys were transposed with, starting
   * from `s0`: once any quote key has been visited the slices are shared, so
   * at most the first quote key visited sees them unshared.
   */
  ghost predicate ScratchHistory(modes: map<string, Scratch>, s0: Scratch, s: Scratch)
  {
    && (forall k :: k in modes && modes[k].shared ==> modes[k].cap >= 1)
    && (s0.shared ==> forall k :: k in modes ==> modes[k].shared)
    && (forall k, j :: k in modes && j in modes && !modes[k].shared && !modes[j].shared ==> k == j)
    && (!s0.shared && modes != map[] ==> exists k :: k in modes && !modes[k].shared)
    && (modes == map[] ==> s == s0)
    && s.shared == (s0.shared || modes != map[])
    && (s.shared ==> s.cap >= 1)
  }

  lemma ScratchHistoryStep(modes: map<string, Scratch>, s0: Scratch, s: Scratch,
                           k: string, modes': map<string, Scratch>, s': Scratch)
    requires ScratchHistory(modes, s0, s) && k !in modes
    requires (modes' == modes && s' == s) || (modes' == modes[k := s] && s'.shared && s'.cap >= 1)
    ensures ScratchHistory(modes', s0, s')
  {
    if modes' != modes && !s0.shared {
      if modes == map[] {
        assert k in modes' && !modes'[k].shared;
      } else {
        var j :| j in modes && !modes[j].shared;
        assert j in modes' && !modes'[j].shared;
      }
    }
  }

  /** How far the flush loop has got with the keys outside `todo`. */
  ghost predicate FlushInvariant(b0: Buckets, s0: Scratch, d0: map<string, seq<Event>>, todo: set<string>,
                                 bs: Buckets, csm: ColumnSeriesMap, modes: map<string, Scratch>, sc: Scratch,
                                 d: map<string, seq<Event>>)
  {
    && BucketsVisited(b0, todo, bs)
    && ColumnKeys(b0, todo, csm, modes) && ColumnValues(b0, csm, modes)
    && ScratchHistory(modes, s0, sc)
    && Delivered(d0, b0, todo, d)
  }

  /** The delivered record after visiting key k of `bs`. */
  ghost function Deliver(d: map<string, seq<Event>>, bs: Buckets, k: string): map<string, seq<Event>>
    requires k in bs
  {
    d[k := SunkEvents(d, k) + Contents(bs[k])]
  }

  /** One turn of the flush loop: visit key k. */
  method VisitKey(b0: Buckets, s0: Scratch, ghost d0: map<string, seq<Event>>, todo: set<string>, k: string,
                  bs: Buckets, csm: ColumnSeriesMap, ghost modes: map<string, Scratch>, sc: Scratch,
                  ghost d: map<string, seq<Event>>)
    returns (bs': Buckets, csm': ColumnSeriesMap, ghost modes': map<string, Scratch>, sc': Scratch,
             ghost d': map<string, seq<Event>>)
    requires FlushInvariant(b0, s0, d0, todo, bs, csm, modes, sc, d) && k in todo
    ensures FlushInvariant(b0, s0, d0, todo - {k}, bs', csm', modes', sc', d')
  {
    d' := Deliver(d, bs, k);
    if Size(bs[k]) == 0 {
      bs', csm', modes', sc' := bs, csm, modes, sc;
      VisitEmpty(b0, s0, d0, todo, k, bs, csm, modes, sc, d);
    } else if bs[k].Trades? {
      var cols, _ := TransposeBucket(bs[k], sc);
      bs', csm', modes', sc' := bs[k := Cleared(bs[k])], csm[k := cols], modes, sc;
      VisitTrades(b0, s0, d0, todo, k, bs, csm, modes, sc, d);
    } else {
      var cols, next := TransposeBucket(bs[k], sc);
      bs', csm', modes', sc' := bs[k := Cleared(bs[k])], csm[k := cols], modes[k := sc], next;
      VisitQuotes(b0, s0, d0, todo, k, bs, csm, modes, sc, d, next);
    }
  }

  lemma VisitEmpty(b0: Buckets, s0: Scratch, d0: map<string, seq<Event>>, todo: set<string>, k: string,
                   bs: Buckets, csm: ColumnSeriesMap, modes: map<string, Scratch>, sc: Scratch,
                   d: map<string, seq<Event>>)
    requires FlushInvariant(b0, s0, d0, todo, bs, csm, modes, sc, d) && k in todo && Size(bs[k]) == 0
    ensures FlushInvariant(b0, s0, d0, todo - {k}, bs, csm, modes, sc, Deliver(d, bs, k))
  {
    BucketsVisitedSkip(b0, todo, bs, k);
    ColumnKeysSkip(b0, todo, csm, modes, k);
    DeliveredStep(d0, b0, todo, d, k);
  }

  lemma VisitTrades(b0: Buckets, s0: Scratch, d0: map<string, seq<Event>>, todo: set<string>, k: string,
                    bs: Buckets, csm: ColumnSeriesMap, modes: map<string, Scratch>, sc: Scratch,
                    d: map<string, seq<Event>>)
    requires FlushInvariant(b0, s0, d0, todo, bs, csm, modes, sc, d) && k in todo
    requires Size(bs[k]) > 0 && bs[k].Trades?
    ensures FlushInvariant(b0, s0, d0, todo - {k}, bs[k := Cleared(bs[k])],
                           csm[k := TradeColumns(bs[k].trades)], modes, sc, Deliver(d, bs, k))
  {
    BucketsVisitedStep(b0, todo, bs, k);
    ColumnKeysTrade(b0, todo, csm, modes, k, TradeColumns(bs[k].trades));
    ColumnValuesTrade(b0, csm, modes, k);
    DeliveredStep(d0, b0, todo, d, k);
  }

  lemma VisitQuotes(b0: Buckets, s0: Scratch, d0: map<string, seq<Event>>, todo: set<string>, k: string,
                    bs: Buckets, csm: ColumnSeriesMap, modes: map<string, Scratch>, sc: Scratch,
                    d: map<string, seq<Event>>, next: Scratch)
    requires FlushInvariant(b0, s0, d0, todo, bs, csm, modes, sc, d) && k in todo
    requires Size(bs[k]) > 0 && bs[k].Quotes? && next.shared && next.cap >= 1
    ensures FlushInvariant(b0, s0, d0, todo - {k}, bs[k := Cleared(bs[k])],
                           csm[k := QuoteColumns(bs[k].quotes, sc)], modes[k := sc], next, Deliver(d, bs, k))
  {
    BucketsVisitedStep(b0, todo, bs, k);
    ColumnKeysQuote(b0, todo, csm, modes, k, QuoteColumns(bs[k].quotes, sc), sc);
    ColumnValuesQuote(b0, csm, modes, k, sc);
    ScratchHistoryStep(modes, s0, sc, k, modes[k := sc], next);
    DeliveredStep(d0, b0, todo, d, k);
  }

  /**
   * The flush loop over the buckets `b0`, starting from scratch state `s0`
   * and delivered record `d0`: every key is visited once, in an order of the
   * runtime's choosing (Go's map iteration order). Returns the column map,
   * the scratch state each quote key was transposed with, the truncated
   * buckets, and the scratch state and delivered record afterwards.
   */
  method FlushBuckets(b0: Buckets, s0: Scratch, ghost d0: map<string, seq<Event>>)
    returns (csm: ColumnSeriesMap, ghost modes: map<string, Scratch>, bs: Buckets, sc: Scratch,
             ghost d: map<string, seq<Event>>)
    requires s0.shared ==> s0.cap >= 1
    ensures bs == Drained(b0)
    ensures forall k :: SunkEvents(d, k) == SunkEvents(d0, k) + BucketEvents(b0, k)
    ensures csm.Keys == NonEmptyKeys(b0)
    ensures forall k :: k in modes <==> k in csm && b0[k].Quotes?
    ensures forall k :: k in csm && b0[k].Trades? ==> csm[k] == TradeColumns(b0[k].trades)
    ensures forall k :: k in modes ==> csm[k] == QuoteColumns(b0[k].quotes, modes[k])
    ensures ScratchHistory(modes, s0, sc)
  {
    csm, modes := map[], map[];
    bs, sc, d := b0, s0, d0;
    var todo := bs.Keys;
    while todo != {}
      invariant FlushInvariant(b0, s0, d0, todo, bs, csm, modes, sc, d)
      decreases todo
    {
      var k :| k in todo;
      bs, csm, modes, sc, d := VisitKey(b0, s0, d0, todo, k, bs, csm, modes, sc, d);
      todo := todo - {k};
    }
    BucketsVisitedAll(b0, bs);
    DeliveredAll(d0, b0, d);
  }

  /**
   * The body of the flush loop for one bucket, without the writer's state: its
   * columns, and the bid slice's scratch state afterwards. After a non-empty
   * quote bucket, `askPx = bidPx[:0]` leaves the two price slices sharing the
   * bid slice's array, whose capacity holds at least the bucket.
   */
  method TransposeBucket(b: Bucket, s: Scratch) returns (cols: ColumnSet, s': Scratch)
    ensures b.Trades? ==> cols == TradeColumns(b.trades) && s' == s
    ensures b.Quotes? ==> cols == QuoteColumns(b.quotes, s)
    ensures b.Quotes? && Size(b) > 0 ==> s'.shared && s'.cap >= Size(b) && s'.cap >= s.cap
    ensures b.Quotes? && Size(b) == 0 ==> s' == s
  {
    s' := s;
    match b
    case Quotes(qs) =>
      var epoch, nanos, bidPx, askPx, bidSz, askSz, cap := TransposeQuotes(qs, s);
      cols := map[EPOCH := epoch, NANOSECONDS := nanos, BID_PRICE := bidPx, ASK_PRICE := askPx,
                  BID_SIZE := bidSz, ASK_SIZE := askSz];
      if |epoch| > 0 {
        // askPx = bidPx[:0]
        s' := Scratch(true, cap);
      }
    case Trades(ts) =>
      var epoch, nanos, px, sz := TransposeTrades(ts);
      cols := map[EPOCH := epoch, NANOSECONDS := nanos, PRICE := px, SIZE := sz];
  }
}
