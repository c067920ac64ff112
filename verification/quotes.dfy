/**
 * Raw and aggregated quotes of the two exchanges whose rollups are modelled
 * (Itbit and Bitfinex), and the field-wise reduce step both services use to
 * fold a bucket of raw quotes into one aggregate.
 *
 * A quote is a flat record: a pair (which may be unset), the ingestion
 * instant `createdAt` in milliseconds, the exchange's numeric fields as a
 * vector of reals, and one exchange-specific non-numeric value `meta`
 * (Itbit's `serverTimeUTC`, Bitfinex's `timestamp`) that the fold carries
 * over from its accumulator.
 */
module Quotes {
  import opened Arithmetic

  datatype Option<T> = None | Some(value: T)

  datatype Exchange = Itbit | Bitfinex

  /** The numeric fields of each exchange's quote, in constructor order. */
  function FieldNames(x: Exchange): seq<string>
  {
    match x
    case Itbit =>
      ["bid", "bidAmt", "ask", "askAmt", "lastPrice", "stAmt", "volume24h", "volumeToday",
       "high24h", "low24h", "openToday", "highToday", "lowToday", "vwapToday", "vwap24h"]
    case Bitfinex =>
      ["mid", "bid", "ask", "last_price", "low", "high", "volume"]
  }

  /** The number of numeric fields: one per name. */
  function Width(x: Exchange): (n: nat)
    ensures n == |FieldNames(x)|
  {
    match x
    case Itbit => 15
    case Bitfinex => 7
  }

  /** Itbit's `serverTimeUTC` instant, or Bitfinex's `timestamp` text. */
  datatype Meta = ServerTime(millis: int) | Timestamp(text: string)

  datatype Quote = Quote(pair: Option<string>, createdAt: int, fields: seq<real>, meta: Meta)

  /** A quote of exchange x carries exactly that exchange's numeric fields. */
  predicate WellFormed(x: Exchange, q: Quote)
  {
    |q.fields| == Width(x)
  }

  /**
   * Numeric field k of a quote. The model assumes every stored quote
   * carries every field (no null numbers); reading an absent one as zero
   * only keeps the model's functions total.
   */
  function Field(q: Quote, k: nat): real
  {
    if k < |q.fields| then q.fields[k] else 0.0
  }

  /**
   * `ServiceUtils.avgHourValue(acc, sample, count)`: adds one sample's share
   * of the mean to the running total, i.e. acc + sample / count.
   */
  function AvgHourValue(acc: real, sample: real, count: nat): (r: real)
    requires count > 0
    ensures (r - acc) * (count as real) == sample
  {
    acc + sample / (count as real)
  }

  /**
   * One reduce step, `avgIbQuote(q1, q2, count)` / `avgBfQuote(q1, q2, count)`.
   * Every numeric field goes through AvgHourValue; `createdAt` and `meta`
   * come from the accumulator q1. Itbit's constructor takes the pair from
   * q1; Bitfinex's constructor takes no pair, so the step leaves it unset.
   */
  function AvgQuote(x: Exchange, q1: Quote, q2: Quote, count: nat): (r: Quote)
    requires count > 0
    ensures |r.fields| == |q1.fields| && r.createdAt == q1.createdAt && r.meta == q1.meta
    ensures r.pair == (if x.Itbit? then q1.pair else None)
    ensures forall k :: 0 <= k < |q1.fields| ==> r.fields[k] == q1.fields[k] + Field(q2, k) / (count as real)
  {
    Quote(if x.Itbit? then q1.pair else None, q1.createdAt,
          seq(|q1.fields|, k requires 0 <= k < |q1.fields| => AvgHourValue(q1.fields[k], Field(q2, k), count)),
          q1.meta)
  }

  /** `stream.reduce(seed, step)` on a sequential stream: a left fold. */
  function Reduce(x: Exchange, acc: Quote, qs: seq<Quote>, count: nat): (r: Quote)
    requires count > 0
    ensures |r.fields| == |acc.fields| && r.createdAt == acc.createdAt && r.meta == acc.meta
    decreases |qs|
  {
    if |qs| == 0 then acc
    else Reduce(x, AvgQuote(x, acc, qs[0], count), qs[1..], count)
  }

  /** Field k of every quote, in order. */
  function Column(qs: seq<Quote>, k: nat): (c: seq<real>)
    ensures |c| == |qs|
    ensures forall i :: 0 <= i < |qs| ==> c[i] == Field(qs[i], k)
  {
    seq(|qs|, i requires 0 <= i < |qs| => Field(qs[i], k))
  }

  /**
   * What the fold keeps: the number of fields, `createdAt` and `meta` are
   * the accumulator's, and so is the pair for Itbit (or when nothing is
   * folded).
   */
  lemma {:induction false} ReduceKeeps(x: Exchange, acc: Quote, qs: seq<Quote>, count: nat)
    requires count > 0
    ensures |Reduce(x, acc, qs, count).fields| == |acc.fields|
    ensures Reduce(x, acc, qs, count).createdAt == acc.createdAt
    ensures Reduce(x, acc, qs, count).meta == acc.meta
    ensures x.Itbit? || |qs| == 0 ==> Reduce(x, acc, qs, count).pair == acc.pair
    decreases |qs|
  {
    if |qs| > 0 {
      ReduceKeeps(x, AvgQuote(x, acc, qs[0], count), qs[1..], count);
    }
  }

  /**
   * Bitfinex's step builds a quote without a pair, so a fold over at least
   * one quote leaves the pair unset whatever the seed held; `setPair(key)`
   * after the fold is what restores it.
   */
  lemma {:induction false} BitfinexFoldUnsetsPair(acc: Quote, qs: seq<Quote>, count: nat)
    requires count > 0 && |qs| > 0
    ensures Reduce(Bitfinex, acc, qs, count).pair == None
    decreases |qs|
  {
    var next := AvgQuote(Bitfinex, acc, qs[0], count);
    if |qs| == 1 {
      ReduceKeeps(Bitfinex, next, qs[1..], count);
    } else {
      BitfinexFoldUnsetsPair(next, qs[1..], count);
    }
  }

  /**
   * What the fold computes for field k: the accumulator's value plus the
   * column sum divided by `count`.
   */
  lemma {:induction false} ReduceField(x: Exchange, acc: Quote, qs: seq<Quote>, count: nat, k: nat)
    requires count > 0 && k < |acc.fields|
    ensures |Reduce(x, acc, qs, count).fields| == |acc.fields|
    ensures Reduce(x, acc, qs, count).fields[k] == acc.fields[k] + Sum(Column(qs, k)) / (count as real)
    decreases |qs|
  {
    ReduceKeeps(x, acc, qs, count);
    if |qs| > 0 {
      var next := AvgQuote(x, acc, qs[0], count);
      var rest := qs[1..];
      ReduceField(x, next, rest, count, k);
      var c := count as real;
      var col := Column(qs, k);
      assert col[1..] == Column(rest, k);
      var v := Field(qs[0], k);
      var s := Sum(Column(rest, k));
      assert Sum(col) == v + s;
      assert next.fields[k] == acc.fields[k] + v / c;
      assert v / c + s / c == (v + s) / c;
    }
  }

  function Zeros(n: nat): (z: seq<real>)
    ensures |z| == n
    ensures forall i :: 0 <= i < n ==> z[i] == 0.0
  {
    seq(n, i => 0.0)
  }

  /**
   * The fold's identity element: all numeric fields zero, `createdAt` the
   * bucket start. Itbit's seed carries the group key as pair; Bitfinex's
   * seed has no pair (its trailing "" argument is the exchange timestamp).
   */
  function Seed(x: Exchange, key: Option<string>, stamp: int, seedMeta: Meta): (s: Quote)
    ensures WellFormed(x, s)
  {
    Quote(if x.Itbit? then key else None, stamp, Zeros(Width(x)), seedMeta)
  }

  /** The row an aggregate must be: the field-wise mean of its bucket, keyed and stamped. */
  predicate IsMeanOf(x: Exchange, key: Option<string>, bucket: seq<Quote>, stamp: int, seedMeta: Meta, a: Quote)
  {
    && |bucket| > 0
    && a.pair == key
    && a.createdAt == stamp
    && a.meta == seedMeta
    && WellFormed(x, a)
    && forall k :: 0 <= k < Width(x) ==> a.fields[k] == Mean(Column(bucket, k))
  }

  /**
   * The aggregate of one bucket: the zero-seeded fold with count = the
   * bucket size, then (Bitfinex only) `setPair(key)`. The row carries the
   * group key as pair, the bucket start as `createdAt` and the seed's meta.
   */
  function Aggregate(x: Exchange, key: Option<string>, bucket: seq<Quote>, stamp: int, seedMeta: Meta): (a: Quote)
    requires |bucket| > 0
    ensures a.pair == key && a.createdAt == stamp && a.meta == seedMeta && WellFormed(x, a)
  {
    var seed := Seed(x, key, stamp, seedMeta);
    ReduceKeeps(x, seed, bucket, |bucket|);
    var folded := Reduce(x, seed, bucket, |bucket|);
    if x.Bitfinex? then folded.(pair := key) else folded
  }

  /**
   * Assuming avgHourValue(a, b, n) = a + b / n, every numeric field of an
   * aggregate is the arithmetic mean of that field over the bucket.
   */
  lemma AggregateIsMean(x: Exchange, key: Option<string>, bucket: seq<Quote>, stamp: int, seedMeta: Meta)
    requires |bucket| > 0
    ensures IsMeanOf(x, key, bucket, stamp, seedMeta, Aggregate(x, key, bucket, stamp, seedMeta))
  {
    var seed := Seed(x, key, stamp, seedMeta);
    var a := Aggregate(x, key, bucket, stamp, seedMeta);
    forall k | 0 <= k < Width(x)
      ensures a.fields[k] == Mean(Column(bucket, k))
    {
      ReduceField(x, seed, bucket, |bucket|, k);
    }
  }
}
