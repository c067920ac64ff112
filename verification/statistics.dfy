/**
 * The statistics engine: for one horizon, the quotes no older than the
 * horizon are kept, and performance, average volume, price range and
 * volatility are computed over them. Volatility is the population standard
 * deviation of the price; it is represented by its square, the variance,
 * to stay within real arithmetic.
 *
 * Instants are whole days relative to an arbitrary origin; `now` is a
 * parameter.
 */
module Statistics {
  import opened Arithmetic
  import opened Quotes

  /** One quote as the engine sees it: when, at what price, with what volume. */
  datatype Sample = Sample(stamp: int, price: real, volume: real)

  /** The results for one horizon; all zero when no quote is inside it. */
  datatype Stats = Stats(performance: real, avgVolume: real, low: real, high: real, variance: real)

  /** The quotes stamped no earlier than `now - horizon`, in their original order. */
  function InHorizon(qs: seq<Sample>, now: int, horizon: nat): (r: seq<Sample>)
    ensures |r| <= |qs|
    ensures forall i :: 0 <= i < |r| ==> r[i].stamp >= now - horizon
  {
    if |qs| == 0 then []
    else (if qs[0].stamp >= now - horizon then [qs[0]] else []) + InHorizon(qs[1..], now, horizon)
  }

  /** A quote is kept exactly when it is no older than the horizon. */
  lemma {:induction false} InHorizonMembers(qs: seq<Sample>, now: int, horizon: nat)
    ensures forall s :: s in InHorizon(qs, now, horizon) <==> s in qs && s.stamp >= now - horizon
  {
    if |qs| > 0 {
      InHorizonMembers(qs[1..], now, horizon);
      assert qs == [qs[0]] + qs[1..];
    }
  }

  /** When every quote is inside the horizon, the filter keeps the sequence as is. */
  lemma {:induction false} InHorizonKeepsAll(qs: seq<Sample>, now: int, horizon: nat)
    requires forall i :: 0 <= i < |qs| ==> qs[i].stamp >= now - horizon
    ensures InHorizon(qs, now, horizon) == qs
  {
    if |qs| > 0 {
      InHorizonKeepsAll(qs[1..], now, horizon);
      assert qs == [qs[0]] + qs[1..];
    }
  }

  /** A longer horizon keeps every quote a shorter one keeps. */
  lemma InHorizonMonotone(qs: seq<Sample>, now: int, shorter: nat, longer: nat)
    requires shorter <= longer
    ensures forall s :: s in InHorizon(qs, now, shorter) ==> s in InHorizon(qs, now, longer)
  {
    InHorizonMembers(qs, now, shorter);
    InHorizonMembers(qs, now, longer);
  }

  function Prices(qs: seq<Sample>): (ps: seq<real>)
    ensures |ps| == |qs| && forall i :: 0 <= i < |qs| ==> ps[i] == qs[i].price
  {
    seq(|qs|, i requires 0 <= i < |qs| => qs[i].price)
  }

  function Volumes(qs: seq<Sample>): (vs: seq<real>)
    ensures |vs| == |qs| && forall i :: 0 <= i < |qs| ==> vs[i] == qs[i].volume
  {
    seq(|qs|, i requires 0 <= i < |qs| => qs[i].volume)
  }

  /**
   * Percentage change from the first to the last price. A zero first price
   * gives 0 here; the service's own behaviour for it is not part of this
   * model.
   */
  function Performance(first: real, last: real): (p: real)
    ensures first != 0.0 ==> p * first == (last - first) * 100.0
  {
    if first == 0.0 then 0.0 else (last - first) / first * 100.0
  }

  /**
   * Percentage change from the first to the last kept price. Among quotes
   * with equal stamps the later one in the sequence is the last.
   */
  function PerformanceOf(f: seq<Sample>): (p: real)
    ensures |f| == 0 ==> p == 0.0
    ensures |f| > 0 && f[0].price != 0.0 ==> p * f[0].price == (f[|f| - 1].price - f[0].price) * 100.0
  {
    if |f| == 0 then 0.0 else Performance(f[0].price, f[|f| - 1].price)
  }

  /** Mean volume of the kept quotes. */
  function AvgVolume(f: seq<Sample>): (a: real)
    ensures |f| == 0 ==> a == 0.0
    ensures a * (|f| as real) == Sum(Volumes(f))
  {
    if |f| == 0 then 0.0 else Mean(Volumes(f))
  }

  /** Least kept price. */
  function Low(f: seq<Sample>): (lo: real)
    ensures |f| == 0 ==> lo == 0.0
    ensures forall i :: 0 <= i < |f| ==> lo <= f[i].price
    ensures |f| > 0 ==> exists i :: 0 <= i < |f| && f[i].price == lo
  {
    if |f| == 0 then 0.0
    else
      var ps := Prices(f);
      var i :| 0 <= i < |ps| && Min(ps) == ps[i];
      assert f[i].price == Min(ps);
      Min(ps)
  }

  /** Greatest kept price. */
  function High(f: seq<Sample>): (hi: real)
    ensures |f| == 0 ==> hi == 0.0
    ensures forall i :: 0 <= i < |f| ==> f[i].price <= hi
    ensures |f| > 0 ==> exists i :: 0 <= i < |f| && f[i].price == hi
  {
    if |f| == 0 then 0.0
    else
      var ps := Prices(f);
      var i :| 0 <= i < |ps| && Max(ps) == ps[i];
      assert f[i].price == Max(ps);
      Max(ps)
  }

  /** Volatility squared: the population variance of the kept prices. */
  function Volatility(f: seq<Sample>): (v: real)
    ensures |f| == 0 ==> v == 0.0
    ensures v >= 0.0
    ensures |f| > 0 ==> v * (|f| as real) == SquaredDeviations(Prices(f), Mean(Prices(f)))
  {
    if |f| == 0 then 0.0 else Variance(Prices(f))
  }

  /** The average volume lies between the least and the greatest kept volume. */
  lemma AvgVolumeBetween(f: seq<Sample>)
    requires |f| > 0
    ensures Min(Volumes(f)) <= AvgVolume(f) <= Max(Volumes(f))
  {
    MeanBetween(Volumes(f));
  }

  /**
   * The squared volatility is positive exactly when two kept prices differ;
   * with its non-negativity, it is zero exactly when all kept prices are equal.
   */
  lemma VolatilityPositive(f: seq<Sample>)
    ensures Volatility(f) > 0.0 <==> exists i, j :: 0 <= i < |f| && 0 <= j < |f| && f[i].price != f[j].price
  {
    if |f| > 0 {
      var ps := Prices(f);
      VariancePositive(ps);
      if exists i, j :: 0 <= i < |f| && 0 <= j < |f| && f[i].price != f[j].price {
        var i, j :| 0 <= i < |f| && 0 <= j < |f| && f[i].price != f[j].price;
        assert ps[i] != ps[j];
      }
    }
  }

  /** The statistics of the kept quotes; all zero when there are none. */
  function Summarize(f: seq<Sample>): (st: Stats)
    ensures |f| == 0 ==> st == Stats(0.0, 0.0, 0.0, 0.0, 0.0)
    ensures |f| > 0 ==> st.low <= st.high
  {
    Stats(PerformanceOf(f), AvgVolume(f), Low(f), High(f), Volatility(f))
  }

  /** The statistics of one horizon. */
  function Analyze(qs: seq<Sample>, now: int, horizon: nat): (st: Stats)
    ensures |InHorizon(qs, now, horizon)| == 0 ==> st == Stats(0.0, 0.0, 0.0, 0.0, 0.0)
  {
    Summarize(InHorizon(qs, now, horizon))
  }

  /** Stamps never decrease along the sequence. */
  predicate Chronological(qs: seq<Sample>)
  {
    forall i, j :: 0 <= i < j < |qs| ==> qs[i].stamp <= qs[j].stamp
  }

  /** Filtering keeps a chronological sequence chronological. */
  lemma {:induction false} InHorizonChronological(qs: seq<Sample>, now: int, horizon: nat)
    requires Chronological(qs)
    ensures Chronological(InHorizon(qs, now, horizon))
  {
    if |qs| > 0 {
      var rest := InHorizon(qs[1..], now, horizon);
      assert Chronological(qs[1..]) by {
        assert forall i :: 0 <= i < |qs| - 1 ==> qs[1..][i] == qs[i + 1];
      }
      InHorizonChronological(qs[1..], now, horizon);
      if qs[0].stamp >= now - horizon {
        var r := [qs[0]] + rest;
        forall i, j | 0 <= i < j < |r|
          ensures r[i].stamp <= r[j].stamp
        {
          if i == 0 {
            InHorizonMembers(qs[1..], now, horizon);
            assert rest[j - 1] in rest;
            var k :| 0 <= k < |qs[1..]| && qs[1..][k] == rest[j - 1];
            assert qs[k + 1] == r[j];
          } else {
            assert r[i] == rest[i - 1] && r[j] == rest[j - 1];
          }
        }
      }
    }
  }

  /**
   * On a chronological input, the quote performance starts from is the
   * earliest kept one and the quote it ends at is a latest kept one.
   */
  lemma FirstAndLastAreExtremes(qs: seq<Sample>, now: int, horizon: nat)
    requires Chronological(qs) && |InHorizon(qs, now, horizon)| > 0
    ensures forall s :: s in InHorizon(qs, now, horizon) ==>
              InHorizon(qs, now, horizon)[0].stamp <= s.stamp
              <= InHorizon(qs, now, horizon)[|InHorizon(qs, now, horizon)| - 1].stamp
  {
    var f := InHorizon(qs, now, horizon);
    InHorizonChronological(qs, now, horizon);
    forall s | s in f
      ensures f[0].stamp <= s.stamp <= f[|f| - 1].stamp
    {
      var i :| 0 <= i < |f| && f[i] == s;
      if 0 < i {
        assert f[0].stamp <= f[i].stamp;
      }
      if i < |f| - 1 {
        assert f[i].stamp <= f[|f| - 1].stamp;
      }
    }
  }

  /** A Bitstamp quote reduced to what the engine reads: `last` and `volume`. */
  datatype BitstampQuote = BitstampQuote(createdAt: int, last: real, volume: real)

  function BitstampSample(q: BitstampQuote): Sample
  {
    Sample(q.createdAt, q.last, q.volume)
  }

  /** The engine reads a Bitfinex quote's `last_price` and `volume` fields. */
  const LastPriceIndex: nat := 3
  const VolumeIndex: nat := 6

  function BitfinexSample(q: Quote): (s: Sample)
    ensures s.stamp == q.createdAt
  {
    Sample(q.createdAt, Field(q, LastPriceIndex), Field(q, VolumeIndex))
  }

  /** The indices the Bitfinex projection reads name `last_price` and `volume`. */
  lemma BitfinexProjectionFields()
    ensures FieldNames(Bitfinex)[LastPriceIndex] == "last_price"
    ensures FieldNames(Bitfinex)[VolumeIndex] == "volume"
  {
  }
}
