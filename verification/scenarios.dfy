/**
 * The three scenarios the statistics tests pin down. Nine quotes with
 * prices (and equal volumes) 10, 20, ..., 90 are stamped, relative to
 * today, 4 years, 15 months, 11 months, 5 months and 2 months ago and four
 * times 10 days ago. Calendar lengths are taken as whole days: a year is
 * 365 days (2 years 730, 5 years 1826), a month about 30.4 days; only
 * which side of each horizon a quote falls on matters.
 */
module StatisticsScenarios {
  import opened Arithmetic
  import opened Quotes
  import opened Statistics

  const Today: int := 0
  const OneYear: nat := 365
  const TwoYears: nat := 730
  const FiveYears: nat := 1826

  /** The test's stamps, in days before today. */
  const Ages: seq<int> := [1461, 457, 335, 153, 61, 10, 10, 10, 10]

  function ScenarioPrice(i: nat): real
  {
    10.0 * ((i + 1) as real)
  }

  /** The Bitfinex quotes of the 1- and 2-year tests: only `last_price` and `volume` set. */
  function BitfinexQuotes(): (qs: seq<Quote>)
    ensures |qs| == 9
  {
    seq(9, i requires 0 <= i < 9 =>
      Quote(None, Today - Ages[i], [0.0, 0.0, 0.0, ScenarioPrice(i), 0.0, 0.0, ScenarioPrice(i)], Timestamp("")))
  }

  /** The Bitstamp quotes of the 5-year test. */
  function BitstampQuotes(): (qs: seq<BitstampQuote>)
    ensures |qs| == 9
  {
    seq(9, i requires 0 <= i < 9 => BitstampQuote(Today - Ages[i], ScenarioPrice(i), ScenarioPrice(i)))
  }

  /** Both lists give the engine the same samples. */
  function Samples(): (s: seq<Sample>)
    ensures |s| == 9
  {
    seq(9, i requires 0 <= i < 9 => Sample(Today - Ages[i], ScenarioPrice(i), ScenarioPrice(i)))
  }

  lemma BitfinexQuotesGiveSamples()
    ensures seq(9, i requires 0 <= i < 9 => BitfinexSample(BitfinexQuotes()[i])) == Samples()
  {
  }

  lemma BitstampQuotesGiveSamples()
    ensures seq(9, i requires 0 <= i < 9 => BitstampSample(BitstampQuotes()[i])) == Samples()
  {
  }

  /** A quote older than the horizon is dropped from the front. */
  lemma DropsOld(qs: seq<Sample>, now: int, horizon: nat)
    requires |qs| > 0 && qs[0].stamp < now - horizon
    ensures InHorizon(qs, now, horizon) == InHorizon(qs[1..], now, horizon)
  {
  }

  /** Two quotes older than the horizon are dropped from the front. */
  lemma DropsTwoOld(qs: seq<Sample>, now: int, horizon: nat)
    requires |qs| >= 2 && qs[0].stamp < now - horizon && qs[1].stamp < now - horizon
    ensures InHorizon(qs, now, horizon) == InHorizon(qs[2..], now, horizon)
  {
    DropsOld(qs, now, horizon);
    DropsOld(qs[1..], now, horizon);
    assert qs[1..][1..] == qs[2..];
  }

  /** One year keeps the quotes from 11 months on. */
  lemma KeptOneYear()
    ensures InHorizon(Samples(), Today, OneYear) == Samples()[2..]
  {
    var s := Samples();
    var kept := s[2..];
    assert forall i :: 0 <= i < 7 ==> kept[i].stamp == Today - Ages[i + 2];
    InHorizonKeepsAll(kept, Today, OneYear);
    assert s[0].stamp == Today - Ages[0] && s[1].stamp == Today - Ages[1];
    DropsTwoOld(s, Today, OneYear);
  }

  /** Two years keep the quotes from 15 months on. */
  lemma KeptTwoYears()
    ensures InHorizon(Samples(), Today, TwoYears) == Samples()[1..]
  {
    var s := Samples();
    assert forall i :: 0 <= i < 8 ==> s[1..][i] == s[i + 1];
    InHorizonKeepsAll(s[1..], Today, TwoYears);
    DropsOld(s, Today, TwoYears);
  }

  /** Five years keep every quote. */
  lemma KeptFiveYears()
    ensures InHorizon(Samples(), Today, FiveYears) == Samples()
  {
    InHorizonKeepsAll(Samples(), Today, FiveYears);
  }

  /** The prices (equal to the volumes) of the quotes from index k on. */
  function Ladder(k: nat): (xs: seq<real>)
    requires k <= 9
    ensures |xs| == 9 - k
  {
    seq(9 - k, i requires 0 <= i < 9 - k => ScenarioPrice(k + i))
  }

  lemma LadderStep(k: nat)
    requires k < 9
    ensures Ladder(k)[0] == ScenarioPrice(k) && Ladder(k)[1..] == Ladder(k + 1)
  {
  }

  lemma PricesAndVolumes(k: nat)
    requires k <= 9
    ensures Prices(Samples()[k..]) == Ladder(k) && Volumes(Samples()[k..]) == Ladder(k)
  {
  }

  /** The total of the prices from index k on: 10 (k+1) + ... + 90. */
  lemma {:induction false} LadderSum(k: nat)
    requires k <= 9
    ensures Sum(Ladder(k)) == LadderMeanValue(k) * ((9 - k) as real)
    decreases 9 - k
  {
    if k < 9 {
      LadderStep(k);
      LadderSum(k + 1);
      var r := k as real;
      assert LadderMeanValue(k) * ((9 - k) as real) == 5.0 * (r + 10.0) * (9.0 - r);
      assert LadderMeanValue(k + 1) * ((8 - k) as real) == 5.0 * (r + 11.0) * (8.0 - r);
      assert 5.0 * (r + 10.0) * (9.0 - r) == 10.0 * (r + 1.0) + 5.0 * (r + 11.0) * (8.0 - r);
    }
  }

  /** The mean of the prices from index k on: 5 (k + 10). */
  function LadderMeanValue(k: nat): real
  {
    5.0 * ((k + 10) as real)
  }

  lemma DeviationsStep(k: nat, c: real)
    requires k < 9
    ensures SquaredDeviations(Ladder(k), c)
            == (ScenarioPrice(k) - c) * (ScenarioPrice(k) - c) + SquaredDeviations(Ladder(k + 1), c)
  {
    LadderStep(k);
  }

  lemma DeviationsOneYear()
    ensures SquaredDeviations(Ladder(2), 60.0) == 2800.0
  {
    DeviationsStep(2, 60.0); DeviationsStep(3, 60.0); DeviationsStep(4, 60.0); DeviationsStep(5, 60.0);
    DeviationsStep(6, 60.0); DeviationsStep(7, 60.0); DeviationsStep(8, 60.0);
  }

  lemma DeviationsTwoYears()
    ensures SquaredDeviations(Ladder(1), 55.0) == 4200.0
  {
    DeviationsStep(1, 55.0); DeviationsStep(2, 55.0); DeviationsStep(3, 55.0); DeviationsStep(4, 55.0);
    DeviationsStep(5, 55.0); DeviationsStep(6, 55.0); DeviationsStep(7, 55.0); DeviationsStep(8, 55.0);
  }

  lemma DeviationsFiveYears()
    ensures SquaredDeviations(Ladder(0), 50.0) == 6000.0
  {
    DeviationsStep(0, 50.0); DeviationsStep(1, 50.0); DeviationsStep(2, 50.0); DeviationsStep(3, 50.0);
    DeviationsStep(4, 50.0); DeviationsStep(5, 50.0); DeviationsStep(6, 50.0); DeviationsStep(7, 50.0);
    DeviationsStep(8, 50.0);
  }

  /** The mean price (and volume) of the quotes from index k on. */
  lemma LadderMean(k: nat)
    requires k < 9
    ensures Mean(Ladder(k)) == LadderMeanValue(k)
  {
    LadderSum(k);
    MeanFrom(Ladder(k), LadderMeanValue(k));
  }

  /** The mean of a sequence whose sum is known. */
  lemma MeanFrom(xs: seq<real>, m: real)
    requires |xs| > 0 && Sum(xs) == m * (|xs| as real)
    ensures Mean(xs) == m
  {
    CancelPositive(Mean(xs), m, |xs| as real);
    CancelPositive(m, Mean(xs), |xs| as real);
  }

  lemma LadderPerformance(k: nat, p: real)
    requires k < 9 && p * ScenarioPrice(k) == (90.0 - ScenarioPrice(k)) * 100.0
    ensures PerformanceOf(Samples()[k..]) == p
  {
    var f := Samples()[k..];
    assert f[0].price == ScenarioPrice(k) && f[|f| - 1].price == 90.0;
    CancelPositive(PerformanceOf(f), p, ScenarioPrice(k));
    CancelPositive(p, PerformanceOf(f), ScenarioPrice(k));
  }

  lemma LadderAvgVolume(k: nat)
    requires k < 9
    ensures AvgVolume(Samples()[k..]) == LadderMeanValue(k)
  {
    var f := Samples()[k..];
    PricesAndVolumes(k);
    LadderSum(k);
    AvgVolumeFrom(f, LadderMeanValue(k));
  }

  /** The average volume of quotes whose total volume is known. */
  lemma AvgVolumeFrom(f: seq<Sample>, a: real)
    requires |f| > 0 && Sum(Volumes(f)) == a * (|f| as real)
    ensures AvgVolume(f) == a
  {
    CancelPositive(AvgVolume(f), a, |f| as real);
    CancelPositive(a, AvgVolume(f), |f| as real);
  }

  lemma LadderRange(k: nat)
    requires k < 9
    ensures Low(Samples()[k..]) == ScenarioPrice(k) && High(Samples()[k..]) == 90.0
  {
    var f := Samples()[k..];
    assert forall i :: 0 <= i < |f| ==> f[i].price == ScenarioPrice(k + i);
    assert f[0].price == ScenarioPrice(k) && f[|f| - 1].price == 90.0;
  }

  lemma LadderVolatility(k: nat, deviations: real, v: real)
    requires k < 9
    requires SquaredDeviations(Ladder(k), LadderMeanValue(k)) == deviations
    requires v * ((9 - k) as real) == deviations
    ensures Volatility(Samples()[k..]) == v
  {
    var f := Samples()[k..];
    PricesAndVolumes(k);
    LadderMean(k);
    VolatilityFrom(f, LadderMeanValue(k), deviations, v);
  }

  /** The volatility of quotes whose mean price and squared deviations are known. */
  lemma VolatilityFrom(f: seq<Sample>, mean: real, deviations: real, v: real)
    requires |f| > 0 && Mean(Prices(f)) == mean && SquaredDeviations(Prices(f), mean) == deviations
    requires v * (|f| as real) == deviations
    ensures Volatility(f) == v
  {
    CancelPositive(Volatility(f), v, |f| as real);
    CancelPositive(v, Volatility(f), |f| as real);
  }

  /** The statistics are determined by their five components. */
  lemma SummaryOf(f: seq<Sample>, st: Stats)
    requires PerformanceOf(f) == st.performance && AvgVolume(f) == st.avgVolume
    requires Low(f) == st.low && High(f) == st.high && Volatility(f) == st.variance
    ensures Summarize(f) == st
  {
  }

  lemma OneYearComponents()
    ensures PerformanceOf(Samples()[2..]) == 200.0 && AvgVolume(Samples()[2..]) == 60.0
    ensures Low(Samples()[2..]) == 30.0 && High(Samples()[2..]) == 90.0
    ensures Volatility(Samples()[2..]) == 400.0
  {
    DeviationsOneYear();
    LadderVolatility(2, 2800.0, 400.0);
    LadderPerformance(2, 200.0);
    LadderAvgVolume(2);
    LadderRange(2);
  }

  /** One year: performance 200, average volume 60, range [30, 90], volatility 20. */
  lemma OneYearScenario()
    ensures Analyze(Samples(), Today, OneYear) == Stats(200.0, 60.0, 30.0, 90.0, 400.0)
  {
    KeptOneYear();
    OneYearComponents();
    SummaryOf(Samples()[2..], Stats(200.0, 60.0, 30.0, 90.0, 400.0));
  }

  lemma TwoYearsComponents()
    ensures PerformanceOf(Samples()[1..]) == 350.0 && AvgVolume(Samples()[1..]) == 55.0
    ensures Low(Samples()[1..]) == 20.0 && High(Samples()[1..]) == 90.0
    ensures Volatility(Samples()[1..]) == 525.0
  {
    DeviationsTwoYears();
    LadderVolatility(1, 4200.0, 525.0);
    LadderPerformance(1, 350.0);
    LadderAvgVolume(1);
    LadderRange(1);
  }

  /** Two years: performance 350, average volume 55, range [20, 90], volatility sqrt(525). */
  lemma TwoYearsScenario()
    ensures Analyze(Samples(), Today, TwoYears) == Stats(350.0, 55.0, 20.0, 90.0, 525.0)
  {
    KeptTwoYears();
    TwoYearsComponents();
    SummaryOf(Samples()[1..], Stats(350.0, 55.0, 20.0, 90.0, 525.0));
  }

  lemma FiveYearsComponents()
    ensures PerformanceOf(Samples()[0..]) == 800.0 && AvgVolume(Samples()[0..]) == 50.0
    ensures Low(Samples()[0..]) == 10.0 && High(Samples()[0..]) == 90.0
    ensures Volatility(Samples()[0..]) == 2000.0 / 3.0
  {
    DeviationsFiveYears();
    assert (2000.0 / 3.0) * ((9 - 0) as real) == 6000.0;
    LadderVolatility(0, 6000.0, 2000.0 / 3.0);
    LadderPerformance(0, 800.0);
    LadderAvgVolume(0);
    LadderRange(0);
  }

  /** Five years: performance 800, average volume 50, range [10, 90], volatility sqrt(2000/3). */
  lemma FiveYearsScenario()
    ensures Analyze(Samples(), Today, FiveYears) == Stats(800.0, 50.0, 10.0, 90.0, 2000.0 / 3.0)
  {
    KeptFiveYears();
    FiveYearsComponents();
    assert Samples()[0..] == Samples();
    SummaryOf(Samples()[0..], Stats(800.0, 50.0, 10.0, 90.0, 2000.0 / 3.0));
  }
}
