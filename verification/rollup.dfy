/**
 * The per-window rollup computation of ItbitService and BitfinexService:
 * the raw query's open time interval, grouping by pair, the 24 hourly
 * buckets or the single daily bucket per pair, and the "more than 2
 * quotes" threshold.
 */
module Rollup {
  import opened Quotes

  /** The minimum number of quotes a bucket needs beyond 2 to be aggregated. */
  const Threshold: nat := 2

  /**
   * The quotes stamped strictly after `lo` and strictly before `hi`, in
   * their original order (the Mongo query's gt/lt, and the buckets'
   * after/before filters).
   */
  function Between(qs: seq<Quote>, lo: int, hi: int): (r: seq<Quote>)
    ensures |r| <= |qs|
  {
    if |qs| == 0 then []
    else (if lo < qs[0].createdAt < hi then [qs[0]] else []) + Between(qs[1..], lo, hi)
  }

  /** A quote survives the filter exactly when it lies strictly inside (lo, hi). */
  lemma {:induction false} BetweenMembers(qs: seq<Quote>, lo: int, hi: int)
    ensures forall q :: q in Between(qs, lo, hi) <==> q in qs && lo < q.createdAt < hi
  {
    if |qs| > 0 {
      BetweenMembers(qs[1..], lo, hi);
      assert qs == [qs[0]] + qs[1..];
    }
  }

  /** The quotes of one pair, in their original order (`multimap.get(key)`). */
  function Group(qs: seq<Quote>, key: Option<string>): (r: seq<Quote>)
    ensures |r| <= |qs|
  {
    if |qs| == 0 then []
    else (if qs[0].pair == key then [qs[0]] else []) + Group(qs[1..], key)
  }

  /** A quote is in its pair's group exactly when it carries that pair. */
  lemma {:induction false} GroupMembers(qs: seq<Quote>, key: Option<string>)
    ensures forall q :: q in Group(qs, key) <==> q in qs && q.pair == key
  {
    if |qs| > 0 {
      GroupMembers(qs[1..], key);
      assert qs == [qs[0]] + qs[1..];
    }
  }

  /**
   * The multimap's key set: every pair that occurs, once each, in order of
   * first occurrence.
   */
  function Keys(qs: seq<Quote>): (ks: seq<Option<string>>)
    ensures forall i, j :: 0 <= i < j < |ks| ==> ks[i] != ks[j]
    decreases |qs|
  {
    if |qs| == 0 then []
    else
      var rest := Keys(qs[..|qs| - 1]);
      var p := qs[|qs| - 1].pair;
      if p in rest then rest else rest + [p]
  }

  /** The keys are exactly the pairs that occur. */
  lemma {:induction false} KeysMembers(qs: seq<Quote>)
    ensures forall k :: k in Keys(qs) <==> exists q :: q in qs && q.pair == k
    decreases |qs|
  {
    if |qs| > 0 {
      var init := qs[..|qs| - 1];
      var last := qs[|qs| - 1];
      KeysMembers(init);
      assert qs == init + [last];
      assert forall q :: q in qs <==> q in init || q == last;
    }
  }

  /** Rows whose `createdAt` stamps strictly increase along the sequence. */
  predicate StampsIncreasing(r: seq<Quote>)
  {
    forall j, j' :: 0 <= j < j' < |r| ==> r[j].createdAt < r[j'].createdAt
  }

  predicate Increasing(hours: seq<int>)
  {
    forall a, b :: 0 <= a < b < |hours| ==> hours[a] < hours[b]
  }

  /** The quotes of hour h: strictly between `hours[h]` and `hours[h + 1]`. */
  function HourBucket(group: seq<Quote>, hours: seq<int>, h: nat): seq<Quote>
    requires |hours| == 25 && h < 24
  {
    Between(group, hours[h], hours[h + 1])
  }

  /**
   * The hours i in h .. 23 whose bucket holds more than 2 quotes, in
   * increasing order: the iterations of the hourly loop in
   * `makeIbQuoteHour` / `makeBfQuoteHour` that emit a row.
   */
  function EmittedHours(group: seq<Quote>, hours: seq<int>, h: nat): (es: seq<int>)
    requires |hours| == 25 && h <= 24
    ensures |es| <= 24 - h
    ensures forall j :: 0 <= j < |es| ==> h <= es[j] < 24 && |HourBucket(group, hours, es[j])| > Threshold
    ensures forall j, j' :: 0 <= j < j' < |es| ==> es[j] < es[j']
    decreases 24 - h
  {
    if h == 24 then []
    else (if |HourBucket(group, hours, h)| > Threshold then [h] else []) + EmittedHours(group, hours, h + 1)
  }

  /**
   * `makeIbQuoteHour` / `makeBfQuoteHour` for one pair's group: one row per
   * emitting hour, in hour order, each the aggregate of that hour's bucket
   * stamped with the hour's start.
   */
  function MakeQuoteHour(x: Exchange, key: Option<string>, group: seq<Quote>, hours: seq<int>, seedMeta: Meta)
    : (r: seq<Quote>)
    requires |hours| == 25
    ensures |r| == |EmittedHours(group, hours, 0)|
  {
    var es := EmittedHours(group, hours, 0);
    seq(|es|, j requires 0 <= j < |es| =>
      Aggregate(x, key, HourBucket(group, hours, es[j]), hours[es[j]], seedMeta))
  }

  /**
   * `makeIbQuoteDay` / `makeBfQuoteDay` for one pair's group: at most one
   * row, present exactly when more than 2 quotes lie strictly inside the
   * window, and then the aggregate of those quotes stamped with `begin`.
   */
  function MakeQuoteDay(x: Exchange, key: Option<string>, group: seq<Quote>, begin: int, end: int, seedMeta: Meta)
    : (r: seq<Quote>)
    ensures |r| <= 1
    ensures |r| == 1 <==> |Between(group, begin, end)| > Threshold
    ensures |r| == 1 ==> r[0] == Aggregate(x, key, Between(group, begin, end), begin, seedMeta)
    ensures |r| == 1 ==> IsMeanOf(x, key, Between(group, begin, end), begin, seedMeta, r[0])
  {
    var b := Between(group, begin, end);
    if |b| > Threshold then
      AggregateIsMean(x, key, b, begin, seedMeta);
      [Aggregate(x, key, b, begin, seedMeta)]
    else []
  }

  /** The hourly aggregates of each key's group, concatenated in key order. */
  function HourlyForKeys(x: Exchange, query: seq<Quote>, keys: seq<Option<string>>, hours: seq<int>, seedMeta: Meta)
    : (r: seq<Quote>)
    requires |hours| == 25
    ensures |r| <= 24 * |keys|
  {
    if |keys| == 0 then []
    else MakeQuoteHour(x, keys[0], Group(query, keys[0]), hours, seedMeta)
         + HourlyForKeys(x, query, keys[1..], hours, seedMeta)
  }

  /** The daily aggregates of each key's group, concatenated in key order. */
  function DailyForKeys(x: Exchange, query: seq<Quote>, keys: seq<Option<string>>, begin: int, end: int, seedMeta: Meta)
    : (r: seq<Quote>)
    ensures |r| <= |keys|
    ensures forall i :: 0 <= i < |r| ==> r[i].createdAt == begin
  {
    if |keys| == 0 then []
    else MakeQuoteDay(x, keys[0], Group(query, keys[0]), begin, end, seedMeta)
         + DailyForKeys(x, query, keys[1..], begin, end, seedMeta)
  }

  /**
   * One day window of `createIbHourlyAvg` / `createBfHourlyAvg`: at most 24
   * rows for every pair queried in the window.
   */
  function HourlyWindow(x: Exchange, raw: seq<Quote>, begin: int, end: int, hours: seq<int>, seedMeta: Meta)
    : (r: seq<Quote>)
    requires |hours| == 25
    ensures |r| <= 24 * |Keys(Between(raw, begin, end))|
    ensures |Between(raw, begin, end)| == 0 ==> r == []
  {
    var query := Between(raw, begin, end);
    HourlyForKeys(x, query, Keys(query), hours, seedMeta)
  }

  /**
   * One day window of `createIbDailyAvg` / `createBfDailyAvg`: at most one
   * row per pair queried in the window, each stamped with the window's begin.
   */
  function DailyWindow(x: Exchange, raw: seq<Quote>, begin: int, end: int, seedMeta: Meta): (r: seq<Quote>)
    ensures |r| <= |Keys(Between(raw, begin, end))|
    ensures forall i :: 0 <= i < |r| ==> r[i].createdAt == begin
    ensures |Between(raw, begin, end)| == 0 ==> r == []
  {
    var query := Between(raw, begin, end);
    DailyForKeys(x, query, Keys(query), begin, end, seedMeta)
  }
}

/** Properties of the per-window rollup computation. */
module RollupProperties {
  import opened Quotes
  import opened Rollup

  /** `es` lists hour indices below 24 in strictly increasing order. */
  predicate HourIndices(es: seq<int>)
  {
    (forall j :: 0 <= j < |es| ==> 0 <= es[j] < 24)
    && (forall j, j' :: 0 <= j < j' < |es| ==> es[j] < es[j'])
  }

  /** Increasing boundaries are pairwise distinct. */
  lemma IncreasingInjective(hours: seq<int>, a: nat, b: nat)
    requires Increasing(hours) && a < |hours| && b < |hours|
    ensures hours[a] == hours[b] ==> a == b
  {
    if a < b {
      assert hours[a] < hours[b];
    } else if b < a {
      assert hours[b] < hours[a];
    }
  }

  /** Row j is stamped with the start of hour `es[j]`. */
  predicate StampedBy(r: seq<Quote>, hours: seq<int>, es: seq<int>)
    requires |hours| == 25 && HourIndices(es) && |r| == |es|
  {
    forall j :: 0 <= j < |r| ==> r[j].createdAt == hours[es[j]]
  }

  /**
   * Rows stamped by strictly increasing hour indices over increasing hour
   * boundaries have increasing stamps, and a row carries hour i's stamp
   * exactly when i is one of the indices.
   */
  lemma StampsFromHours(r: seq<Quote>, hours: seq<int>, es: seq<int>)
    requires |hours| == 25 && Increasing(hours) && HourIndices(es) && |r| == |es|
    requires StampedBy(r, hours, es)
    ensures StampsIncreasing(r)
    ensures forall i :: 0 <= i < 24 ==> ((exists j :: 0 <= j < |r| && r[j].createdAt == hours[i]) <==> i in es)
  {
    forall j, j' | 0 <= j < j' < |r|
      ensures r[j].createdAt < r[j'].createdAt
    {
      assert es[j] < es[j'];
    }
    forall i | 0 <= i < 24
      ensures (exists j :: 0 <= j < |r| && r[j].createdAt == hours[i]) <==> i in es
    {
      if j :| 0 <= j < |r| && r[j].createdAt == hours[i] {
        IncreasingInjective(hours, es[j], i);
      }
      if i in es {
        var j :| 0 <= j < |es| && es[j] == i;
        assert r[j].createdAt == hours[i];
      }
    }
  }

  /** Every hour from h on whose bucket holds more than 2 quotes emits a row. */
  lemma {:induction false} EmittedHoursComplete(group: seq<Quote>, hours: seq<int>, h: nat, i: nat)
    requires |hours| == 25 && h <= i < 24 && |HourBucket(group, hours, i)| > Threshold
    ensures i in EmittedHours(group, hours, h)
    decreases 24 - h
  {
    if h < i {
      EmittedHoursComplete(group, hours, h + 1, i);
    }
  }

  /** Hour i emits a row exactly when its bucket holds more than 2 quotes. */
  lemma EmittedHoursExact(group: seq<Quote>, hours: seq<int>, i: nat)
    requires |hours| == 25 && i < 24
    ensures i in EmittedHours(group, hours, 0) <==> |HourBucket(group, hours, i)| > Threshold
  {
    var es := EmittedHours(group, hours, 0);
    if i in es {
      var j :| 0 <= j < |es| && es[j] == i;
    } else if |HourBucket(group, hours, i)| > Threshold {
      EmittedHoursComplete(group, hours, 0, i);
    }
  }

  /** Row j of the hourly pass is the aggregate of hour `es[j]`'s bucket. */
  lemma HourlyRow(x: Exchange, key: Option<string>, group: seq<Quote>, hours: seq<int>, seedMeta: Meta, j: nat)
    requires |hours| == 25 && j < |MakeQuoteHour(x, key, group, hours, seedMeta)|
    ensures EmittedHours(group, hours, 0)[j] < 24
    ensures MakeQuoteHour(x, key, group, hours, seedMeta)[j].createdAt == hours[EmittedHours(group, hours, 0)[j]]
    ensures IsMeanOf(x, key, HourBucket(group, hours, EmittedHours(group, hours, 0)[j]),
                     hours[EmittedHours(group, hours, 0)[j]], seedMeta, MakeQuoteHour(x, key, group, hours, seedMeta)[j])
  {
    var es := EmittedHours(group, hours, 0);
    var b := HourBucket(group, hours, es[j]);
    assert MakeQuoteHour(x, key, group, hours, seedMeta)[j] == Aggregate(x, key, b, hours[es[j]], seedMeta);
    AggregateIsMean(x, key, b, hours[es[j]], seedMeta);
  }

  /**
   * Rows of the hourly pass come in increasing hour order, and a row
   * stamped with hour i's start exists exactly when more than 2 of the
   * pair's quotes lie strictly inside hour i.
   */
  lemma HourlyStamps(x: Exchange, key: Option<string>, group: seq<Quote>, hours: seq<int>, seedMeta: Meta)
    requires |hours| == 25 && Increasing(hours)
    ensures StampsIncreasing(MakeQuoteHour(x, key, group, hours, seedMeta))
    ensures forall i :: 0 <= i < 24 ==>
              ((exists j :: 0 <= j < |MakeQuoteHour(x, key, group, hours, seedMeta)|
                            && MakeQuoteHour(x, key, group, hours, seedMeta)[j].createdAt == hours[i])
               <==> |HourBucket(group, hours, i)| > Threshold)
  {
    var r := MakeQuoteHour(x, key, group, hours, seedMeta);
    var es := EmittedHours(group, hours, 0);
    forall j | 0 <= j < |r|
      ensures r[j].createdAt == hours[es[j]]
    {
      HourlyRow(x, key, group, hours, seedMeta, j);
    }
    assert StampedBy(r, hours, es);
    StampsFromHours(r, hours, es);
    forall i | 0 <= i < 24
      ensures i in es <==> |HourBucket(group, hours, i)| > Threshold
    {
      EmittedHoursExact(group, hours, i);
    }
  }

  /**
   * Every row of the hourly pass is the field-wise mean of the quotes of
   * some hour holding more than 2 of them, keyed by the pair and stamped
   * with that hour's start.
   */
  lemma HourlyMeans(x: Exchange, key: Option<string>, group: seq<Quote>, hours: seq<int>, seedMeta: Meta)
    requires |hours| == 25
    ensures |MakeQuoteHour(x, key, group, hours, seedMeta)| <= 24
    ensures forall j :: 0 <= j < |MakeQuoteHour(x, key, group, hours, seedMeta)| ==>
              exists i :: 0 <= i < 24 && |HourBucket(group, hours, i)| > Threshold
                          && IsMeanOf(x, key, HourBucket(group, hours, i), hours[i], seedMeta,
                                      MakeQuoteHour(x, key, group, hours, seedMeta)[j])
  {
    var r := MakeQuoteHour(x, key, group, hours, seedMeta);
    forall j | 0 <= j < |r|
      ensures exists i :: 0 <= i < 24 && |HourBucket(group, hours, i)| > Threshold
                          && IsMeanOf(x, key, HourBucket(group, hours, i), hours[i], seedMeta, r[j])
    {
      HourlyRow(x, key, group, hours, seedMeta, j);
    }
  }

  /**
   * Bucket membership is strict at both ends: with increasing boundaries, a
   * quote stamped exactly on an hour boundary lies in no hour's bucket.
   */
  lemma BoundaryQuoteInNoBucket(group: seq<Quote>, hours: seq<int>, q: Quote, b: nat)
    requires |hours| == 25 && Increasing(hours) && b < 25 && q.createdAt == hours[b]
    ensures forall i :: 0 <= i < 24 ==> q !in HourBucket(group, hours, i)
  {
    forall i | 0 <= i < 24
      ensures q !in HourBucket(group, hours, i)
    {
      BetweenMembers(group, hours[i], hours[i + 1]);
      if b <= i {
        assert hours[b] <= hours[i];
      } else {
        assert hours[i + 1] <= hours[b];
      }
    }
  }
}
