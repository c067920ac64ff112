/**
 * Properties of one day window of the rollup: every row is the aggregate of
 * one pair's bucket, rows never mix pairs, the daily pass yields one row per
 * pair at most, and every bucket over the threshold yields its row.
 */
module WindowProperties {
  import opened Quotes
  import opened Rollup
  import opened RollupProperties

  /** Quotes that already lie strictly inside (lo, hi) survive that filter unchanged. */
  lemma {:induction false} BetweenInside(qs: seq<Quote>, lo: int, hi: int)
    requires forall q :: q in qs ==> lo < q.createdAt < hi
    ensures Between(qs, lo, hi) == qs
  {
    if |qs| > 0 {
      assert qs[0] in qs;
      assert forall q :: q in qs[1..] ==> q in qs;
      BetweenInside(qs[1..], lo, hi);
      assert qs == [qs[0]] + qs[1..];
    }
  }

  /** A pair that has a quote in the window is one of the window's keys. */
  lemma PairWithQuoteIsKey(query: seq<Quote>, k: Option<string>)
    requires |Group(query, k)| > 0
    ensures k in Keys(query)
  {
    GroupMembers(query, k);
    KeysMembers(query);
    assert Group(query, k)[0] in Group(query, k);
  }

  /** Every quote of a day group carries the pair and lies strictly inside the window. */
  lemma DayGroupMembers(raw: seq<Quote>, begin: int, end: int, k: Option<string>)
    ensures forall q :: q in DayGroup(raw, begin, end, k) <==> q in raw && q.pair == k && begin < q.createdAt < end
  {
    GroupMembers(Between(raw, begin, end), k);
    BetweenMembers(raw, begin, end);
  }

  /** The quotes of pair k strictly inside the window `(begin, end)`. */
  function DayGroup(raw: seq<Quote>, begin: int, end: int, k: Option<string>): seq<Quote>
  {
    Group(Between(raw, begin, end), k)
  }

  /** No two rows carry the same pair. */
  predicate PairsDistinct(rows: seq<Quote>)
  {
    forall j, j' :: 0 <= j < j' < |rows| ==> rows[j].pair != rows[j'].pair
  }

  /** The row carries pair k and is stamped with `stamp`. */
  predicate StampedRow(row: Quote, k: Option<string>, stamp: int)
  {
    row.pair == k && row.createdAt == stamp
  }

  /**
   * The row comes from a listed key and is the aggregate, stamped with
   * `begin`, of that key's quotes of `query` strictly inside the window,
   * of which there were more than 2.
   */
  predicate DailyRowFor(x: Exchange, query: seq<Quote>, keys: seq<Option<string>>,
                        begin: int, end: int, seedMeta: Meta, row: Quote)
  {
    row.pair in keys
    && |Between(Group(query, row.pair), begin, end)| > Threshold
    && row == Aggregate(x, row.pair, Between(Group(query, row.pair), begin, end), begin, seedMeta)
  }

  /** Rows of `DailyForKeys` come from the listed keys, one aggregate per key at most. */
  lemma {:induction false} DailyForKeysRows(x: Exchange, query: seq<Quote>, keys: seq<Option<string>>,
                                            begin: int, end: int, seedMeta: Meta)
    ensures forall j :: 0 <= j < |DailyForKeys(x, query, keys, begin, end, seedMeta)| ==>
              DailyRowFor(x, query, keys, begin, end, seedMeta, DailyForKeys(x, query, keys, begin, end, seedMeta)[j])
    decreases |keys|
  {
    if |keys| > 0 {
      DailyForKeysRows(x, query, keys[1..], begin, end, seedMeta);
      var head := MakeQuoteDay(x, keys[0], Group(query, keys[0]), begin, end, seedMeta);
      var rest := DailyForKeys(x, query, keys[1..], begin, end, seedMeta);
      var r := DailyForKeys(x, query, keys, begin, end, seedMeta);
      assert r == head + rest;
      forall j | |head| <= j < |r|
        ensures r[j] == rest[j - |head|] && rest[j - |head|].pair in keys
      {
        assert rest[j - |head|].pair in keys[1..];
      }
    }
  }

  /** With distinct keys, no two rows of `DailyForKeys` share a pair. */
  lemma {:induction false} DailyForKeysDistinct(x: Exchange, query: seq<Quote>, keys: seq<Option<string>>,
                                                begin: int, end: int, seedMeta: Meta)
    requires forall i, j :: 0 <= i < j < |keys| ==> keys[i] != keys[j]
    ensures PairsDistinct(DailyForKeys(x, query, keys, begin, end, seedMeta))
    decreases |keys|
  {
    if |keys| > 0 {
      DailyForKeysDistinct(x, query, keys[1..], begin, end, seedMeta);
      DailyForKeysRows(x, query, keys[1..], begin, end, seedMeta);
      var head := MakeQuoteDay(x, keys[0], Group(query, keys[0]), begin, end, seedMeta);
      var rest := DailyForKeys(x, query, keys[1..], begin, end, seedMeta);
      var r := DailyForKeys(x, query, keys, begin, end, seedMeta);
      assert r == head + rest;
      assert keys[0] !in keys[1..];
      forall j, j' | 0 <= j < j' < |r|
        ensures r[j].pair != r[j'].pair
      {
        if j < |head| {
          assert r[j].pair == keys[0];
          assert r[j'] == rest[j' - |head|];
        } else {
          assert r[j] == rest[j - |head|] && r[j'] == rest[j' - |head|];
        }
      }
    }
  }

  /** Every listed key whose bucket holds more than 2 quotes has a row. */
  lemma {:induction false} DailyForKeysComplete(x: Exchange, query: seq<Quote>, keys: seq<Option<string>>,
                                                begin: int, end: int, seedMeta: Meta, k: Option<string>)
    requires k in keys && |Between(Group(query, k), begin, end)| > Threshold
    ensures exists j :: 0 <= j < |DailyForKeys(x, query, keys, begin, end, seedMeta)|
                        && DailyForKeys(x, query, keys, begin, end, seedMeta)[j].pair == k
    decreases |keys|
  {
    var head := MakeQuoteDay(x, keys[0], Group(query, keys[0]), begin, end, seedMeta);
    var rest := DailyForKeys(x, query, keys[1..], begin, end, seedMeta);
    var r := DailyForKeys(x, query, keys, begin, end, seedMeta);
    assert r == head + rest;
    if keys[0] == k {
      assert r[0] == head[0];
    } else {
      assert k in keys[1..];
      DailyForKeysComplete(x, query, keys[1..], begin, end, seedMeta, k);
      var j :| 0 <= j < |rest| && rest[j].pair == k;
      assert r[|head| + j] == rest[j];
    }
  }

  /**
   * The row is the aggregate, stamped with the window's begin, of all raw
   * quotes of its own pair strictly inside the window, and that pair had
   * more than 2 such quotes.
   */
  predicate DailyWindowRow(x: Exchange, raw: seq<Quote>, begin: int, end: int, seedMeta: Meta, row: Quote)
  {
    |DayGroup(raw, begin, end, row.pair)| > Threshold
    && row == Aggregate(x, row.pair, DayGroup(raw, begin, end, row.pair), begin, seedMeta)
  }

  /** Every row of a daily window is the mean of its own pair's quotes inside the window. */
  lemma DailyWindowSound(x: Exchange, raw: seq<Quote>, begin: int, end: int, seedMeta: Meta)
    ensures forall j :: 0 <= j < |DailyWindow(x, raw, begin, end, seedMeta)| ==>
              DailyWindowRow(x, raw, begin, end, seedMeta, DailyWindow(x, raw, begin, end, seedMeta)[j])
  {
    var query := Between(raw, begin, end);
    var r := DailyWindow(x, raw, begin, end, seedMeta);
    DailyForKeysRows(x, query, Keys(query), begin, end, seedMeta);
    forall j | 0 <= j < |r|
      ensures Between(Group(query, r[j].pair), begin, end) == DayGroup(raw, begin, end, r[j].pair)
    {
      DayGroupMembers(raw, begin, end, r[j].pair);
      BetweenInside(Group(query, r[j].pair), begin, end);
    }
  }

  /** A daily window holds at most one row per pair. */
  lemma DailyWindowOnePerPair(x: Exchange, raw: seq<Quote>, begin: int, end: int, seedMeta: Meta)
    ensures PairsDistinct(DailyWindow(x, raw, begin, end, seedMeta))
  {
    var query := Between(raw, begin, end);
    DailyForKeysDistinct(x, query, Keys(query), begin, end, seedMeta);
  }

  /** Every pair with more than 2 quotes strictly inside the window gets its daily row. */
  lemma DailyWindowComplete(x: Exchange, raw: seq<Quote>, begin: int, end: int, seedMeta: Meta, k: Option<string>)
    requires |DayGroup(raw, begin, end, k)| > Threshold
    ensures exists j :: 0 <= j < |DailyWindow(x, raw, begin, end, seedMeta)|
                        && DailyWindow(x, raw, begin, end, seedMeta)[j].pair == k
  {
    var query := Between(raw, begin, end);
    assert DayGroup(raw, begin, end, k) == Group(query, k);
    PairWithQuoteIsKey(query, k);
    DayGroupMembers(raw, begin, end, k);
    BetweenInside(Group(query, k), begin, end);
    assert |Between(Group(query, k), begin, end)| > Threshold;
    DailyForKeysComplete(x, query, Keys(query), begin, end, seedMeta, k);
    var r := DailyForKeys(x, query, Keys(query), begin, end, seedMeta);
    assert DailyWindow(x, raw, begin, end, seedMeta) == r;
    var j :| 0 <= j < |r| && r[j].pair == k;
  }

  /**
   * The bucket of hour i for pair k holds exactly the raw quotes of pair k
   * strictly inside both the window and the hour: an hourly aggregate
   * never mixes pairs.
   */
  lemma HourBucketMembers(raw: seq<Quote>, begin: int, end: int, k: Option<string>, hours: seq<int>, i: nat)
    requires |hours| == 25 && i < 24
    ensures forall q :: q in HourBucket(DayGroup(raw, begin, end, k), hours, i) <==>
              q in raw && q.pair == k && begin < q.createdAt < end && hours[i] < q.createdAt < hours[i + 1]
  {
    DayGroupMembers(raw, begin, end, k);
    BetweenMembers(DayGroup(raw, begin, end, k), hours[i], hours[i + 1]);
  }

  /** Row j of one key's hourly pass is the aggregate of some hour's bucket over the threshold. */
  lemma HourRowOfKey(x: Exchange, key: Option<string>, group: seq<Quote>, hours: seq<int>, seedMeta: Meta, j: nat)
    requires |hours| == 25 && j < |MakeQuoteHour(x, key, group, hours, seedMeta)|
    ensures MakeQuoteHour(x, key, group, hours, seedMeta)[j].pair == key
    ensures exists i :: 0 <= i < 24 && |HourBucket(group, hours, i)| > Threshold
                        && MakeQuoteHour(x, key, group, hours, seedMeta)[j]
                           == Aggregate(x, key, HourBucket(group, hours, i), hours[i], seedMeta)
  {
    var es := EmittedHours(group, hours, 0);
    var i := es[j];
    assert MakeQuoteHour(x, key, group, hours, seedMeta)[j] == Aggregate(x, key, HourBucket(group, hours, i), hours[i], seedMeta);
  }

  /**
   * The row is the aggregate, stamped with the hour's start, of the quotes
   * of `group` in hour i, and that bucket holds more than 2 quotes.
   */
  predicate HourBucketRow(x: Exchange, group: seq<Quote>, hours: seq<int>, i: nat, seedMeta: Meta, row: Quote)
    requires |hours| == 25 && i < 24
  {
    |HourBucket(group, hours, i)| > Threshold
    && row == Aggregate(x, row.pair, HourBucket(group, hours, i), hours[i], seedMeta)
  }

  /** The row comes from a listed key and is the aggregate of one of that key's hour buckets in `query`. */
  predicate HourlyRowFor(x: Exchange, query: seq<Quote>, keys: seq<Option<string>>,
                         hours: seq<int>, seedMeta: Meta, row: Quote)
    requires |hours| == 25
  {
    row.pair in keys
    && exists i :: 0 <= i < 24 && HourBucketRow(x, Group(query, row.pair), hours, i, seedMeta, row)
  }

  /** Rows of `HourlyForKeys` come from the listed keys, each the aggregate of one of its pair's hours. */
  lemma {:induction false} HourlyForKeysRows(x: Exchange, query: seq<Quote>, keys: seq<Option<string>>,
                                             hours: seq<int>, seedMeta: Meta)
    requires |hours| == 25
    ensures forall j :: 0 <= j < |HourlyForKeys(x, query, keys, hours, seedMeta)| ==>
              HourlyRowFor(x, query, keys, hours, seedMeta, HourlyForKeys(x, query, keys, hours, seedMeta)[j])
    decreases |keys|
  {
    if |keys| > 0 {
      HourlyForKeysRows(x, query, keys[1..], hours, seedMeta);
      var head := MakeQuoteHour(x, keys[0], Group(query, keys[0]), hours, seedMeta);
      var rest := HourlyForKeys(x, query, keys[1..], hours, seedMeta);
      var r := HourlyForKeys(x, query, keys, hours, seedMeta);
      assert r == head + rest;
      forall j | 0 <= j < |r|
        ensures HourlyRowFor(x, query, keys, hours, seedMeta, r[j])
      {
        if j < |head| {
          HourRowOfKey(x, keys[0], Group(query, keys[0]), hours, seedMeta, j);
          assert r[j] == head[j];
          var i :| 0 <= i < 24 && |HourBucket(Group(query, keys[0]), hours, i)| > Threshold
                   && head[j] == Aggregate(x, keys[0], HourBucket(Group(query, keys[0]), hours, i), hours[i], seedMeta);
          assert HourBucketRow(x, Group(query, r[j].pair), hours, i, seedMeta, r[j]);
        } else {
          assert r[j] == rest[j - |head|];
          assert rest[j - |head|].pair in keys[1..];
        }
      }
    }
  }

  /** One key's hour over the threshold has its row in that key's hourly pass; j is its position. */
  lemma KeyHourRow(x: Exchange, key: Option<string>, group: seq<Quote>, hours: seq<int>, seedMeta: Meta, i: nat)
    returns (j: nat)
    requires |hours| == 25 && i < 24 && |HourBucket(group, hours, i)| > Threshold
    ensures j < |MakeQuoteHour(x, key, group, hours, seedMeta)|
    ensures MakeQuoteHour(x, key, group, hours, seedMeta)[j].pair == key
    ensures MakeQuoteHour(x, key, group, hours, seedMeta)[j].createdAt == hours[i]
  {
    var es := EmittedHours(group, hours, 0);
    EmittedHoursExact(group, hours, i);
    j :| 0 <= j < |es| && es[j] == i;
    HourlyRow(x, key, group, hours, seedMeta, j);
    HourRowOfKey(x, key, group, hours, seedMeta, j);
  }

  /** Every listed key's hour over the threshold has its row, stamped with the hour's start. */
  lemma {:induction false} HourlyForKeysComplete(x: Exchange, query: seq<Quote>, keys: seq<Option<string>>,
                                                 hours: seq<int>, seedMeta: Meta, k: Option<string>, i: nat)
    requires |hours| == 25 && i < 24
    requires k in keys && |HourBucket(Group(query, k), hours, i)| > Threshold
    ensures exists j :: 0 <= j < |HourlyForKeys(x, query, keys, hours, seedMeta)|
                        && StampedRow(HourlyForKeys(x, query, keys, hours, seedMeta)[j], k, hours[i])
    decreases |keys|
  {
    var head := MakeQuoteHour(x, keys[0], Group(query, keys[0]), hours, seedMeta);
    var rest := HourlyForKeys(x, query, keys[1..], hours, seedMeta);
    var r := HourlyForKeys(x, query, keys, hours, seedMeta);
    assert r == head + rest;
    if keys[0] == k {
      var j := KeyHourRow(x, k, Group(query, k), hours, seedMeta, i);
      assert r[j] == head[j];
    } else {
      assert k in keys[1..];
      HourlyForKeysComplete(x, query, keys[1..], hours, seedMeta, k, i);
      var j :| 0 <= j < |rest| && rest[j].pair == k && rest[j].createdAt == hours[i];
      assert r[|head| + j] == rest[j];
    }
  }

  /**
   * A block of one pair's rows with increasing stamps, followed by rows of
   * other pairs that never repeat a pair and stamp, never repeats one either.
   */
  lemma ConcatDistinctRows(head: seq<Quote>, rest: seq<Quote>, k: Option<string>)
    requires forall j :: 0 <= j < |head| ==> head[j].pair == k
    requires StampsIncreasing(head)
    requires forall j :: 0 <= j < |rest| ==> rest[j].pair != k
    requires forall j, j' :: 0 <= j < j' < |rest| ==> !StampedRow(rest[j'], rest[j].pair, rest[j].createdAt)
    ensures forall j, j' :: 0 <= j < j' < |head + rest| ==>
              !StampedRow((head + rest)[j'], (head + rest)[j].pair, (head + rest)[j].createdAt)
  {
    var r := head + rest;
    forall j, j' | 0 <= j < j' < |r|
      ensures !StampedRow(r[j'], r[j].pair, r[j].createdAt)
    {
      if j' < |head| {
        assert head[j].createdAt < head[j'].createdAt;
      } else if j < |head| {
        assert r[j'] == rest[j' - |head|];
      } else {
        assert r[j] == rest[j - |head|] && r[j'] == rest[j' - |head|];
      }
    }
  }

  /** With distinct keys, no two rows of `HourlyForKeys` share both pair and hour. */
  lemma {:induction false} HourlyForKeysDistinct(x: Exchange, query: seq<Quote>, keys: seq<Option<string>>,
                                                 hours: seq<int>, seedMeta: Meta)
    requires |hours| == 25 && Increasing(hours)
    requires forall i, j :: 0 <= i < j < |keys| ==> keys[i] != keys[j]
    ensures forall j, j' :: 0 <= j < j' < |HourlyForKeys(x, query, keys, hours, seedMeta)| ==>
              !StampedRow(HourlyForKeys(x, query, keys, hours, seedMeta)[j'],
                          HourlyForKeys(x, query, keys, hours, seedMeta)[j].pair,
                          HourlyForKeys(x, query, keys, hours, seedMeta)[j].createdAt)
    decreases |keys|
  {
    if |keys| > 0 {
      var head := MakeQuoteHour(x, keys[0], Group(query, keys[0]), hours, seedMeta);
      var rest := HourlyForKeys(x, query, keys[1..], hours, seedMeta);
      HourlyForKeysDistinct(x, query, keys[1..], hours, seedMeta);
      HourlyStamps(x, keys[0], Group(query, keys[0]), hours, seedMeta);
      forall j | 0 <= j < |head|
        ensures head[j].pair == keys[0]
      {
        HourRowOfKey(x, keys[0], Group(query, keys[0]), hours, seedMeta, j);
      }
      HourlyForKeysRows(x, query, keys[1..], hours, seedMeta);
      assert keys[0] !in keys[1..];
      forall j | 0 <= j < |rest|
        ensures rest[j].pair != keys[0]
      {
        assert HourlyRowFor(x, query, keys[1..], hours, seedMeta, rest[j]);
      }
      ConcatDistinctRows(head, rest, keys[0]);
      assert HourlyForKeys(x, query, keys, hours, seedMeta) == head + rest;
    }
  }

  /** An hourly window holds at most one row per pair and hour. */
  lemma HourlyWindowOnePerPairHour(x: Exchange, raw: seq<Quote>, begin: int, end: int, hours: seq<int>, seedMeta: Meta)
    requires |hours| == 25 && Increasing(hours)
    ensures forall j, j' :: 0 <= j < j' < |HourlyWindow(x, raw, begin, end, hours, seedMeta)| ==>
              !StampedRow(HourlyWindow(x, raw, begin, end, hours, seedMeta)[j'],
                          HourlyWindow(x, raw, begin, end, hours, seedMeta)[j].pair,
                          HourlyWindow(x, raw, begin, end, hours, seedMeta)[j].createdAt)
  {
    var query := Between(raw, begin, end);
    HourlyForKeysDistinct(x, query, Keys(query), hours, seedMeta);
    assert HourlyWindow(x, raw, begin, end, hours, seedMeta) == HourlyForKeys(x, query, Keys(query), hours, seedMeta);
  }

  /**
   * Every row of an hourly window is the aggregate, stamped with the hour's
   * start, of all quotes of its own pair strictly inside the window and
   * that hour, of which there were more than 2.
   */
  lemma HourlyWindowSound(x: Exchange, raw: seq<Quote>, begin: int, end: int, hours: seq<int>, seedMeta: Meta)
    requires |hours| == 25
    ensures forall j :: 0 <= j < |HourlyWindow(x, raw, begin, end, hours, seedMeta)| ==>
              exists i :: 0 <= i < 24
                && |HourBucket(DayGroup(raw, begin, end, HourlyWindow(x, raw, begin, end, hours, seedMeta)[j].pair), hours, i)| > Threshold
                && HourlyWindow(x, raw, begin, end, hours, seedMeta)[j]
                   == Aggregate(x, HourlyWindow(x, raw, begin, end, hours, seedMeta)[j].pair,
                                HourBucket(DayGroup(raw, begin, end, HourlyWindow(x, raw, begin, end, hours, seedMeta)[j].pair), hours, i),
                                hours[i], seedMeta)
  {
    var query := Between(raw, begin, end);
    var r := HourlyForKeys(x, query, Keys(query), hours, seedMeta);
    assert HourlyWindow(x, raw, begin, end, hours, seedMeta) == r;
    HourlyForKeysRows(x, query, Keys(query), hours, seedMeta);
    forall j | 0 <= j < |r|
      ensures exists i :: 0 <= i < 24 && |HourBucket(DayGroup(raw, begin, end, r[j].pair), hours, i)| > Threshold
                          && r[j] == Aggregate(x, r[j].pair, HourBucket(DayGroup(raw, begin, end, r[j].pair), hours, i), hours[i], seedMeta)
    {
      assert DayGroup(raw, begin, end, r[j].pair) == Group(query, r[j].pair);
      assert HourlyRowFor(x, query, Keys(query), hours, seedMeta, r[j]);
      var i :| 0 <= i < 24 && HourBucketRow(x, Group(query, r[j].pair), hours, i, seedMeta, r[j]);
    }
  }

  /** Every pair's hour with more than 2 quotes inside the window gets its hourly row. */
  lemma HourlyWindowComplete(x: Exchange, raw: seq<Quote>, begin: int, end: int, hours: seq<int>, seedMeta: Meta,
                             k: Option<string>, i: nat)
    requires |hours| == 25 && i < 24
    requires |HourBucket(DayGroup(raw, begin, end, k), hours, i)| > Threshold
    ensures exists j :: 0 <= j < |HourlyWindow(x, raw, begin, end, hours, seedMeta)|
                        && StampedRow(HourlyWindow(x, raw, begin, end, hours, seedMeta)[j], k, hours[i])
  {
    var query := Between(raw, begin, end);
    assert DayGroup(raw, begin, end, k) == Group(query, k);
    PairWithQuoteIsKey(query, k);
    HourlyForKeysComplete(x, query, Keys(query), hours, seedMeta, k, i);
    var r := HourlyForKeys(x, query, Keys(query), hours, seedMeta);
    assert HourlyWindow(x, raw, begin, end, hours, seedMeta) == r;
    var j :| 0 <= j < |r| && r[j].pair == k && r[j].createdAt == hours[i];
  }
}
