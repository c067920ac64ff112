/**
 * The drivers of ItbitService and BitfinexService around the per-window
 * rollup: the day-window loop of `createIbHourlyAvg` / `createIbDailyAvg`
 * (and their Bitfinex twins), the single-instance guard of `createIbAvg` /
 * `createBfAvg`, and Itbit's pair-name mappings.
 *
 * Instants are integer milliseconds. `createDayHours` and `createTimeFrame`
 * belong to a helper class that is not part of this model: the hour
 * boundaries are taken as 25 instants one hour apart (no daylight-saving
 * shifts) and the first window is a parameter.
 */
module Services {
  import opened Quotes
  import opened Rollup

  const HourMs: int := 3_600_000
  const DayMs: int := 86_400_000

  /** The 25 hour boundaries of the day starting at `begin`. */
  function DayHours(begin: int): (hours: seq<int>)
    ensures |hours| == 25 && hours[0] == begin && hours[24] == begin + DayMs
    ensures Increasing(hours)
  {
    seq(25, i => begin + i * HourMs)
  }

  datatype Granularity = Hourly | Daily

  /** The collection a pass writes to. */
  function Collection(x: Exchange, g: Granularity): string
  {
    match (x, g)
    case (Itbit, Hourly) => "quoteIbHour"
    case (Itbit, Daily) => "quoteIbDay"
    case (Bitfinex, Hourly) => "quoteBfHour"
    case (Bitfinex, Daily) => "quoteBfDay"
  }

  /**
   * The metadata of the fold seed: Itbit seeds with the current time as its
   * server time, Bitfinex with an empty timestamp string.
   */
  function SeedMeta(x: Exchange, clock: int): Meta
  {
    match x
    case Itbit => ServerTime(clock)
    case Bitfinex => Timestamp("")
  }

  /** The rows one window `(begin, end)` of a pass produces. */
  function WindowRows(x: Exchange, g: Granularity, raw: seq<Quote>, clock: int): (int, int) -> seq<Quote>
  {
    match g
    case Hourly => (begin, end) => HourlyWindow(x, raw, begin, end, DayHours(begin), SeedMeta(x, clock))
    case Daily => (begin, end) => DailyWindow(x, raw, begin, end, SeedMeta(x, clock))
  }

  /** One `insertAll` call: the target collection and the rows. */
  datatype Write = Write(collection: string, rows: seq<Quote>)

  /** A time window of the loop. */
  datatype Frame = Frame(begin: int, end: int)

  /** The write of one window, if any: an empty row list is filtered out. */
  function WindowWrite(collection: string, rows: seq<Quote>): seq<Write>
  {
    if |rows| == 0 then [] else [Write(collection, rows)]
  }

  /**
   * Reference definition of the writes of the first n windows, the i-th
   * window being shifted by i days from `(begin, end)`.
   */
  function WritesFor(collection: string, rowsOf: (int, int) -> seq<Quote>, begin: int, end: int, n: nat)
    : (ws: seq<Write>)
    ensures |ws| <= n
    ensures forall w :: w in ws ==> |w.rows| > 0 && w.collection == collection
  {
    if n == 0 then []
    else WritesFor(collection, rowsOf, begin, end, n - 1)
         + WindowWrite(collection, rowsOf(begin + (n - 1) * DayMs, end + (n - 1) * DayMs))
  }

  /** How many windows the loop processes: those whose end is before `today`. */
  function WindowCount(end: int, today: int): nat
  {
    if end < today then (today - end - 1) / DayMs + 1 else 0
  }

  /** The loop runs exactly as many times as the closed form says. */
  lemma WindowCountExact(end: int, today: int, n: nat)
    requires end + n * DayMs >= today
    requires n > 0 ==> end + (n - 1) * DayMs < today
    ensures n == WindowCount(end, today)
  {
    if n > 0 {
      var d := today - end - 1;
      assert (n - 1) * DayMs <= d < n * DayMs;
      DivBetween(d, DayMs, n - 1);
    }
  }

  /** Euclidean division is determined by bracketing multiples. */
  lemma DivBetween(a: int, b: int, q: int)
    requires b > 0 && q * b <= a < (q + 1) * b
    ensures a / b == q
  {
    var k, m := a / b, a % b;
    assert a == k * b + m && 0 <= m < b;
    if k > q {
      MulMonotone(q + 1, k, b);
    } else if k < q {
      MulMonotone(k + 1, q, b);
    }
  }

  lemma MulMonotone(i: int, j: int, b: int)
    requires i <= j && b >= 0
    ensures i * b <= j * b
  {
    assert j * b - i * b == (j - i) * b;
  }

  /**
   * One pass (`createIbHourlyAvg`, `createIbDailyAvg` and the Bitfinex
   * twins): starting from the frame `(begin, end)`, while the frame's end is
   * before `today` (local midnight), compute the window's rows, write them
   * to `collection` unless they are empty, and shift both ends by one day.
   */
  method RunWindows(collection: string, rowsOf: (int, int) -> seq<Quote>, begin: int, end: int, today: int)
    returns (writes: seq<Write>, frames: seq<Frame>)
    ensures |frames| == WindowCount(end, today)
    ensures forall i :: 0 <= i < |frames| ==>
              frames[i] == Frame(begin + i * DayMs, end + i * DayMs) && frames[i].end < today
    ensures end + |frames| * DayMs >= today
    ensures writes == WritesFor(collection, rowsOf, begin, end, |frames|)
    ensures forall w :: w in writes ==> |w.rows| > 0 && w.collection == collection
  {
    var b, e := begin, end;
    writes, frames := [], [];
    while e < today
      invariant b == begin + |frames| * DayMs && e == end + |frames| * DayMs
      invariant forall i :: 0 <= i < |frames| ==>
                  frames[i] == Frame(begin + i * DayMs, end + i * DayMs) && frames[i].end < today
      invariant writes == WritesFor(collection, rowsOf, begin, end, |frames|)
      decreases today - e
    {
      var rows := rowsOf(b, e);
      if |rows| > 0 {
        writes := writes + [Write(collection, rows)];
      }
      frames := frames + [Frame(b, e)];
      b, e := b + DayMs, e + DayMs;
    }
    if |frames| > 0 {
      assert frames[|frames| - 1].end < today;
    }
    WindowCountExact(end, today, |frames|);
  }

  /** The static single-instance flag and the deployment mode it guards. */
  datatype Guard = Guard(singleInstance: bool, locked: bool)

  /**
   * The guard of `createIbAvg` / `createBfAvg`: whether this call builds the
   * pipeline, and the flag afterwards. Building always sets the flag; nothing
   * clears it.
   */
  function Enter(g: Guard): (r: (bool, Guard))
    ensures r.0 <==> !g.singleInstance || !g.locked
    ensures r.1.singleInstance == g.singleInstance
    ensures g.locked ==> r.1.locked
    ensures r.0 ==> r.1.locked
  {
    var builds := (g.singleInstance && !g.locked) || !g.singleInstance;
    (builds, if builds then g.(locked := true) else g)
  }

  /** The outcomes of n successive calls. */
  function Calls(g: Guard, n: nat): (bs: seq<bool>)
    ensures |bs| == n
    decreases n
  {
    if n == 0 then [] else [Enter(g).0] + Calls(Enter(g).1, n - 1)
  }

  /** In single-instance mode only a first call on an unset flag builds. */
  lemma {:induction false} SingleInstanceBuildsOnce(g: Guard, n: nat)
    requires g.singleInstance
    ensures forall i :: 0 <= i < n ==> (Calls(g, n)[i] <==> i == 0 && !g.locked)
    decreases n
  {
    if n > 0 {
      var g' := Enter(g).1;
      assert g'.singleInstance && g'.locked;
      SingleInstanceBuildsOnce(g', n - 1);
      forall i | 0 < i < n
        ensures !Calls(g, n)[i]
      {
        assert Calls(g, n)[i] == Calls(g', n - 1)[i - 1];
      }
    }
  }

  /** Without single-instance mode every call builds. */
  lemma {:induction false} MultiInstanceAlwaysBuilds(g: Guard, n: nat)
    requires !g.singleInstance
    ensures forall i :: 0 <= i < n ==> Calls(g, n)[i]
    decreases n
  {
    if n > 0 {
      MultiInstanceAlwaysBuilds(Enter(g).1, n - 1);
      assert forall i :: 0 < i < n ==> Calls(g, n)[i] == Calls(Enter(g).1, n - 1)[i - 1];
    }
  }

  /** The time frames the hourly and the daily pass start from. */
  datatype Start = Start(hourly: Frame, daily: Frame)

  /**
   * `createIbAvg` / `createBfAvg`: when the guard lets the call through, both
   * passes run, each over its own collection; otherwise nothing is written.
   */
  method CreateAvg(x: Exchange, guard: Guard, raw: seq<Quote>, start: Start, today: int, clock: int)
    returns (built: bool, guard': Guard, writes: seq<Write>)
    ensures (built, guard') == Enter(guard)
    ensures !built ==> writes == []
    ensures built ==>
              writes == WritesFor(Collection(x, Hourly), WindowRows(x, Hourly, raw, clock),
                                  start.hourly.begin, start.hourly.end, WindowCount(start.hourly.end, today))
                        + WritesFor(Collection(x, Daily), WindowRows(x, Daily, raw, clock),
                                    start.daily.begin, start.daily.end, WindowCount(start.daily.end, today))
  {
    built, guard' := Enter(guard).0, Enter(guard).1;
    writes := [];
    if built {
      var hourly, _ := RunWindows(Collection(x, Hourly), WindowRows(x, Hourly, raw, clock),
                                  start.hourly.begin, start.hourly.end, today);
      var daily, _ := RunWindows(Collection(x, Daily), WindowRows(x, Daily, raw, clock),
                                 start.daily.begin, start.daily.end, today);
      writes := hourly + daily;
    }
  }

  /** Itbit's `currpairs` lookup: the two known pairs, anything else unmapped. */
  function ItbitSymbol(pair: string): (r: Option<string>)
    ensures r.Some? <==> pair == "btcusd" || pair == "btceur"
    ensures pair == "btcusd" ==> r == Some("XBTUSD")
    ensures pair == "btceur" ==> r == Some("XBTEUR")
  {
    if pair == "btcusd" then Some("XBTUSD")
    else if pair == "btceur" then Some("XBTEUR")
    else None
  }

  /** Itbit's `getOrderbook` renaming: only btcusd is translated. */
  function ItbitOrderbookPair(pair: string): (r: string)
    ensures r != pair <==> pair == "btcusd"
    ensures pair == "btcusd" ==> r == "XBTUSD"
  {
    if pair == "btcusd" then "XBTUSD" else pair
  }

  /**
   * The order book renaming agrees with the `currpairs` lookup on btcusd
   * only: btceur is looked up as XBTEUR but sent to the order book as is.
   */
  lemma OrderbookVersusCurrpairs(pair: string)
    ensures ItbitSymbol(pair).Some? && ItbitOrderbookPair(pair) == ItbitSymbol(pair).value <==> pair == "btcusd"
  {
    if pair == "btceur" {
      assert ItbitOrderbookPair(pair) != ItbitSymbol(pair).value;
    }
  }
}
