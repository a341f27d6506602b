/** app/queries/data_query.go: the find options of `GetDatas` and the day counts of
    `GetCounterAvg` and `GetCounterStats`. */
module DataQuery {
  import opened Common
  import GoLib

  /** queries.ListOptions. */
  datatype ListOptions = ListOptions(limit: int, ordering: string)

  /** One sort key and its direction: 1 ascending, -1 descending. */
  datatype SortSpec = SortSpec(key: string, direction: int)

  /** The parts of `options.Find()` that `GetDatas` sets. */
  datatype FindOptions = FindOptions(sort: Option<SortSpec>, limit: Option<int>)

  /** The ordering string a sort specification stands for: a leading '-' for descending. */
  function OrderingOf(sort: Option<SortSpec>): string
  {
    match sort
    case None => ""
    case Some(spec) => if spec.direction == -1 then "-" + spec.key else spec.key
  }

  /** `GetDatas` builds `qopts` step by step: no ordering adds no sort; a leading '-' (one of
      them) sorts descending on the rest; any other ordering sorts ascending on all of it;
      a zero limit sets no limit. */
  method BuildFindOptions(opts: ListOptions) returns (qopts: FindOptions)
    ensures opts.ordering == "" <==> qopts.sort.None?
    ensures qopts.sort.Some? ==>
              (qopts.sort.value.direction == -1 <==> opts.ordering[0] == '-') &&
              (qopts.sort.value.direction == 1 <==> opts.ordering[0] != '-')
    ensures OrderingOf(qopts.sort) == opts.ordering
    ensures qopts.limit == if opts.limit == 0 then None else Some(opts.limit)
  {
    qopts := FindOptions(None, None);
    if opts.ordering != "" {
      if opts.ordering[0] == '-' {
        var key := opts.ordering[1..];
        qopts := qopts.(sort := Some(SortSpec(key, -1)));
      } else {
        qopts := qopts.(sort := Some(SortSpec(opts.ordering, 1)));
      }
    }
    if opts.limit != 0 {
      qopts := qopts.(limit := Some(opts.limit));
    }
  }

  // ---------------------------------------------------------------------------
  // Elapsed days. Instants are in nanoseconds; `firstDate` arrives as a
  // primitive.DateTime in milliseconds.

  /** 24 * time.Hour, in nanoseconds. */
  const Day: int := 24 * 60 * 60 * 1_000_000_000

  /** `ld.Sub(fd)`: the saturated duration from the first record to now. */
  function Elapsed(firstDateMs: int, nowNs: int): (d: int)
    ensures GoLib.MinInt64 <= d <= GoLib.MaxInt64
    ensures var exact := nowNs - firstDateMs * 1_000_000;
            (GoLib.MinInt64 <= exact <= GoLib.MaxInt64 ==> d == exact) &&
            (exact > GoLib.MaxInt64 ==> d == GoLib.MaxInt64) &&
            (exact < GoLib.MinInt64 ==> d == GoLib.MinInt64)
  {
    GoLib.Sub(nowNs, firstDateMs * 1_000_000)
  }

  /** `GetCounterAvg`'s denominator: whole days elapsed, truncated toward zero
      (`ld.Sub(fd) / (24 * time.Hour)`). */
  function AvgDays(firstDateMs: int, nowNs: int): (days: int)
    ensures var d := Elapsed(firstDateMs, nowNs);
            (d >= 0 ==> days >= 0 && days * Day <= d < days * Day + Day) &&
            (d < 0 ==> days <= 0 && days * Day - Day < d <= days * Day)
  {
    GoLib.DivTrunc(Elapsed(firstDateMs, nowNs), Day)
  }

  /** `GetCounterStats`'s day count: the ceiling of the elapsed days
      (`math.Ceil(ld.Sub(fd).Hours() / 24)`), computed exactly. */
  function StatsDays(firstDateMs: int, nowNs: int): (days: int)
    ensures var d := Elapsed(firstDateMs, nowNs);
            days * Day - Day < d <= days * Day
  {
    -((-Elapsed(firstDateMs, nowNs)) / Day)
  }

  /** The integer part of what `GetCounterStats` returns besides the average. */
  datatype Stats = Stats(total: int, days: int)

  function CounterStats(total: int, firstDateMs: int, nowNs: int): (s: Stats)
    ensures s.total == total
    ensures var d := Elapsed(firstDateMs, nowNs);
            s.days * Day - Day < d <= s.days * Day
  {
    Stats(total, StatsDays(firstDateMs, nowNs))
  }

  /** The average's denominator is zero exactly when less than a day separates the first
      record from now (in either direction); the source divides by it without a guard. */
  lemma AvgDaysZero(firstDateMs: int, nowNs: int)
    ensures AvgDays(firstDateMs, nowNs) == 0 <==> -Day < Elapsed(firstDateMs, nowNs) < Day
  {
  }

  /** Exact multiples of a day are counted as they are by both handlers. */
  lemma WholeDays(firstDateMs: int, nowNs: int, k: int)
    requires Elapsed(firstDateMs, nowNs) == k * Day
    ensures AvgDays(firstDateMs, nowNs) == k && StatsDays(firstDateMs, nowNs) == k
  {
  }

  /** For a first record in the past, the ceiling exceeds the truncation by one exactly when
      a partial day has elapsed. */
  lemma StatsDaysRoundsUp(firstDateMs: int, nowNs: int)
    requires Elapsed(firstDateMs, nowNs) >= 0
    ensures StatsDays(firstDateMs, nowNs) ==
              AvgDays(firstDateMs, nowNs) + (if Elapsed(firstDateMs, nowNs) % Day == 0 then 0 else 1)
  {
  }
}
