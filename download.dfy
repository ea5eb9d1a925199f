/**
 * The per-instrument run and the run over all configured instruments:
 * fetch the range chunk by chunk; when some chunk was kept, consolidate
 * and save the series; otherwise save nothing and run the fallback probe.
 */
module Download {

  import opened Options
  import opened Clock
  import opened Candles
  import opened Consolidation
  import opened Chunking
  import opened Fallback

  /** An entry of `SYMBOLS`. */
  datatype Instrument = Instrument(symbol: string, token: string, exchange: string)

  const SYMBOLS: seq<Instrument> := [
    Instrument("NIFTY", "99926000", "NSE"),
    Instrument("BANKNIFTY", "99926009", "NSE")
  ]

  const START: int := Date(2023, 1, 1)
  const END: int := Date(2024, 12, 31)

  /** What a run leaves for one instrument: the series written to its CSV
      file, if any, and the alternate pair the probe reported, if any. */
  datatype Outcome<P> = Outcome(symbol: string, saved: Option<seq<Candle<P>>>, suggestion: Option<Alt>)

  /** The chunk requests for `inst` over [start, end). */
  function Plan(inst: Instrument, start: int, end: int): seq<Request> {
    ChunkRequests(inst.token, inst.exchange, Chunks(start, end))
  }

  /** `if all_dfs: final = ...` : the series saved for the kept chunks. */
  function Saved<P>(allDfs: seq<seq<Candle<P>>>): Option<seq<Candle<P>>> {
    if allDfs == [] then None else Some(Consolidate(allDfs))
  }

  /** The outcome of the run for one instrument against the provider `fetch`. */
  function Run<P>(fetch: Request -> Response<P>, inst: Instrument, start: int, end: int): Outcome<P> {
    var saved := Saved(Kept(fetch, Plan(inst, start, end)));
    Outcome(inst.symbol, saved, if saved.None? then ProbeFound(fetch, inst.symbol) else None)
  }

  /** Every request the run for one instrument sends, in order. */
  function RunRequests<P>(fetch: Request -> Response<P>, inst: Instrument, start: int, end: int): seq<Request> {
    var plan := Plan(inst, start, end);
    plan + (if Kept(fetch, plan) == [] then ProbeTried(fetch, inst.symbol) else [])
  }

  /** A series is saved exactly when some chunk reply had a true status and
      non-empty data; then the probe does not run.  Otherwise nothing is
      saved, the probe runs, and every request after the chunk requests is
      a probe over the fixed test day: the full range is not fetched again. */
  lemma SavedIffSomeChunk<P>(fetch: Request -> Response<P>, inst: Instrument, start: int, end: int)
    ensures var plan, out, rs := Plan(inst, start, end), Run(fetch, inst, start, end), RunRequests(fetch, inst, start, end);
      (out.saved.Some? <==> exists i :: 0 <= i < |plan| && Classify(fetch(plan[i])).Some?) &&
      (out.saved.Some? ==> out.suggestion == None && rs == plan) &&
      (out.saved.None? ==> out.suggestion == ProbeFound(fetch, inst.symbol) &&
                           rs[..|plan|] == plan &&
                           forall r :: r in rs[|plan|..] ==> r.from == PROBE_FROM && r.to == PROBE_TO)
  {
    var plan := Plan(inst, start, end);
    KeptEmpty(fetch, plan);
    ProbeSpec(fetch, inst.symbol);
    var rs := RunRequests(fetch, inst, start, end);
    assert rs[..|plan|] == plan;
    if Kept(fetch, plan) == [] {
      assert rs[|plan|..] == ProbeTried(fetch, inst.symbol);
    }
  }

  /** The saved series is not empty, is strictly ascending by timestamp,
      holds every timestamp of the concatenated kept chunks and no other,
      carries for each timestamp its first row in the concatenation, and
      that row is the first row with the timestamp in the earliest kept
      chunk that has it. */
  lemma SavedSeries<P>(fetch: Request -> Response<P>, inst: Instrument, start: int, end: int)
    ensures Run(fetch, inst, start, end).saved.Some? ==>
      var kept := Kept(fetch, Plan(inst, start, end));
      var all := Concat(kept);
      var series := Run(fetch, inst, start, end).saved.value;
      series != [] &&
      StrictlySortedTs(series) &&
      Keys(series) == Keys(all) &&
      (forall x :: x in series <==> x.ts in Keys(all) && x == FirstRow(all, x.ts)) &&
      (forall x :: x in series ==>
         exists k :: 0 <= k < |kept| && x.ts in Keys(kept[k]) &&
                     (forall j :: 0 <= j < k ==> x.ts !in Keys(kept[j])) &&
                     x == FirstRow(kept[k], x.ts))
  {
    if Run(fetch, inst, start, end).saved.Some? {
      var kept := Kept(fetch, Plan(inst, start, end));
      var all := Concat(kept);
      var series := Run(fetch, inst, start, end).saved.value;
      ConsolidateProperties(kept);
      ConcatRows(kept);
      assert Keys(kept[0]) <= Keys(all);
      assert kept[0][0].ts in Keys(kept[0]);
      forall x | x in series
        ensures exists k :: 0 <= k < |kept| && x.ts in Keys(kept[k]) &&
                            (forall j :: 0 <= j < k ==> x.ts !in Keys(kept[j])) &&
                            x == FirstRow(kept[k], x.ts)
      {
        FirstRowEarliestChunk(kept, x.ts);
      }
    }
  }

  /** Every timestamp of every kept reply is in the saved series, and every
      row of the series comes from a request whose reply was kept: a failed
      chunk contributes nothing. */
  lemma SavedRowsFromKeptReplies<P>(fetch: Request -> Response<P>, inst: Instrument, start: int, end: int)
    ensures Run(fetch, inst, start, end).saved.Some? ==>
      var plan, series := Plan(inst, start, end), Run(fetch, inst, start, end).saved.value;
      (forall i :: 0 <= i < |plan| && Classify(fetch(plan[i])).Some? ==>
         Keys(Classify(fetch(plan[i])).value) <= Keys(series)) &&
      (forall x :: x in series ==>
         exists i :: 0 <= i < |plan| && Classify(fetch(plan[i])).Some? && x in Classify(fetch(plan[i])).value)
  {
    if Run(fetch, inst, start, end).saved.Some? {
      var plan := Plan(inst, start, end);
      var kept := Kept(fetch, plan);
      var all := Concat(kept);
      var series := Consolidate(kept);
      ConsolidateProperties(kept);
      ConcatRows(kept);
      KeptInOrder(fetch, plan);
      var idx := KeptIndices(fetch, plan);
      forall i | 0 <= i < |plan| && Classify(fetch(plan[i])).Some?
        ensures Keys(Classify(fetch(plan[i])).value) <= Keys(series)
      {
        assert i in idx;
        var k :| 0 <= k < |idx| && idx[k] == i;
        assert kept[k] == Classify(fetch(plan[i])).value;
        assert Keys(kept[k]) <= Keys(all);
      }
      forall x | x in series
        ensures exists i :: 0 <= i < |plan| && Classify(fetch(plan[i])).Some? && x in Classify(fetch(plan[i])).value
      {
        assert x in all by {
          assert x.ts in Keys(all) && x == FirstRow(all, x.ts);
        }
        var k :| 0 <= k < |kept| && x in kept[k];
        assert Classify(fetch(plan[idx[k]])) == Some(kept[k]);
      }
    }
  }

  /** The run for one instrument. */
  method DownloadSymbol<P>(fetch: Request -> Response<P>, inst: Instrument, start: int, end: int)
    returns (outcome: Outcome<P>, requests: seq<Request>)
    ensures outcome == Run(fetch, inst, start, end)
    ensures requests == RunRequests(fetch, inst, start, end)
  {
    var allDfs;
    requests, allDfs := FetchRange(fetch, inst.token, inst.exchange, start, end);
    if allDfs != [] {
      var final := SortByTs(Dedup(Concat(allDfs)));
      outcome := Outcome(inst.symbol, Some(final), None);
    } else {
      var found, tried := Probe(fetch, inst.symbol);
      outcome := Outcome(inst.symbol, None, found);
      requests := requests + tried;
    }
  }

  /** `f` applied to each of `xs`, in order. */
  function Each<A, B>(f: A -> B, xs: seq<A>): (ys: seq<B>)
    ensures |ys| == |xs|
  {
    if xs == [] then [] else Each(f, xs[..|xs| - 1]) + [f(xs[|xs| - 1])]
  }

  lemma {:induction false} EachIndex<A, B>(f: A -> B, xs: seq<A>, i: nat)
    requires i < |xs|
    ensures Each(f, xs)[i] == f(xs[i])
  {
    var init := xs[..|xs| - 1];
    if i < |init| {
      EachIndex(f, init, i);
      assert init[i] == xs[i];
    }
  }

  /** The outcomes of the runs for `instruments`, in order. */
  function RunAllOutcomes<P>(fetch: Request -> Response<P>, instruments: seq<Instrument>, start: int, end: int)
    : seq<Outcome<P>>
  {
    Each(inst => Run(fetch, inst, start, end), instruments)
  }

  /** Every request the runs for `instruments` send, in order. */
  function RunAllRequests<P>(fetch: Request -> Response<P>, instruments: seq<Instrument>, start: int, end: int)
    : seq<Request>
  {
    if instruments == [] then []
    else
      RunAllRequests(fetch, instruments[..|instruments| - 1], start, end) +
      RunRequests(fetch, instruments[|instruments| - 1], start, end)
  }

  /** Each instrument's run starts afresh: its outcome in the run over all
      instruments is that of a run of that instrument alone. */
  lemma {:induction false} RunAllIndependent<P>(fetch: Request -> Response<P>, instruments: seq<Instrument>,
                                               i: nat, start: int, end: int)
    requires i < |instruments|
    ensures |RunAllOutcomes(fetch, instruments, start, end)| == |instruments|
    ensures RunAllOutcomes(fetch, instruments, start, end)[i] == Run(fetch, instruments[i], start, end)
  {
    EachIndex(inst => Run(fetch, inst, start, end), instruments, i);
  }

  lemma RunAllStep<P>(fetch: Request -> Response<P>, instruments: seq<Instrument>, i: nat, start: int, end: int)
    requires i < |instruments|
    ensures RunAllOutcomes(fetch, instruments[..i + 1], start, end) ==
      RunAllOutcomes(fetch, instruments[..i], start, end) + [Run(fetch, instruments[i], start, end)]
    ensures RunAllRequests(fetch, instruments[..i + 1], start, end) ==
      RunAllRequests(fetch, instruments[..i], start, end) + RunRequests(fetch, instruments[i], start, end)
  {
    assert instruments[..i + 1][..i] == instruments[..i];
  }

  /** The loop over the instruments. */
  method DownloadAll<P>(fetch: Request -> Response<P>, instruments: seq<Instrument>, start: int, end: int)
    returns (outcomes: seq<Outcome<P>>, requests: seq<Request>)
    ensures outcomes == RunAllOutcomes(fetch, instruments, start, end)
    ensures requests == RunAllRequests(fetch, instruments, start, end)
  {
    outcomes, requests := [], [];
    for i := 0 to |instruments|
      invariant outcomes == RunAllOutcomes(fetch, instruments[..i], start, end)
      invariant requests == RunAllRequests(fetch, instruments[..i], start, end)
    {
      var outcome, sent := DownloadSymbol(fetch, instruments[i], start, end);
      RunAllStep(fetch, instruments, i, start, end);
      outcomes, requests := outcomes + [outcome], requests + sent;
    }
    assert instruments[..|instruments|] == instruments;
  }

  /** The configured range 2023-01-01 to 2024-12-31 is fetched in 25
      windows per instrument. */
  lemma ConfiguredRangeChunks()
    ensures |Chunks(START, END)| == 25
  {
    assert START == 738520 * MINUTES_PER_DAY by { assert DaysBeforeYear(2023) == 738520; }
    assert END == 739250 * MINUTES_PER_DAY by { assert DaysBeforeYear(2024) == 738885; }
    ChunksCount(START, END);
  }

  /** The configured run: one outcome per entry of `SYMBOLS`, NIFTY then
      BANKNIFTY, each the outcome of a run of that instrument alone, and
      each instrument's range split into 25 chunk requests for its own
      token and exchange. */
  lemma ConfiguredRun<P>(fetch: Request -> Response<P>)
    ensures var outs := RunAllOutcomes(fetch, SYMBOLS, START, END);
      |outs| == 2 &&
      outs[0].symbol == "NIFTY" && outs[1].symbol == "BANKNIFTY" &&
      outs[0] == Run(fetch, SYMBOLS[0], START, END) &&
      outs[1] == Run(fetch, SYMBOLS[1], START, END) &&
      forall i :: 0 <= i < 2 ==>
        var plan := Plan(SYMBOLS[i], START, END);
        |plan| == 25 &&
        forall r :: r in plan ==> r.token == SYMBOLS[i].token && r.exchange == SYMBOLS[i].exchange
  {
    RunAllIndependent(fetch, SYMBOLS, 0, START, END);
    RunAllIndependent(fetch, SYMBOLS, 1, START, END);
    ConfiguredPlan(SYMBOLS[0]);
    ConfiguredPlan(SYMBOLS[1]);
  }

  lemma ConfiguredPlan(inst: Instrument)
    ensures var plan := Plan(inst, START, END);
      |plan| == 25 && forall r :: r in plan ==> r.token == inst.token && r.exchange == inst.exchange
  {
    ConfiguredRangeChunks();
    PlanRequests(inst.token, inst.exchange, START, END);
  }
}
