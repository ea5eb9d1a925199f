/**
 * The fallback probe, run only when no chunk of an instrument was kept:
 * try the instrument's alternate (token, exchange) pairs in their listed
 * order, each over one fixed trading day, and stop at the first pair that
 * returns rows.  The pair found is only reported; nothing is re-fetched.
 */
module Fallback {

  import opened Options
  import opened Clock
  import opened Candles

  /** An alternate (token, exchange) pair. */
  datatype Alt = Alt(token: string, exchange: string)

  const ALT_TOKENS: map<string, seq<Alt>> := map[
    "NIFTY" := [Alt("26000", "NSE"), Alt("26000", "NFO"), Alt("99926000", "NFO")],
    "BANKNIFTY" := [Alt("26009", "NSE"), Alt("26009", "NFO"), Alt("99926009", "NFO")]
  ]

  /** The one-day test window, 2024-01-02 09:15 to 15:30. */
  const PROBE_FROM: int := DateTime(2024, 1, 2, 9, 15)
  const PROBE_TO: int := DateTime(2024, 1, 2, 15, 30)

  /** `ALT_TOKENS.get(symbol, [])`. */
  function Candidates(symbol: string): seq<Alt> {
    if symbol in ALT_TOKENS then ALT_TOKENS[symbol] else []
  }

  /** The request the probe sends for `alt`. */
  function ProbeRequest(alt: Alt): Request {
    ChunkRequest(alt.token, alt.exchange, PROBE_FROM, PROBE_TO)
  }

  function ProbeRequests(alts: seq<Alt>): seq<Request>
  {
    seq(|alts|, i requires 0 <= i < |alts| => ProbeRequest(alts[i]))
  }

  /** `df is not None and len(df) > 0` for the probe of `alt`. */
  predicate Works<P>(fetch: Request -> Response<P>, alt: Alt) {
    var df := FetchChunk(fetch, alt.token, alt.exchange, PROBE_FROM, PROBE_TO);
    df.Some? && |df.value| > 0
  }

  /** The position of the first pair of `alts` that works, or |alts|. */
  function FirstWorking<P>(fetch: Request -> Response<P>, alts: seq<Alt>): (k: nat)
    ensures k <= |alts|
    ensures forall j :: 0 <= j < k ==> !Works(fetch, alts[j])
    ensures k < |alts| ==> Works(fetch, alts[k])
  {
    if alts == [] then 0
    else if Works(fetch, alts[0]) then 0
    else 1 + FirstWorking(fetch, alts[1..])
  }

  /** The pair the probe reports for `symbol`. */
  function ProbeFound<P>(fetch: Request -> Response<P>, symbol: string): Option<Alt> {
    var alts := Candidates(symbol);
    var k := FirstWorking(fetch, alts);
    if k < |alts| then Some(alts[k]) else None
  }

  /** The requests the probe sends for `symbol`. */
  function ProbeTried<P>(fetch: Request -> Response<P>, symbol: string): seq<Request> {
    var alts := Candidates(symbol);
    var k := FirstWorking(fetch, alts);
    ProbeRequests(alts[..if k < |alts| then k + 1 else k])
  }

  /** What the probe does: it reports the first working pair in listed
      order, or nothing when none works; it tries the pairs in order up to
      and including the one it reports, and all of them when none works;
      every request is over the fixed test day; a symbol without alternates
      probes nothing. */
  lemma ProbeSpec<P>(fetch: Request -> Response<P>, symbol: string)
    ensures var alts, found, tried := Candidates(symbol), ProbeFound(fetch, symbol), ProbeTried(fetch, symbol);
      (found.None? <==> forall j :: 0 <= j < |alts| ==> !Works(fetch, alts[j])) &&
      (found.None? ==> tried == ProbeRequests(alts)) &&
      (found.Some? ==> exists k :: 0 <= k < |alts| && found == Some(alts[k]) && Works(fetch, alts[k]) &&
                                   (forall j :: 0 <= j < k ==> !Works(fetch, alts[j])) &&
                                   tried == ProbeRequests(alts[..k + 1])) &&
      (forall r :: r in tried ==> r.from == PROBE_FROM && r.to == PROBE_TO) &&
      (symbol !in ALT_TOKENS ==> found == None && tried == [])
  {
    var alts := Candidates(symbol);
    var k := FirstWorking(fetch, alts);
    if k == |alts| {
      assert alts[..k] == alts;
    }
  }

  /** The probe loop: returns the pair it reports and the requests it sent. */
  method Probe<P>(fetch: Request -> Response<P>, symbol: string)
    returns (found: Option<Alt>, tried: seq<Request>)
    ensures found == ProbeFound(fetch, symbol)
    ensures tried == ProbeTried(fetch, symbol)
  {
    var alts := Candidates(symbol);
    found, tried := None, [];
    var i := 0;
    while i < |alts|
      invariant 0 <= i <= |alts|
      invariant forall j :: 0 <= j < i ==> !Works(fetch, alts[j])
      invariant found == None && tried == ProbeRequests(alts[..i])
    {
      var alt := alts[i];
      var df := FetchChunk(fetch, alt.token, alt.exchange, PROBE_FROM, PROBE_TO);
      tried := tried + [ProbeRequest(alt)];
      assert tried == ProbeRequests(alts[..i + 1]);
      if df.Some? && |df.value| > 0 {
        found := Some(alt);
        break;
      }
      i := i + 1;
    }
    if found.None? {
      assert alts[..i] == alts;
    }
  }
}
