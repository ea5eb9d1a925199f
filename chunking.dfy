/**
 * The chunk planner and the chunk loop: walk `current` from the start of
 * the range, request [current, min(current + 30 days, end)], keep the
 * response when `fetch_chunk` returns rows, and move `current` to the end
 * of the window plus 5 minutes, until `current` reaches the end.
 */
module Chunking {

  import opened Options
  import opened Clock
  import opened Candles
  import opened Consolidation

  const CHUNK_DAYS: int := 30
  /** `timedelta(days = CHUNK_DAYS)` in minutes. */
  const CHUNK_SPAN: int := CHUNK_DAYS * MINUTES_PER_DAY
  /** `timedelta(minutes = 5)`: the sampling interval. */
  const STEP: int := 5
  /** How far `current` moves after a full window. */
  const STRIDE: int := CHUNK_SPAN + STEP

  /** One requested window [from, to]; both ends are sent to the provider. */
  datatype Window = Window(from: int, to: int)

  function Min(a: int, b: int): int {
    if a <= b then a else b
  }

  /** The windows the loop requests when `current` starts at `current`. */
  function Chunks(current: int, end: int): (ws: seq<Window>)
    ensures ws == [] <==> current >= end
    ensures ws != [] ==> ws[0].from == current
    decreases end - current
  {
    if current >= end then []
    else
      var chunkEnd := Min(current + CHUNK_SPAN, end);
      [Window(current, chunkEnd)] + Chunks(chunkEnd + STEP, end)
  }

  /** Every window starts inside [current, end) and ends at
      min(start + 30 days, end); so it is not empty, lasts at most 30 days
      and ends no later than the range. */
  lemma {:induction false} ChunksBounded(current: int, end: int)
    ensures forall i :: 0 <= i < |Chunks(current, end)| ==>
      var w := Chunks(current, end)[i];
      current <= w.from < end && w.to == Min(w.from + CHUNK_SPAN, end) &&
      w.from < w.to <= end && w.to - w.from <= CHUNK_SPAN
    decreases end - current
  {
    if current < end {
      var chunkEnd := Min(current + CHUNK_SPAN, end);
      ChunksBounded(chunkEnd + STEP, end);
      var ws, rest := Chunks(current, end), Chunks(chunkEnd + STEP, end);
      assert forall i :: 1 <= i < |ws| ==> ws[i] == rest[i - 1];
    }
  }

  /** Consecutive windows: every window but the last is a full 30 days and
      the next starts 5 minutes after it ends; the last window ends at `end`,
      or is a full window ending at most 5 minutes before `end`. */
  lemma {:induction false} ChunksChain(current: int, end: int)
    ensures var ws := Chunks(current, end);
      (forall i :: 0 <= i < |ws| - 1 ==>
         ws[i].to == ws[i].from + CHUNK_SPAN && ws[i + 1].from == ws[i].to + STEP) &&
      (ws != [] ==>
         end <= ws[|ws| - 1].to + STEP &&
         (ws[|ws| - 1].to == end || ws[|ws| - 1].to == ws[|ws| - 1].from + CHUNK_SPAN))
    decreases end - current
  {
    if current < end {
      var chunkEnd := Min(current + CHUNK_SPAN, end);
      ChunksChain(chunkEnd + STEP, end);
      var ws, rest := Chunks(current, end), Chunks(chunkEnd + STEP, end);
      assert ws == [Window(current, chunkEnd)] + rest;
      assert forall i :: 1 <= i < |ws| ==> ws[i] == rest[i - 1];
    }
  }

  /** A later window starts after an earlier one starts and ends. */
  predicate Disjoint(ws: seq<Window>) {
    forall i, j :: 0 <= i < j < |ws| ==> ws[i].from < ws[j].from && ws[i].to < ws[j].from
  }

  /** Windows never overlap and their starts strictly increase. */
  lemma {:induction false} ChunksDisjoint(current: int, end: int)
    ensures Disjoint(Chunks(current, end))
    decreases end - current
  {
    if current < end {
      var chunkEnd := Min(current + CHUNK_SPAN, end);
      ChunksDisjoint(chunkEnd + STEP, end);
      var ws, rest := Chunks(current, end), Chunks(chunkEnd + STEP, end);
      assert ws == [Window(current, chunkEnd)] + rest;
      forall i, j | 0 <= i < j < |ws| ensures ws[i].from < ws[j].from && ws[i].to < ws[j].from {
        assert ws[j] == rest[j - 1] && rest[j - 1].from >= chunkEnd + STEP;
        if i > 0 {
          assert ws[i] == rest[i - 1] && rest[i - 1].to < rest[j - 1].from;
          assert rest[i - 1].from < rest[j - 1].from;
        } else {
          assert ws[0] == Window(current, chunkEnd) && current < chunkEnd;
        }
      }
    }
  }

  /** The i-th window starts i strides after the start, and there are
      ceil((end - current) / STRIDE) windows. */
  lemma {:induction false} ChunksCount(current: int, end: int)
    ensures var ws := Chunks(current, end);
      (forall i :: 0 <= i < |ws| ==> ws[i].from == current + i * STRIDE) &&
      |ws| == if current >= end then 0 else (end - current - 1) / STRIDE + 1
    decreases end - current
  {
    if current < end {
      var chunkEnd := Min(current + CHUNK_SPAN, end);
      var next := chunkEnd + STEP;
      ChunksCount(next, end);
      var ws, rest := Chunks(current, end), Chunks(next, end);
      assert ws == [Window(current, chunkEnd)] + rest;
      if next < end {
        assert next == current + STRIDE;
        assert forall i :: 1 <= i < |ws| ==> ws[i] == rest[i - 1];
        assert forall i :: 1 <= i < |ws| ==> ws[i].from == next + (i - 1) * STRIDE;
        DivStep(end - current - 1);
      }
    }
  }

  lemma DivStep(n: int)
    requires n >= STRIDE
    ensures n / STRIDE == (n - STRIDE) / STRIDE + 1
  {
  }

  /** Every 5-minute mark of [current, end) lies inside a requested window:
      the 5 minutes skipped after each window hold no candle boundary. */
  lemma {:induction false} ChunksCover(current: int, end: int, t: int)
    requires current <= t < end && (t - current) % STEP == 0
    ensures exists i :: 0 <= i < |Chunks(current, end)| &&
                        Chunks(current, end)[i].from <= t <= Chunks(current, end)[i].to
    decreases end - current
  {
    var ws := Chunks(current, end);
    var chunkEnd := Min(current + CHUNK_SPAN, end);
    if t <= chunkEnd {
      assert ws[0].from <= t <= ws[0].to;
    } else {
      var next := chunkEnd + STEP;
      assert chunkEnd == current + CHUNK_SPAN;
      assert next <= t by { ModGap(t - current); }
      ChunksCover(next, end, t);
      var rest := Chunks(next, end);
      assert ws == [Window(current, chunkEnd)] + rest;
      var i :| 0 <= i < |rest| && rest[i].from <= t <= rest[i].to;
      assert ws[i + 1] == rest[i];
    }
  }

  lemma ModGap(d: int)
    requires d > CHUNK_SPAN && d % STEP == 0
    ensures d >= CHUNK_SPAN + STEP && (d - STRIDE) % STEP == 0
  {
  }

  /** With the range 2023-01-01 to 2023-02-15, exactly two windows are
      requested: [2023-01-01, 2023-01-31] and [2023-01-31 00:05, 2023-02-15]. */
  lemma TwoChunkExample()
    ensures Chunks(Date(2023, 1, 1), Date(2023, 2, 15)) ==
      [Window(Date(2023, 1, 1), Date(2023, 1, 31)),
       Window(DateTime(2023, 1, 31, 0, 5), Date(2023, 2, 15))]
  {
    var s, e := Date(2023, 1, 1), Date(2023, 2, 15);
    assert Date(2023, 1, 31) == s + CHUNK_SPAN;
    assert DateTime(2023, 1, 31, 0, 5) == s + CHUNK_SPAN + STEP;
    assert e == s + 45 * MINUTES_PER_DAY;
    var second := Chunks(s + CHUNK_SPAN + STEP, e);
    assert second == [Window(s + CHUNK_SPAN + STEP, e)] + Chunks(e + STEP, e);
  }

  /** The requests the loop sends for the windows `ws`. */
  function ChunkRequests(token: string, exchange: string, ws: seq<Window>): seq<Request>
  {
    seq(|ws|, i requires 0 <= i < |ws| => ChunkRequest(token, exchange, ws[i].from, ws[i].to))
  }

  /** The requests the loop sends for [start, end): one per window, each for
      the instrument's token and exchange at the 5-minute interval, over a
      window inside the range that lasts at most 30 days; windows of later
      requests start after those of earlier ones end, so no window is
      requested twice. */
  lemma PlanRequests(token: string, exchange: string, start: int, end: int)
    ensures var ws, rs := Chunks(start, end), ChunkRequests(token, exchange, Chunks(start, end));
      |rs| == |ws| &&
      (forall i :: 0 <= i < |rs| ==>
         rs[i].token == token && rs[i].exchange == exchange && rs[i].interval == INTERVAL &&
         start <= rs[i].from < rs[i].to <= end && rs[i].to == Min(rs[i].from + CHUNK_SPAN, end)) &&
      (forall i, j :: 0 <= i < j < |rs| ==> rs[i].to < rs[j].from && rs[i] != rs[j])
  {
    ChunksBounded(start, end);
    ChunksDisjoint(start, end);
  }

  /** `all_dfs`: the rows of each request whose reply `fetch_chunk` keeps,
      in request order; the other requests are skipped. */
  function Kept<P>(fetch: Request -> Response<P>, rs: seq<Request>): (kept: seq<seq<Candle<P>>>)
    ensures |kept| <= |rs|
    ensures forall k :: 0 <= k < |kept| ==> kept[k] != []
  {
    if rs == [] then []
    else
      var init := Kept(fetch, rs[..|rs| - 1]);
      match Classify(fetch(rs[|rs| - 1]))
      case Some(rows) => init + [rows]
      case None => init
  }

  /** The positions of the requests whose reply `fetch_chunk` keeps. */
  function KeptIndices<P>(fetch: Request -> Response<P>, rs: seq<Request>): seq<nat>
  {
    if rs == [] then []
    else
      var init := KeptIndices(fetch, rs[..|rs| - 1]);
      if Classify(fetch(rs[|rs| - 1])).Some? then init + [|rs| - 1] else init
  }

  /** `all_dfs` holds the rows of exactly the requests whose reply has a
      true status and non-empty data, one entry per such request, in request
      order. */
  lemma {:induction false} KeptInOrder<P>(fetch: Request -> Response<P>, rs: seq<Request>)
    ensures var kept, idx := Kept(fetch, rs), KeptIndices(fetch, rs);
      |kept| == |idx| &&
      (forall k :: 0 <= k < |idx| ==> idx[k] < |rs| && Classify(fetch(rs[idx[k]])) == Some(kept[k])) &&
      (forall j, k :: 0 <= j < k < |idx| ==> idx[j] < idx[k]) &&
      (forall i :: 0 <= i < |rs| ==> (i in idx <==> Classify(fetch(rs[i])).Some?))
  {
    if rs != [] {
      var init := rs[..|rs| - 1];
      KeptInOrder(fetch, init);
      assert forall i :: 0 <= i < |init| ==> init[i] == rs[i];
    }
  }

  /** No chunk is kept exactly when every reply is an error, an exception
      or empty. */
  lemma KeptEmpty<P>(fetch: Request -> Response<P>, rs: seq<Request>)
    ensures Kept(fetch, rs) == [] <==> forall i :: 0 <= i < |rs| ==> Classify(fetch(rs[i])).None?
  {
    KeptInOrder(fetch, rs);
    var idx := KeptIndices(fetch, rs);
    if idx != [] { assert idx[0] in idx; }
  }

  /** Skipping a failed chunk is the same as counting it as an empty one:
      the kept chunks have the same rows, in the same order, as all replies
      with every failure read as no rows. */
  lemma {:induction false} KeptSkipsFailures<P>(fetch: Request -> Response<P>, rs: seq<Request>)
    ensures Concat(Kept(fetch, rs)) ==
      Concat(seq(|rs|, i requires 0 <= i < |rs| => RowsOrEmpty(fetch(rs[i]))))
  {
    if rs != [] {
      var init := rs[..|rs| - 1];
      KeptSkipsFailures(fetch, init);
      var all := seq(|rs|, i requires 0 <= i < |rs| => RowsOrEmpty(fetch(rs[i])));
      var allInit := seq(|init|, i requires 0 <= i < |init| => RowsOrEmpty(fetch(init[i])));
      assert all[..|all| - 1] == allInit;
      match Classify(fetch(rs[|rs| - 1]))
      case Some(rows) =>
        assert Kept(fetch, rs)[..|Kept(fetch, rs)| - 1] == Kept(fetch, init);
      case None =>
        assert Concat(all) == Concat(allInit) + [];
    }
  }

  lemma ChunkRequestsSnoc(token: string, exchange: string, ws: seq<Window>, w: Window)
    ensures ChunkRequests(token, exchange, ws + [w]) ==
      ChunkRequests(token, exchange, ws) + [ChunkRequest(token, exchange, w.from, w.to)]
  {
    var a, b := ChunkRequests(token, exchange, ws + [w]), ChunkRequests(token, exchange, ws) + [ChunkRequest(token, exchange, w.from, w.to)];
    assert |a| == |b|;
    forall i | 0 <= i < |a| ensures a[i] == b[i] {
      if i < |ws| { assert (ws + [w])[i] == ws[i]; }
    }
  }

  lemma KeptSnoc<P>(fetch: Request -> Response<P>, rs: seq<Request>, r: Request)
    ensures Kept(fetch, rs + [r]) ==
      Kept(fetch, rs) + (match Classify(fetch(r)) case Some(rows) => [rows] case None => [])
  {
    assert (rs + [r])[..|rs|] == rs;
  }

  lemma ChunksStep(start: int, end: int, done: seq<Window>, current: int, chunkEnd: int)
    requires current < end && chunkEnd == Min(current + CHUNK_SPAN, end)
    requires Chunks(start, end) == done + Chunks(current, end)
    ensures Chunks(start, end) == (done + [Window(current, chunkEnd)]) + Chunks(chunkEnd + STEP, end)
  {
    assert Chunks(current, end) == [Window(current, chunkEnd)] + Chunks(chunkEnd + STEP, end);
  }

  /** The chunk loop for one instrument: returns the requests it sent, in
      order, and `all_dfs`. */
  method FetchRange<P>(fetch: Request -> Response<P>, token: string, exchange: string,
                       start: int, end: int)
    returns (requests: seq<Request>, allDfs: seq<seq<Candle<P>>>)
    ensures requests == ChunkRequests(token, exchange, Chunks(start, end))
    ensures allDfs == Kept(fetch, requests)
  {
    var current := start;
    requests, allDfs := [], [];
    ghost var done: seq<Window> := [];
    while current < end
      invariant allDfs == Kept(fetch, requests)
      invariant requests == ChunkRequests(token, exchange, done)
      invariant Chunks(start, end) == done + Chunks(current, end)
      decreases end - current
    {
      var chunkEnd := Min(current + CHUNK_SPAN, end);
      var df := FetchChunk(fetch, token, exchange, current, chunkEnd);
      var request := ChunkRequest(token, exchange, current, chunkEnd);
      if df.Some? {
        allDfs := allDfs + [df.value];
      }
      assert allDfs == Kept(fetch, requests + [request]) by {
        KeptSnoc(fetch, requests, request);
      }
      assert requests + [request] == ChunkRequests(token, exchange, done + [Window(current, chunkEnd)]) by {
        ChunkRequestsSnoc(token, exchange, done, Window(current, chunkEnd));
      }
      assert Chunks(start, end) == (done + [Window(current, chunkEnd)]) + Chunks(chunkEnd + STEP, end) by {
        ChunksStep(start, end, done, current, chunkEnd);
      }
      requests := requests + [request];
      done := done + [Window(current, chunkEnd)];
      current := chunkEnd + STEP;
    }
  }
}
