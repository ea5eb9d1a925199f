/**
 * Candles, candle requests and the provider's replies, and `fetch_chunk`'s
 * reduction of a reply to "rows" or "nothing".
 */
module Candles {

  import opened Options

  /** One row of the frame: its timestamp (minutes) and the OHLCV values,
      which are only carried along. */
  datatype Candle<P> = Candle(ts: int, payload: P)

  /** The parameters of one `getCandleData` call. */
  datatype Request = Request(exchange: string, token: string, interval: string, from: int, to: int)

  /** What one `getCandleData` call can come to: a reply with a status flag
      and a `data` field (None when it is missing or null), or an exception
      raised anywhere in the `try` block. */
  datatype Response<P> = Reply(status: bool, data: Option<seq<Candle<P>>>) | Raised

  const INTERVAL: string := "FIVE_MINUTE"

  /** The request `fetch_chunk` sends for the window [fromTs, toTs]. */
  function ChunkRequest(token: string, exchange: string, fromTs: int, toTs: int): Request
  {
    Request(exchange, token, INTERVAL, fromTs, toTs)
  }

  /** `fetch_chunk`'s verdict on a reply: the rows when the status is true
      and the data is present and non-empty, and None in every other case. */
  function Classify<P>(resp: Response<P>): (r: Option<seq<Candle<P>>>)
    ensures r.Some? <==> resp.Reply? && resp.status && resp.data.Some? && resp.data.value != []
    ensures r.Some? ==> r.value == resp.data.value && |r.value| > 0
  {
    match resp
    case Raised => None
    case Reply(status, data) =>
      if !status then None
      else match data
        case None => None
        case Some(rows) => if |rows| == 0 then None else Some(rows)
  }

  /** `fetch_chunk(token, exchange, fromTs, toTs)` against the provider `fetch`. */
  function FetchChunk<P>(fetch: Request -> Response<P>, token: string, exchange: string,
                         fromTs: int, toTs: int): Option<seq<Candle<P>>>
  {
    Classify(fetch(ChunkRequest(token, exchange, fromTs, toTs)))
  }

  /** The rows a reply contributes when a failure counts as an empty chunk. */
  function RowsOrEmpty<P>(resp: Response<P>): seq<Candle<P>>
  {
    match Classify(resp)
    case Some(rows) => rows
    case None => []
  }
}
