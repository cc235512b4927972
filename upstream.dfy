/**
 * The HTTP client that talks to the remote synthesis engine
 * (`TTS.session.get(TTS.URL, params=...)`, main.py lines 96-98). The engine
 * is an oracle: its answer to the n-th request is `answer(n, request)`, an
 * arbitrary function, so two requests with the same text may be answered
 * differently. The client keeps the log of requests it has sent.
 */
module UpstreamClient {
  import opened Types

  /** A GET request to `url` with query parameters `text` and `voiceName`. */
  datatype Request = Request(url: string, text: string, voiceName: string)

  /** The status code and body of a response. */
  datatype Response = Response(status: int, content: Bytes)

  /** The endpoint's base URL and how the engine answers. */
  datatype Engine = Engine(url: string, answer: (nat, Request) -> Response)

  class Upstream {
    const engine: Engine

    /** Every request sent so far, in order. */
    var calls: seq<Request>

    constructor (engine: Engine)
      ensures this.engine == engine && calls == []
    {
      this.engine := engine;
      calls := [];
    }

    /** Sends one request to the configured URL and returns the engine's answer. */
    method Get(text: string, voiceName: string) returns (response: Response)
      modifies this
      ensures calls == old(calls) + [Request(engine.url, text, voiceName)]
      ensures response == engine.answer(|old(calls)|, Request(engine.url, text, voiceName))
    {
      var request := Request(engine.url, text, voiceName);
      response := engine.answer(|calls|, request);
      calls := calls + [request];
    }
  }
}
