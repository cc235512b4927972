/**
 * The cache-or-fetch logic of class `TTS` (main.py lines 81-131) and the
 * batch endpoint's loop (lines 143-146).
 *
 * The pure functions Resolve, ResolveBase64 and ResolveBatch describe what
 * one call does to the world (the cache rows and the log of upstream
 * requests) and what it returns; the methods GetTts, GetTtsBase64 and
 * GetMultipleTts do it step by step on a CacheDb and an Upstream object and
 * are proved to agree with them. The lemmas state the properties of a call
 * and of a batch: hits, misses, failures and the write-once cache.
 */
module Tts {
  import opened Types
  import Base64
  import opened KeyNormalizer
  import opened SilenceTrimmer
  import opened CacheStore
  import opened UpstreamClient

  /** The synthesis voice sent with every request (`TTS.VOICE`). */
  const VOICE: string := "Microsoft Server Speech Text to Speech Voice (en-US, ZiraPro)"

  /** The only upstream status accepted as success. */
  const OK_STATUS: int := 200

  /** Why a request fails. */
  datatype TtsError =
    | UpstreamFailed(status: int)   // the HTTPException carrying the engine's status
    | UndecodableAudio              // the audio library cannot read the engine's body
    | CorruptEntry                  // a cached value that is not valid base64

  /** What the orchestrator reads and changes: the rows of the cache table
      and the requests sent upstream so far. */
  datatype World = World(rows: map<string, string>, calls: seq<Request>)

  /** One element of the batch endpoint's answer. */
  datatype BatchItem = BatchItem(text: string, base64: string)

  /** The request sent upstream for a text: the normalised text, not the
      text as given, because main.py line 88 rebinds `text` to its key. */
  function UpstreamRequest(engine: Engine, text: string): Request {
    Request(engine.url, Normalize(text), VOICE)
  }

  /** A hit answers with the cached row decoded (main.py line 93). */
  function Cached(row: string): Result<Bytes, TtsError> {
    var audio := Base64.Decode(row);
    if audio.Some? then Ok(audio.value) else Err(CorruptEntry)
  }

  /** A miss answers with the engine's body trimmed, or with the engine's
      status when it is not 200 (main.py lines 99-104). */
  function Fetched(response: Response, lib: AudioLib): Result<Bytes, TtsError> {
    if response.status != OK_STATUS then Err(UpstreamFailed(response.status))
    else
      var trimmed := RemoveSilence(lib, response.content);
      if trimmed.Some? then Ok(trimmed.value) else Err(UndecodableAudio)
  }

  /** One `TTS.get_tts(text, db)` (main.py lines 87-111): the world after it
      and its result. A hit changes nothing; a miss logs one request and, if
      it succeeds, adds the key's row. */
  function Resolve(w: World, engine: Engine, lib: AudioLib, text: string): (World, Result<Bytes, TtsError>) {
    var key := Normalize(text);
    if key in w.rows then (w, Cached(w.rows[key]))
    else
      var request := UpstreamRequest(engine, text);
      var r := Fetched(engine.answer(|w.calls|, request), lib);
      var rows := if r.Ok? then w.rows[key := Base64.Encode(r.value)] else w.rows;
      (World(rows, w.calls + [request]), r)
  }

  /** One `TTS.get_tts_base64(text, db)` (main.py lines 129-131). */
  function ResolveBase64(w: World, engine: Engine, lib: AudioLib, text: string): (World, Result<string, TtsError>) {
    var (w', r) := Resolve(w, engine, lib, text);
    (w', if r.Ok? then Ok(Base64.Encode(r.value)) else Err(r.error))
  }

  /** What the batch does for one text: the world after it and the text's
      base64 audio or the failure. */
  type ItemStep = (World, string) -> (World, Result<string, TtsError>)

  /** The batch endpoint's item step: `get_tts_base64` on the shared session. */
  function Base64Step(engine: Engine, lib: AudioLib): ItemStep {
    (w: World, text: string) => ResolveBase64(w, engine, lib, text)
  }

  /** The batch over the texts in order (main.py lines 143-146): the items so
      far, or the first failure, which ends the batch. */
  function ResolveBatch(w: World, step: ItemStep, texts: seq<string>): (res: (World, Result<seq<BatchItem>, TtsError>))
    ensures res.1.Ok? ==> |res.1.value| == |texts|
    decreases |texts|
  {
    if texts == [] then (w, Ok([]))
    else
      var (w', done) := ResolveBatch(w, step, texts[..|texts| - 1]);
      match done
      case Err(e) => (w', Err(e))
      case Ok(items) =>
        var last := texts[|texts| - 1];
        var (w'', r) := step(w', last);
        match r
        case Err(e) => (w'', Err(e))
        case Ok(b64) => (w'', Ok(items + [BatchItem(last, b64)]))
  }

  // ---------------------------------------------------------------------
  // The operations on the session and the HTTP client.

  /** `TTS.get_tts` on a database session and an HTTP client. */
  method GetTts(text: string, db: CacheDb, upstream: Upstream, lib: AudioLib) returns (r: Result<Bytes, TtsError>)
    modifies db, upstream
    ensures var (w', r') := Resolve(World(old(db.rows), old(upstream.calls)), upstream.engine, lib, text);
      db.rows == w'.rows && upstream.calls == w'.calls && r == r'
  {
    ghost var w := World(db.rows, upstream.calls);
    var key := Normalize(text);
    var cached := db.Get(key);
    if cached.Some? {
      var audio := Base64.Decode(cached.value);
      assert Resolve(w, upstream.engine, lib, text) == (w, Cached(cached.value));
      assert db.rows == w.rows;
      if audio.None? {
        return Err(CorruptEntry);
      }
      return Ok(audio.value);
    }
    var response := upstream.Get(key, VOICE);
    assert db.rows == w.rows;
    ghost var called := World(w.rows, upstream.calls);
    assert response == upstream.engine.answer(|w.calls|, UpstreamRequest(upstream.engine, text));
    assert Resolve(w, upstream.engine, lib, text) ==
      (World(if Fetched(response, lib).Ok? then w.rows[key := Base64.Encode(Fetched(response, lib).value)] else w.rows,
             called.calls),
       Fetched(response, lib));
    if response.status != OK_STATUS {
      return Err(UpstreamFailed(response.status));
    }
    var trimmed := RemoveSilence(lib, response.content);
    if trimmed.None? {
      return Err(UndecodableAudio);
    }
    var _ := db.Add(key, Base64.Encode(trimmed.value));
    assert db.rows == w.rows[key := Base64.Encode(trimmed.value)];
    return Ok(trimmed.value);
  }

  /** `TTS.get_tts_base64`: the audio of GetTts as base64 text. */
  method GetTtsBase64(text: string, db: CacheDb, upstream: Upstream, lib: AudioLib) returns (r: Result<string, TtsError>)
    modifies db, upstream
    ensures var (w', r') := ResolveBase64(World(old(db.rows), old(upstream.calls)), upstream.engine, lib, text);
      db.rows == w'.rows && upstream.calls == w'.calls && r == r'
  {
    var audio := GetTts(text, db, upstream, lib);
    match audio
    case Ok(a) => r := Ok(Base64.Encode(a));
    case Err(e) => r := Err(e);
  }

  /** The `get_multiple_tts` handler's loop: each text in order, over the
      same session; the first failure ends the request. */
  method GetMultipleTts(texts: seq<string>, db: CacheDb, upstream: Upstream, lib: AudioLib)
    returns (r: Result<seq<BatchItem>, TtsError>)
    modifies db, upstream
    ensures var (w', r') := ResolveBatch(World(old(db.rows), old(upstream.calls)), Base64Step(upstream.engine, lib), texts);
      db.rows == w'.rows && upstream.calls == w'.calls && r == r'
  {
    ghost var start := World(db.rows, upstream.calls);
    ghost var step := Base64Step(upstream.engine, lib);
    var items: seq<BatchItem> := [];
    var i := 0;
    while i < |texts|
      invariant 0 <= i <= |texts|
      invariant var (w', r') := ResolveBatch(start, step, texts[..i]);
        db.rows == w'.rows && upstream.calls == w'.calls && r' == Ok(items)
    {
      var b64 := GetTtsBase64(texts[i], db, upstream, lib);
      assert texts[..i + 1][..i] == texts[..i];
      if b64.Err? {
        BatchStopsAtFailure(start, step, texts, i + 1);
        return Err(b64.error);
      }
      items := items + [BatchItem(texts[i], b64.value)];
      i := i + 1;
    }
    assert texts[..i] == texts;
    r := Ok(items);
  }

  // ---------------------------------------------------------------------
  // Properties of one call.

  /** A hit: the key is cached. No request goes upstream, the rows are left
      as they were and the result is the decoded cached value. */
  lemma HitServesCache(w: World, engine: Engine, lib: AudioLib, text: string)
    requires Normalize(text) in w.rows
    ensures Resolve(w, engine, lib, text).0 == w
    ensures Resolve(w, engine, lib, text).1 ==
      match Base64.Decode(w.rows[Normalize(text)])
      case Some(audio) => Ok(audio)
      case None => Err(CorruptEntry)
  {
  }

  /** A miss sends exactly one request, for the normalised text with the
      fixed voice; a hit sends none. */
  lemma AtMostOneCall(w: World, engine: Engine, lib: AudioLib, text: string)
    ensures var w' := Resolve(w, engine, lib, text).0;
      if Normalize(text) in w.rows then w'.calls == w.calls
      else w'.calls == w.calls + [Request(engine.url, Normalize(text), VOICE)]
  {
  }

  /** An upstream status other than 200 fails with exactly that status and
      writes nothing; a 200 never fails with an upstream status. */
  lemma UpstreamFailureWritesNothing(w: World, engine: Engine, lib: AudioLib, text: string)
    requires Normalize(text) !in w.rows
    ensures var status := engine.answer(|w.calls|, UpstreamRequest(engine, text)).status;
      var (w', r) := Resolve(w, engine, lib, text);
      (status != OK_STATUS <==> r == Err(UpstreamFailed(status))) &&
      (status != OK_STATUS ==> w'.rows == w.rows)
  {
  }

  /** No failure of any kind changes the rows. */
  lemma FailureWritesNothing(w: World, engine: Engine, lib: AudioLib, text: string)
    ensures Resolve(w, engine, lib, text).1.Err? ==> Resolve(w, engine, lib, text).0.rows == w.rows
  {
  }

  /** A miss answered with status 200 and a body the audio library can
      decode succeeds: it returns the trimmed body, stores the key mapped to
      its base64, leaves every other row alone, and logs the one request. */
  lemma MissStoresTrimmedAudio(w: World, engine: Engine, lib: AudioLib, text: string)
    requires Normalize(text) !in w.rows
    requires var response := engine.answer(|w.calls|, UpstreamRequest(engine, text));
      response.status == OK_STATUS && RemoveSilence(lib, response.content).Some?
    ensures var response := engine.answer(|w.calls|, UpstreamRequest(engine, text));
      var audio := RemoveSilence(lib, response.content).value;
      var (w', r) := Resolve(w, engine, lib, text);
      r == Ok(audio) &&
      w'.rows == w.rows[Normalize(text) := Base64.Encode(audio)] &&
      |w'.rows| == |w.rows| + 1 &&
      w'.calls == w.calls + [UpstreamRequest(engine, text)]
  {
  }

  /** Conversely, a successful miss adds exactly one row, the key mapped to the base64 of
      the trimmed audio, leaves every other row as it was, and returns the
      trimmed audio. */
  lemma MissAddsOneRow(w: World, engine: Engine, lib: AudioLib, text: string)
    requires Normalize(text) !in w.rows
    requires Resolve(w, engine, lib, text).1.Ok?
    ensures var (w', r) := Resolve(w, engine, lib, text);
      var response := engine.answer(|w.calls|, UpstreamRequest(engine, text));
      response.status == OK_STATUS &&
      RemoveSilence(lib, response.content) == Some(r.value) &&
      w'.rows == w.rows[Normalize(text) := Base64.Encode(r.value)] &&
      |w'.rows| == |w.rows| + 1
  {
  }

  /** The rows only grow: no existing row is changed or removed, and the only
      possible new row is the text's key. */
  predicate Extends(before: map<string, string>, after: map<string, string>) {
    forall k :: k in before ==> k in after && after[k] == before[k]
  }

  lemma ResolveWriteOnce(w: World, engine: Engine, lib: AudioLib, text: string)
    ensures var w' := Resolve(w, engine, lib, text).0;
      Extends(w.rows, w'.rows) && w'.rows.Keys <= w.rows.Keys + {Normalize(text)} &&
      |w.calls| <= |w'.calls| && w'.calls[..|w.calls|] == w.calls
  {
    var key := Normalize(text);
    var w' := Resolve(w, engine, lib, text).0;
    if key !in w.rows {
      var request := UpstreamRequest(engine, text);
      assert w'.calls == w.calls + [request];
      assert w'.rows == w.rows || w'.rows == w.rows[key := w'.rows[key]];
    }
  }

  /** After a successful call the text's key is cached, and its row decodes
      to the audio that call returned. */
  lemma SuccessCaches(w: World, engine: Engine, lib: AudioLib, text: string)
    requires Resolve(w, engine, lib, text).1.Ok?
    ensures var (w', r) := Resolve(w, engine, lib, text);
      Normalize(text) in w'.rows && Base64.Decode(w'.rows[Normalize(text)]) == Some(r.value)
  {
    var key := Normalize(text);
    if key !in w.rows {
      Base64.RoundTrip(Resolve(w, engine, lib, text).1.value);
    }
  }

  /** A cached key decoding to `audio` answers every text with that key with
      `audio`, without touching the world. */
  lemma CachedKeyServes(w: World, engine: Engine, lib: AudioLib, text: string, audio: Bytes)
    requires Normalize(text) in w.rows && Base64.Decode(w.rows[Normalize(text)]) == Some(audio)
    ensures Resolve(w, engine, lib, text) == (w, Ok(audio))
  {
  }

  /** Once a text has been served, a second call with any text that has the
      same key (a case or whitespace variant) sends nothing upstream, changes
      nothing and returns byte-identical audio. */
  lemma RepeatIsHit(w: World, engine: Engine, lib: AudioLib, text: string, again: string)
    requires Resolve(w, engine, lib, text).1.Ok?
    requires Normalize(again) == Normalize(text)
    ensures var (w', r) := Resolve(w, engine, lib, text);
      Resolve(w', engine, lib, again) == (w', r)
  {
    SuccessCaches(w, engine, lib, text);
  }

  /** The same for a text spelled with other letter case and extra whitespace
      at either end. */
  lemma VariantIsHit(w: World, engine: Engine, lib: AudioLib, text: string,
                     variant: string, pre: string, post: string)
    requires Resolve(w, engine, lib, text).1.Ok?
    requires AllSpace(pre) && AllSpace(post) && SameUpToCase(text, variant)
    ensures var (w', r) := Resolve(w, engine, lib, text);
      Resolve(w', engine, lib, pre + variant + post) == (w', r)
  {
    NormalizeVariants(text, variant, pre, post);
    RepeatIsHit(w, engine, lib, text, pre + variant + post);
  }

  // ---------------------------------------------------------------------
  // Properties of the batch.

  /** Once an item has failed, the batch result and world stay as they were
      at that failure: later texts are never resolved. */
  lemma {:induction false} BatchStopsAtFailure(w: World, step: ItemStep, texts: seq<string>, k: nat)
    requires k <= |texts|
    requires ResolveBatch(w, step, texts[..k]).1.Err?
    ensures ResolveBatch(w, step, texts) == ResolveBatch(w, step, texts[..k])
    decreases |texts| - k
  {
    if k < |texts| {
      var next := texts[..k + 1];
      assert next[..|next| - 1] == texts[..k];
      BatchStopsAtFailure(w, step, texts, k + 1);
    } else {
      assert texts[..k] == texts;
    }
  }

  /** Item k is where the batch failed: every earlier item succeeded, item k
      failed, and the batch's error and final world are item k's. */
  ghost predicate FailedAt(w: World, step: ItemStep, texts: seq<string>, k: nat)
    requires k < |texts|
  {
    var before := ResolveBatch(w, step, texts[..k]);
    var (after, r) := step(before.0, texts[k]);
    before.1.Ok? && r.Err? && ResolveBatch(w, step, texts) == (after, Err(r.error))
  }

  /** A failed batch failed at one item, the first that failed. */
  lemma {:induction false} BatchFailsAtFirstFailure(w: World, step: ItemStep, texts: seq<string>)
    requires ResolveBatch(w, step, texts).1.Err?
    ensures exists k :: 0 <= k < |texts| && FailedAt(w, step, texts, k)
    decreases |texts|
  {
    var init := texts[..|texts| - 1];
    if ResolveBatch(w, step, init).1.Err? {
      BatchFailsAtFirstFailure(w, step, init);
      var k :| 0 <= k < |init| && FailedAt(w, step, init, k);
      assert init[..k] == texts[..k] && init[k] == texts[k];
      assert ResolveBatch(w, step, texts) == ResolveBatch(w, step, init);
      assert FailedAt(w, step, texts, k);
    } else {
      var n := |texts| - 1;
      var (after, r) := step(ResolveBatch(w, step, init).0, texts[n]);
      assert r.Err?;
      assert ResolveBatch(w, step, texts) == (after, Err(r.error));
      assert FailedAt(w, step, texts, n);
    }
  }

  /** A successful batch answers every text, in order, with the text as given. */
  lemma {:induction false} BatchShape(w: World, step: ItemStep, texts: seq<string>)
    requires ResolveBatch(w, step, texts).1.Ok?
    ensures var items := ResolveBatch(w, step, texts).1.value;
      |items| == |texts| && forall i :: 0 <= i < |texts| ==> items[i].text == texts[i]
    decreases |texts|
  {
    if texts != [] {
      BatchShape(w, step, texts[..|texts| - 1]);
    }
  }

  /** The prefixes of a successful batch succeed, with the first items. */
  lemma {:induction false} BatchPrefix(w: World, step: ItemStep, texts: seq<string>, k: nat)
    requires k <= |texts|
    requires ResolveBatch(w, step, texts).1.Ok?
    ensures ResolveBatch(w, step, texts[..k]).1.Ok?
    ensures var items := ResolveBatch(w, step, texts).1.value;
      |items| == |texts| && ResolveBatch(w, step, texts[..k]).1.value == items[..k]
    decreases |texts|
  {
    BatchShape(w, step, texts);
    if k == |texts| {
      assert texts[..k] == texts;
    } else {
      var init := texts[..|texts| - 1];
      BatchPrefix(w, step, init, k);
      assert init[..k] == texts[..k];
      BatchShape(w, step, init);
    }
  }

  /** Item i of a successful batch is the item step run on text i against the
      world as the earlier items left it, so an earlier item's write is
      visible to a later one. */
  lemma BatchItemSeesEarlierItems(w: World, step: ItemStep, texts: seq<string>, i: nat)
    requires i < |texts|
    requires ResolveBatch(w, step, texts).1.Ok?
    ensures var before := ResolveBatch(w, step, texts[..i]).0;
      var r := step(before, texts[i]).1;
      var items := ResolveBatch(w, step, texts).1.value;
      r.Ok? && |items| == |texts| && items[i] == BatchItem(texts[i], r.value)
  {
    BatchPrefix(w, step, texts, i + 1);
    var upto := texts[..i + 1];
    assert upto[..i] == texts[..i];
    BatchShape(w, step, upto);
  }

  /** A step that never changes an existing row. */
  ghost predicate WriteOnceStep(step: ItemStep) {
    forall w: World, text: string :: Extends(w.rows, step(w, text).0.rows)
  }

  lemma Base64StepWriteOnce(engine: Engine, lib: AudioLib)
    ensures WriteOnceStep(Base64Step(engine, lib))
  {
    forall w: World, text: string ensures Extends(w.rows, Base64Step(engine, lib)(w, text).0.rows) {
      ResolveWriteOnce(w, engine, lib, text);
    }
  }

  /** With a write-once step, the world after a longer prefix of the batch
      keeps every row of the world after a shorter one. */
  lemma {:induction false} BatchWriteOnce(w: World, step: ItemStep, texts: seq<string>, k: nat)
    requires WriteOnceStep(step)
    requires k <= |texts|
    ensures Extends(ResolveBatch(w, step, texts[..k]).0.rows, ResolveBatch(w, step, texts).0.rows)
    decreases |texts|
  {
    if k == |texts| {
      assert texts[..k] == texts;
    } else {
      var init := texts[..|texts| - 1];
      BatchWriteOnce(w, step, init, k);
      assert init[..k] == texts[..k];
      var mid := ResolveBatch(w, step, init).0;
      assert Extends(mid.rows, step(mid, texts[|texts| - 1]).0.rows);
    }
  }

  /** The batch step on a text is the base64 of Resolve's audio. */
  lemma Base64StepResult(w: World, engine: Engine, lib: AudioLib, text: string)
    ensures var (w', r) := Resolve(w, engine, lib, text);
      var (w'', b) := Base64Step(engine, lib)(w, text);
      w'' == w' && b.Ok? == r.Ok? && (r.Ok? ==> b.value == Base64.Encode(r.value))
  {
  }

  /** Item i of a successful batch endpoint call is the base64 of the audio
      Resolve gives for text i in the world the earlier items left. */
  lemma BatchItemAudio(w: World, engine: Engine, lib: AudioLib, texts: seq<string>, i: nat)
    requires i < |texts|
    requires ResolveBatch(w, Base64Step(engine, lib), texts).1.Ok?
    ensures var step := Base64Step(engine, lib);
      var items := ResolveBatch(w, step, texts).1.value;
      var (after, r) := Resolve(ResolveBatch(w, step, texts[..i]).0, engine, lib, texts[i]);
      r.Ok? && |items| == |texts| && items[i].base64 == Base64.Encode(r.value) &&
      ResolveBatch(w, step, texts[..i + 1]).0 == after
  {
    var step := Base64Step(engine, lib);
    var before := ResolveBatch(w, step, texts[..i]).0;
    BatchItemSeesEarlierItems(w, step, texts, i);
    Base64StepResult(before, engine, lib, texts[i]);
    BatchItemAfter(w, step, texts, i);
  }

  /** After item i of a successful batch, its key stays cached for every
      later item, with a row that decodes to item i's audio. */
  lemma BatchKeepsItemCached(w: World, engine: Engine, lib: AudioLib, texts: seq<string>, i: nat, j: nat)
    requires i < j <= |texts|
    requires ResolveBatch(w, Base64Step(engine, lib), texts).1.Ok?
    ensures var step := Base64Step(engine, lib);
      var r := Resolve(ResolveBatch(w, step, texts[..i]).0, engine, lib, texts[i]).1;
      var wj := ResolveBatch(w, step, texts[..j]).0;
      r.Ok? && Normalize(texts[i]) in wj.rows && Base64.Decode(wj.rows[Normalize(texts[i])]) == Some(r.value)
  {
    var step := Base64Step(engine, lib);
    var before := ResolveBatch(w, step, texts[..i]).0;
    BatchItemAudio(w, engine, lib, texts, i);
    SuccessCaches(before, engine, lib, texts[i]);
    Base64StepWriteOnce(engine, lib);
    BatchWriteOnce(w, step, texts[..j], i + 1);
    assert texts[..j][..i + 1] == texts[..i + 1];
  }

  /** Two texts of a successful batch with the same key get the same base64
      audio: the later one is served from the row the earlier one left. */
  lemma BatchDuplicatesAgree(w: World, engine: Engine, lib: AudioLib, texts: seq<string>, i: nat, j: nat)
    requires i < j < |texts|
    requires Normalize(texts[i]) == Normalize(texts[j])
    requires ResolveBatch(w, Base64Step(engine, lib), texts).1.Ok?
    ensures var items := ResolveBatch(w, Base64Step(engine, lib), texts).1.value;
      |items| == |texts| && items[j].base64 == items[i].base64
  {
    var step := Base64Step(engine, lib);
    BatchItemAudio(w, engine, lib, texts, i);
    BatchKeepsItemCached(w, engine, lib, texts, i, j);
    var audio := Resolve(ResolveBatch(w, step, texts[..i]).0, engine, lib, texts[i]).1.value;
    var wj := ResolveBatch(w, step, texts[..j]).0;
    CachedKeyServes(wj, engine, lib, texts[j], audio);
    Base64StepResult(wj, engine, lib, texts[j]);
    BatchItemSeesEarlierItems(w, step, texts, j);
  }

  /** The world after the first i + 1 items is the item step's world after item i. */
  lemma BatchItemAfter(w: World, step: ItemStep, texts: seq<string>, i: nat)
    requires i < |texts|
    requires ResolveBatch(w, step, texts).1.Ok?
    ensures ResolveBatch(w, step, texts[..i + 1]).0 == step(ResolveBatch(w, step, texts[..i]).0, texts[i]).0
  {
    BatchPrefix(w, step, texts, i + 1);
    var upto := texts[..i + 1];
    assert upto[..i] == texts[..i];
  }
}
