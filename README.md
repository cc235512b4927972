# Text-to-speech cache gateway: a Dafny model of its cache-or-fetch core

The service answers a text with synthesized, silence-trimmed WAV audio. It
asks a remote synthesis engine for that audio only once per cache key and
keeps the result in a `cache` table. This project models the core of class
`TTS` in `main.py`:

- the cache key of a text (`text.lower().strip()`);
- the `cache` table, as a `map<string, string>` field of a session object,
  holding base64 text;
- base64 encoding and decoding as in section 4 of RFC 4648, with the round
  trip that makes a cache hit return the bytes that were stored;
- the silence-trimming rule of `remove_silence`;
- `get_tts`, `get_tts_base64` and the loop of the batch endpoint
  `get_multiple_tts`.

Files:

- `types.dfy` holds bytes, `Option` and `Result`.
- `base64.dfy` holds the codec.
- `normalize.dfy` holds the cache key.
- `silence.dfy` holds the trimming rule. The WAV decoder, the non-silence
  detector and the WAV exporter are an `AudioLib` value of three function
  parameters.
- `store.dfy` holds class `CacheDb`, one database session over the table.
- `upstream.dfy` holds class `Upstream`, the HTTP client. The engine is an
  oracle, `answer(n, request)`, for the n-th request. The client logs every
  request it sends.
- `tts.dfy` holds the orchestration. The pure functions `Resolve`,
  `ResolveBase64` and `ResolveBatch` say what a call does to the `World`
  (table rows plus request log) and what it returns. The methods `GetTts`,
  `GetTtsBase64` and `GetMultipleTts` do the work step by step on a `CacheDb`
  and an `Upstream`, and their postconditions state that they agree with
  those functions. Lemmas state the properties of the functions.

`ResolveBatch` is written over any per-item step, so the batch lemmas hold
for any per-item step. `Base64Step` is the step the endpoint uses.

Behaviour of the code that the model keeps as written:

- The engine is asked for the **normalised** text, not the text as given,
  because main.py line 88 rebinds `text` before the request at lines 96-98.
- The kept span is the half-open `[first.start, last.end)`, because that is
  how `audio[start:end]` slices.
- A row is never overwritten. A second insert of the same primary key is
  refused, and `get_tts` inserts only after a miss, so a cached key keeps the
  first value stored for it.
- A failed store write is not modelled. In the code, a failing commit raises
  to the caller and is not swallowed.
- When a batch fails part-way, the rows written by earlier items stay
  committed. Each `get_tts` commits on its own. Only the HTTP answer is lost.

## Model

| member | source | states |
|---|---|---|
| KeyNormalizer.Lower | main.py:88 | `str.lower()` keeps the length, maps the k-th letter `A`-`Z` to the k-th letter `a`-`z`, leaves every other character as it was (so no upper-case letter remains), and keeps each character's whitespace-ness |
| KeyNormalizer.StripLeft | main.py:88 | the result is a suffix of the text, everything removed is whitespace, and the result does not start with whitespace |
| KeyNormalizer.StripRight | main.py:88 | the result is a prefix of the text, everything removed is whitespace, and the result does not end with whitespace |
| KeyNormalizer.Strip | main.py:88 | the stripped text neither starts nor ends with whitespace (what it is, is stated by `StripRemovesSurroundingSpace`) |
| KeyNormalizer.StripRemovesSurroundingSpace | main.py:88 | `str.strip()` gives a slice of the text whose removed prefix and suffix are all whitespace; with `Strip`'s ensures this fixes the result |
| KeyNormalizer.Normalize | main.py:88 | the cache key has no leading or trailing whitespace and no upper-case letter (which key it is, is stated by `NormalizeIsLowerStripped` and `NormalizeTrimmedCore`) |
| KeyNormalizer.NormalizeIsLowerStripped | main.py:88 | the key is a slice of the lower-cased text whose removed prefix and suffix are all whitespace |
| KeyNormalizer.NormalizeTrimmedCore | main.py:88 | a trimmed, lower-case core with any whitespace around it has exactly that core as its key |
| KeyNormalizer.NormalizeIdempotent | main.py:88 | normalising a key again gives the same key |
| KeyNormalizer.NormalizeIgnoresSurroundingSpace | main.py:88 | whitespace added at either end of a text does not change its key |
| KeyNormalizer.NormalizeIgnoresCase | main.py:88 | texts that differ only in letter case (at each position the same character, or one letter in upper case on one side and lower case on the other) have the same key |
| KeyNormalizer.NormalizeVariants | main.py:88 | a variant in letter case and surrounding whitespace has the same key as the original |
| KeyNormalizer.LowerChar | main.py:88 | one lower-cased character: the k-th letter `A`-`Z` becomes the k-th letter `a`-`z`, any other character is unchanged, the result is never upper case, and whitespace-ness is kept |
| Base64.ValueOf | main.py:93 | a decoded character value maps back to that character through the alphabet |
| Base64.Decode | main.py:93 | `b64decode` gives at most three octets per four characters; `RoundTrip` and `DecodeLength` state its other properties |
| Base64.Encode | main.py:107 | the encoding's length is a multiple of four, and it is empty exactly when the audio is |
| Base64.DecodeLength | main.py:93 | only a text whose length is a multiple of four decodes |
| Base64.RoundTrip | main.py:93 | decoding the stored encoding of any audio gives that audio back |
| Base64.EncodeAlphabet | main.py:107 | every character of an encoding is in the standard alphabet or is `=`, so it decodes as UTF-8 |
| Base64.EncodeLength | main.py:107 | the encoding has 4·⌈n/3⌉ characters for n octets |
| Base64.EncodeInjective | main.py:107 | different audio never has the same encoding |
| SilenceTrimmer.Slice | main.py:122 | `audio[start:end]` never grows, and for in-range bounds has exactly the frames start..end |
| SilenceTrimmer.KeptSpan | main.py:120-121 | a span is kept exactly when there is a non-silent interval |
| SilenceTrimmer.Ascending | main.py:116-121 | a later detected interval starts and ends no earlier than an earlier one |
| SilenceTrimmer.SpanCoversIntervals | main.py:120-122 | the kept span lies inside the audio and contains every non-silent interval |
| SilenceTrimmer.RemoveSilence | main.py:114-126 | trimming fails exactly when the audio cannot be decoded as WAV |
| SilenceTrimmer.AllSilenceUnchanged | main.py:120-126 | with no non-silent interval, the input bytes come back unchanged |
| SilenceTrimmer.TrimSelectsSpan | main.py:120-125 | for any non-empty interval list, in any order, the result is the WAV export of the slice from the first interval's start to the last interval's end |
| SilenceTrimmer.TrimKeepsNonsilentSpan | main.py:120-125 | with non-silent intervals, the WAV export holds exactly the frames from the first start to the last end, and every non-silent frame is kept in place |
| CacheStore.CacheDb.Get | main.py:91 | the lookup finds a value exactly when a row has the key, and then returns that row's value |
| CacheStore.CacheDb.Add | main.py:107-109 | an insert succeeds exactly when the key is new; it then adds that one row, and otherwise changes nothing |
| UpstreamClient.Upstream.Get | main.py:96-98 | one request to the configured URL is logged, and the engine's answer to it is returned |
| Tts.Resolve | main.py:87-111 | the specification of one `get_tts`: the world after it and its result; it has no contract of its own, and the lemmas from `HitServesCache` to `VariantIsHit` state its properties |
| Tts.ResolveBase64 | main.py:129-131 | the specification of one `get_tts_base64`; it has no contract of its own, and `Base64StepResult` states its property |
| Tts.ResolveBatch | main.py:143-146 | a successful batch has one item per text |
| Tts.GetTts | main.py:87-111 | the method's result and its effect on the table and request log are those of `Resolve` |
| Tts.GetTtsBase64 | main.py:129-131 | the method's result and effect are those of `ResolveBase64` |
| Tts.GetMultipleTts | main.py:143-146 | the loop's result and effect are those of `ResolveBatch` with the endpoint's item step |
| Tts.HitServesCache | main.py:91-93 | on a hit, no request is sent, the table is unchanged, and the result is the decoded row (or an error if the row is not base64) |
| Tts.AtMostOneCall | main.py:88-98 | a hit sends no request; a miss sends exactly one, with the normalised text and the fixed voice |
| Tts.UpstreamFailureWritesNothing | main.py:99-102 | on a miss, the call fails with exactly the engine's status iff that status is not 200, and then no row is written |
| Tts.FailureWritesNothing | main.py:99-109 | no failing call changes the table |
| Tts.MissStoresTrimmedAudio | main.py:96-111 | a miss answered with status 200 and a body the audio library decodes returns the trimmed body, adds exactly the key ↦ base64 of it, and logs the one request |
| Tts.MissAddsOneRow | main.py:99-111 | conversely, a successful miss had status 200 and a decodable body, returns the trimmed audio, and adds exactly the key ↦ base64 of that audio, leaving every other row alone |
| Tts.ResolveWriteOnce | main.py:106-109 | a call never changes or removes a row, adds at most the text's key, and only appends to the request log |
| Tts.SuccessCaches | main.py:106-111 | after a successful call, the key is cached and its row decodes to the returned audio |
| Tts.CachedKeyServes | main.py:91-93 | a cached key whose row decodes to some audio answers with that audio and changes nothing |
| Tts.RepeatIsHit | main.py:88-93 | after a success, a call with any text of the same key returns the same audio and sends no request |
| Tts.VariantIsHit | main.py:88-93 | the same holds for a variant in letter case and surrounding whitespace |
| Tts.BatchStopsAtFailure | main.py:143-146 | once an item fails, later items are never resolved: the batch result and world are those at the failure |
| Tts.BatchFailsAtFirstFailure | main.py:143-146 | a failed batch failed at one item: all earlier items succeeded, and the batch's error and world are that item's |
| Tts.BatchShape | main.py:143-146 | a successful batch has one item per text, in input order, each carrying the text as given |
| Tts.BatchPrefix | main.py:143-146 | every prefix of a successful batch succeeds, with the first items |
| Tts.BatchItemSeesEarlierItems | main.py:143-146 | item i is the item step on text i against the world the earlier items left |
| Tts.Base64StepResult | main.py:129-131 | `get_tts_base64` has `get_tts`'s effect and returns the base64 of its audio |
| Tts.Base64StepWriteOnce | main.py:129-131 | the endpoint's item step never changes an existing row |
| Tts.BatchWriteOnce | main.py:143-146 | later items never change a row an earlier item left |
| Tts.BatchItemAudio | main.py:143-146 | a batch item's base64 is the encoding of the audio `get_tts` returns for it in sequence |
| Tts.BatchKeepsItemCached | main.py:143-146 | after an item succeeds, its key stays cached for all later items with a row that decodes to its audio |
| Tts.BatchDuplicatesAgree | main.py:143-146 | two texts of one batch with the same key get the same base64 audio |

## Left out

- HTTP routing, request models, the `Cache-Control` headers and CORS (main.py lines 20-36, 73-78, 134-155) are transport plumbing and are not modelled.
- The SQLAlchemy engine, sessions, schema creation and the startup directory creation (main.py lines 39-70) are replaced by the in-memory rows of `CacheDb`. Store unavailability and failing commits are not modelled.
- Network errors of the HTTP client (timeouts, refused connections) and environment loading are not modelled. The engine is an oracle that always answers with a status and a body.
- WAV decoding and export and the loudness analysis of `detect_nonsilent` (decibels, milliseconds, floating point) are a foreign library. They are the uninterpreted functions of `AudioLib`. The model calls the detector with the source's constants 500 and -40 but does not give them meaning.
- `SilenceTrimmer.Slice` models pydub's clamped millisecond slicing on a sequence of per-millisecond frames. Frame-rate rounding and silence padding inside the library are not modelled.
- Async scheduling, and the race in which two concurrent misses for one key both call the engine and insert the same key, are not modelled. The model is sequential.
- The uvicorn entry point (main.py lines 158-161) is not modelled.
- `KeyNormalizer.Lower`: only maps ASCII `A`-`Z` to lower case. Python's `str.lower()` also lower-cases other Unicode letters, and a few of them change the length.
- `Base64.Decode`: strict. It rejects any character outside the alphabet. Python's default `b64decode` first discards such characters. The two agree on every text `Base64.Encode` produces, which covers every row this code writes.
- `KeyNormalizer.Strip` and `KeyNormalizer.Normalize`: their own postconditions give only the shape of the result (trimmed, no upper-case letter). Which text the result is, is stated by the lemmas `StripRemovesSurroundingSpace`, `NormalizeIsLowerStripped` and `NormalizeTrimmedCore`, so that every caller of `Normalize` is not burdened with an existential.
