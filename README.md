# Video format lookup endpoint — verified model

The service has one endpoint, `POST /api/download-video`. It receives `{ "url": ... }`
and asks an external metadata extractor (yt-dlp) to describe the page. It then answers
with the page title and a normalised list of downloadable formats, or with a single
failure message. This project models that handler body as pure Dafny functions and
proves what the handler promises its callers:

- `wrappers.dfy` — `Option` (a property that may be absent) and `Result` (a value or a thrown error).
- `text.dfy` — JavaScript truthiness of a string property, ASCII `toLowerCase`, `includes`
  (with a proof that the left-to-right scan finds an occurrence exactly when one exists),
  and the decimal rendering of an integer in a template literal (with a proof that it reads back).
- `formats.dfy` — the raw format record and the format descriptor, the field-by-field map
  (`filesize` falling back to `filesize_approx`; `resolution` falling back to the rounded
  audio bitrate followed by `kbps`, then to `Audio`) and the filter on a truthy direct URL.
  The output is proved to be exactly the in-order subsequence of the mapped records whose URL is truthy.
- `errors.dfy` — the `catch` block's choice among four messages, by a priority-ordered,
  case-insensitive substring test on the extractor's diagnostic text.
- `handler.dfy` — the whole handler as a total function of the request and the extractor.
  The extractor is a parameter: an arbitrary function from the URL it is given to either a
  page description (title and optional raw formats) or a failure with optional diagnostic text.

Field names follow Dafny style: `formatId`, `filesizeApprox` and `formatNote` stand for the
JSON keys `format_id`, `filesize_approx` and `format_note`. Every property of a raw format
record may be absent (`None`); an absent copied property stays absent in the descriptor.

## Model

| member | source | states |
|---|---|---|
| Handler.Handle | index.js:14-51 | the handler: 400 exactly for a request without a truthy `url`; every status is 200, 400 or 500; a 200 carries a non-empty list of formats, each with a truthy URL (specified in full by the lemmas below) |
| Handler.Attempt | index.js:20-38 | the `try` block: success carries the extractor's title and a non-empty list of formats with truthy URLs; an error not raised by the extractor has no diagnostic text |
| Handler.Catch | index.js:42-50 | the `catch` block: status 500 with a body holding only one of the four fixed messages |
| Handler.MissingUrlRejected | index.js:15-18 | an absent or empty `url` gives status 400 with body `URL is required`, and the response is the same whatever the extractor would do (it is never consulted) |
| Handler.ExtractorSeesOnlyTheUrl | index.js:15-25 | with a truthy `url` the response depends only on what the extractor produces for that URL, and it is never a 400 |
| Handler.SuccessIff | index.js:27-40 | status 200 happens exactly when the URL is truthy, the extractor produced formats and one of them has a truthy direct URL; the body is then exactly the title and the normalised formats, non-empty, each with a truthy URL |
| Handler.NoFormatsIsFailure | index.js:36-50 | when no raw format has a truthy direct URL, or the description has no formats, the response is 500 with the generic "Could not fetch" message, never a 200 with an empty list |
| Handler.ExtractorFailureClassified | index.js:42-50 | an extractor failure is status 500 with the message classified from its diagnostic text |
| Handler.ResponseShapes | index.js:16-50 | every response is 200 with a video body, 400 with the missing-URL message, or 500 with a body holding only one of the four fixed failure messages |
| Handler.OneUsableFormat | index.js:27-40 | two raw formats, one with a URL and resolution `720p` and one without a URL, give a 200 with exactly one descriptor whose resolution is `720p` |
| Formats.NormalizeEach | index.js:27-33 | the map step keeps the length and the order: position i of the output is the normalised record i |
| Formats.Normalize | index.js:27-33 | the map callback's descriptor satisfies the field-by-field reference `DescribesRecord`: `formatId`, `ext`, `formatNote` and `url` copied unchanged; the exact size when truthy, else the approximate size; the raw resolution when truthy, else `<canonical integer>kbps` reading back as the rounded bitrate when the bitrate is truthy, else `Audio` |
| Formats.DescribesRecordUnique | index.js:27-33 | the reference pins the descriptor down: two descriptors that both describe a record are equal |
| Formats.Filesize | index.js:30 | a reported size is always one of the two raw sizes (specified in full by `FilesizeFallback`) |
| Formats.Resolution | index.js:31 | the reported resolution is never empty (specified in full by `ResolutionCases`) |
| Formats.FilesizeFallback | index.js:30 | the size is the exact size when truthy, otherwise the approximate size (so an exact size of 0 falls back); it is truthy exactly when one of the two raw sizes is |
| Formats.ResolutionCases | index.js:31 | the resolution is the raw resolution when truthy; otherwise, with a truthy bitrate, a canonical integer (no leading zero, no `-0`) followed by `kbps` that reads back as the rounded bitrate, which by `Text.CanonicalIntUnique` is exactly the rendering of the rounded bitrate; otherwise `Audio` |
| Formats.Round | index.js:31 | `Math.round` gives the integer n with n - 0.5 <= x < n + 0.5 |
| Formats.RoundUnique | index.js:31 | that integer is the only one with this property |
| Formats.BitrateLabel | index.js:31 | the bitrate label is a canonical integer numeral followed by `kbps` |
| Formats.BitrateLabelReadsBack | index.js:31 | the text before `kbps` parses back to the rounded bitrate |
| Formats.NormalizeAll | index.js:27-34 | the map-then-filter output is no longer than the input and every descriptor in it has a truthy URL (specified in full by `NormalizeAllSpec`) |
| Formats.KeepWithUrl | index.js:34 | the filter output is no longer than its input and holds only input descriptors with a truthy URL |
| Formats.KeepWithUrlIsSubsequence | index.js:34 | the filter output is the subsequence at strictly increasing positions, and a position is kept if and only if its URL is truthy |
| Formats.NormalizeAllSpec | index.js:27-34 | the pipeline output is the in-order list of normalised forms of exactly the raw records with a truthy URL; it is no longer than the input, and a record with a missing or empty URL contributes nothing |
| Formats.NormalizeAllEmptyIff | index.js:27-36 | the pipeline output is empty if and only if no raw record has a truthy URL |
| Errors.ErrorMessageCases | index.js:44-49 | no diagnostic text gives the generic message; otherwise a lower-cased mention of `private` gives the private message even beside `geo-restricted`; else a mention of `geo-restricted` gives the geo message; else the unsupported message; each message in exactly its case |
| Errors.ErrorMessage | index.js:44-49 | the failure message is always one of the four fixed texts, so no diagnostic text reaches the caller, and it is the generic text exactly when there is no diagnostic text (specified in full by `ErrorMessageCases`) |
| Errors.PrivateInAnyCase | index.js:46 | a diagnostic mentioning `Private` in any letter case gives the private message |
| Errors.GeoInAnyCase | index.js:47 | a diagnostic mentioning `geo-restricted` in any letter case, and nothing private, gives the geo message |
| Errors.CaseInsensitive | index.js:45-48 | two diagnostics equal after lower-casing get the same message |
| Text.ToLower | index.js:46-47 | lower-casing keeps the length and lower-cases each character |
| Text.Contains | index.js:46-47 | the substring search: the empty pattern is always found, a found pattern is no longer than the text (specified in full by `ContainsIff`) |
| Text.ContainsIff | index.js:46-47 | the `includes` scan answers true exactly when the pattern occurs at some position |
| Text.IntToDecimal | index.js:31 | the rendering of an integer is canonical: digits without a superfluous leading zero, after a minus sign (never `-0`) for a negative number |
| Text.IntDecimalRoundTrip | index.js:31 | the decimal rendering of an integer parses back to that integer |
| Text.CanonicalIntUnique | index.js:31 | a canonical numeral that parses back to n is the rendering of n, so canonical form and value fix the label text |
| Text.IntToDecimalInjective | index.js:31 | different integers get different renderings |

## Left out

- Express setup, JSON body parsing, CORS, the listening port and its default (index.js:6-12, 54-57): HTTP plumbing.
- The extractor process and its options (index.js:21-25): a call to an external tool. It is a parameter of the handler, an arbitrary function from the URL to its outcome.
- The `console.error` diagnostic (index.js:43): logging only; it does not change the response.
- `async`/`await`: the handler is one linear attempt with no concurrency.
- Formats.Round: `abr` is an exact real, not an IEEE double. `Math.round` is floor(x + 0.5) on reals. NaN, infinities and `-0` are not modelled.
- Formats.FilesizeFallback: an absent size is one value, `None`. JavaScript tells `undefined` (the key is dropped from the JSON) from `null`; the model does not.
- Handler.Handle: `url` is a string or absent. A non-string JSON value as `url` (a number, an object) is not modelled.
- Formats.Normalize: the raw string properties (`format_id`, `ext`, `resolution`, `format_note`, `url`) are strings or absent. Non-string values from the extractor are not modelled.
- Text.IntToDecimal: writes out every digit. JavaScript renders integers of magnitude 1e21 or more in exponent form (`1e+21`), so Formats.BitrateLabel differs from the source for bitrates that large.
- Text.ToLower: lower-cases ASCII `A`-`Z` only. The Unicode case mapping of `toLowerCase` is not modelled. It makes no difference for the ASCII patterns `private` and `geo-restricted`.
- The page `title` is always a string; an absent title (sent as a missing key) is not modelled.
