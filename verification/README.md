# Paste storage bridge: content-type codec and load/save outcomes

This project models the storage bridge of the paste viewer `pikokr/paste`
(`src/util/storage.ts`). The bridge downloads a paste from the bytebin storage
service and uploads new pastes to it. The modelled core is:

- the content-type codec. A language id is declared as a MIME type on upload:
  `json` as `application/json`, any other id as `text/<id>`. A MIME type is
  classified back into a language id on download, against the registry of
  highlighting languages.
- what a download and an upload return, for every way the network exchange
  can end. Every exception is caught, so each ends in a failure value.
- the session flag `devtoolsNotificationShown`. It makes the developer-console
  notice print only once.

Modules:

- `Wrappers` (wrappers.dfy): `Option`, and `Completion`, which records whether a
  JavaScript step returned a value or threw.
- `Mime` (mime.dfy): the "parse a MIME type" algorithm of the WHATWG MIME
  Sniffing Standard, section 4.4, as the `whatwg-mimetype` package implements it,
  reduced to the type and subtype. Leading and trailing HTTP whitespace is
  trimmed. The type runs up to the first `/`, which must be present. The subtype
  runs from there to the first `;` and loses its trailing whitespace. Both must
  be non-empty HTTP tokens, and both are ASCII-lowercased. A failure is `None`;
  the package's constructor throws in that case.
- `Codec` (codec.dfy): `languageToContentType` and `contentTypeToLanguage`. The
  language registry `languageIds` is a parameter `set<string>`.
- `Transport` (transport.dfy): the results of `loadFromBytebin` and
  `saveToBytebin` as functions of the exchange's outcome; the upload request;
  and the class `Session`, which holds the notice flag and whose
  `LoadFromBytebin` method updates it.

An unparseable `Content-Type` does not leave the paste unclassified. The parse
at `src/util/storage.ts:96` throws inside the download's `try` (line 23), so the
download returns `{ ok: false }` (lines 62-63). A success response with no
`Content-Type` header fails the same way: `headers.get` gives `null`, the parser
receives the string `"null"`, and that string has no `/`
(`MissingContentTypeFailsLoad`).

The round trip (`RoundTrip`, `SaveThenLoad`) holds for every language id that is
a lowercase HTTP token and is `json` or registered. An id with a capital letter
comes back lowercased when its lowercase form is registered, and as no language
otherwise. `JSON` (capitalised) travels as `text/JSON`, so it needs `json` in the
registry. An id with a space, `/` or `;` in it does not survive as a MIME
subtype.

## Model

| member | source | states |
|---|---|---|
| `Codec.LanguageToContentType` | src/util/storage.ts:105-111 | `application/json` is declared for `json` and for no other id; any other id is declared as `text/` followed by the id verbatim, with no registry check |
| `Codec.Classify` | src/util/storage.ts:97-103 | `application/json` gives `json`; a parsed type gives a language exactly when it is `application/json` or it is `text/<s>` with `s` lowercased in the registry; for `text/<s>` the language is `s` lowercased, and it is always `json` or a registry member |
| `Codec.ContentTypeToLanguage` | src/util/storage.ts:95-103 | the classification throws exactly when the header is not a MIME type; otherwise it is the classification of the parsed type, and any language returned is lowercase and is `json` or in the registry |
| `Codec.JsonTypeIsJson` | src/util/storage.ts:96-98 | every header that parses to `application/json` (with parameters, capitals or surrounding whitespace) is classified as `json` whatever the registry holds |
| `Codec.ApplicationJsonIsJson` | src/util/storage.ts:97-98 | `application/json` is classified as `json` whatever the registry holds |
| `Codec.TextSubtypeClassification` | src/util/storage.ts:100-103 | `text/<s>` for a token `s` is classified as `s` lowercased when the registry has it, and as no language otherwise; this covers registered ids in capitals and unknown subtypes |
| `Codec.ClassificationIgnoresCase` | src/util/storage.ts:95-103 | lowercasing the header changes neither whether classification throws nor its result |
| `Codec.RoundTrip` | src/util/storage.ts:95-111 | for every lowercase token id that is `json` or registered, classifying the content type declared for it gives the id back; `json` goes through `application/json` |
| `Mime.Parse` | src/util/storage.ts:96 | `new MIMEType(contentType)`: failure is `None` (the constructor throws then); a success yields a type and a subtype that are lowercase HTTP tokens |
| `Mime.ParseTypeSubtype` | src/util/storage.ts:96 | `type/subtype` made of two tokens parses to those tokens, ASCII-lowercased |
| `Mime.ParseIgnoresCase` | src/util/storage.ts:96 | the MIME parse gives the same result for a header and its ASCII lowercase |
| `Transport.HeaderString` | src/util/storage.ts:27-28 | a present header reaches the parser verbatim; an absent one is `null`, which becomes the string `"null"` and never parses as a MIME type |
| `Transport.LoadOutcome` | src/util/storage.ts:22-65 | a download succeeds exactly when the fetch returns, the status is a success, the body is read and the header parses; it then carries the body and the header's classification, and otherwise it is a failure with no content or type |
| `Transport.MissingContentTypeFailsLoad` | src/util/storage.ts:27-29 | a response without a `Content-Type` header gives a failed download, because the parser is handed `"null"` |
| `Transport.LoadTextSubtype` | src/util/storage.ts:25-58 | a success response with body `b` and header `text/<s>` loads `b`, with `s` lowercased as the language if registered and no language otherwise |
| `Transport.LoadApplicationJson` | src/util/storage.ts:25-58 | a success response with header `application/json` loads its body as `json` |
| `Transport.SaveRequest` | src/util/storage.ts:71-83 | the upload is a POST to the submission address; its body is the compressed text; its `Content-Type` header is the language's declared content type, `Content-Encoding` is `gzip` and `Accept` is `application/json` |
| `Transport.SaveOutcome` | src/util/storage.ts:67-93 | an upload yields a key exactly when the request returns, the status is a success and the reply has a key, and then that key; otherwise nothing |
| `Transport.SaveThenLoad` | src/util/storage.ts:22-111 | a paste served back with the content type its upload declared downloads with the same text and the same language, for every lowercase token id that is `json` or registered |
| `Transport.NoticeFor` | src/util/storage.ts:41-55 | a download prints the notice exactly when it succeeds and the notice was not shown before; the JSON line is added exactly when the paste is `json` and its text parses as JSON |
| `Transport.ShownAfterIsMonotone` | src/util/storage.ts:41-55 | after a series of downloads the flag is set exactly when it was set before or some download succeeded; it is never cleared |
| `Transport.NoticeOnlyAtFirstSuccess` | src/util/storage.ts:20-55 | over a session the notice is printed at exactly one download: the first successful one, and only if the session had not shown it |
| `Transport.Session.constructor` | src/util/storage.ts:20 | a new session has not shown the notice |
| `Transport.Session.LoadFromBytebin` | src/util/storage.ts:22-65 | the download returns `LoadOutcome`, prints `NoticeFor` given the old flag, and leaves the flag set exactly when it was set or the download succeeded |

## Left out

- Network I/O and `async` plumbing: `fetch`, `resp.text()` and `resp.json()` are inputs. Each is a `Completion` that records whether the step returned or threw.
- The addresses `bytebinUrl` and `postUrl` come from `./constants`, which is not part of this model. The download address is not modelled, and the upload address is a parameter.
- gzip compression (`pako`) is a foreign library. It is a function parameter `gzip`.
- `JSON.parse` of the paste is a foreign call. It is the parameter `parsesAsJson`, and it only decides which notice is printed.
- Browser side effects are left out: `window.text`, `window.json`, `document.title`, and the text and colours of the console lines. The notices are modelled as `Notice` values.
- The MIME parser's parameters (after `;`) are not modelled. They never make the parse fail, and the bridge never reads them.
- `Transport.SaveOutcome`: a success reply without a `key` field returns `undefined`, not `null`. Both are `None` here. A `key` that is not a string is not modelled.
- `Transport.Session.LoadFromBytebin`: concurrent downloads that interleave at `await` are not modelled. Each download runs to completion on its own.
- The contents of the language registry (`./highlighting`) are not part of this model. The registry is a parameter.
