/**
 * The transport side of the storage bridge: what a download from bytebin and an
 * upload to it return, given how the network exchange ended. The exchange itself
 * (fetch, reading the body, decoding the JSON reply) is an input: each step that
 * can throw is a Completion, and every throw is caught and becomes a failure.
 */
module Transport {
  import opened Wrappers
  import opened Mime
  import opened Codec

  /** What a download returns: a failure, or the paste with its language if one was recognised. */
  datatype LoadResult = LoadFailed | Loaded(content: string, language: Option<string>)

  /**
   * A response to the download request: whether its status was a success, how
   * reading its body as text ended, and its `Content-Type` header if it had one.
   */
  datatype Response = Response(ok: bool, text: Completion<string>, contentType: Option<string>)

  /**
   * The string the MIME parser receives for a header: an absent header is `null`,
   * which the parser turns into the string "null".
   */
  function HeaderString(header: Option<string>): (s: string)
    ensures header.Some? ==> s == header.value
    ensures header.None? ==> Parse(s).None?
  {
    match header
    case None => NullIsNoMimeType("null"); "null"
    case Some(value) => value
  }

  /**
   * The download as written: a fetch that throws, a status that is not a success,
   * a body that cannot be read, or a header the MIME parser rejects all give a
   * failure; otherwise the body comes back with the header's classification.
   */
  function LoadOutcome(languageIds: set<string>, fetched: Completion<Response>): (r: LoadResult)
    ensures r.Loaded? <==> && fetched.Returned? && fetched.value.ok && fetched.value.text.Returned?
                           && Parse(HeaderString(fetched.value.contentType)).Some?
    ensures r.Loaded? ==> r.content == fetched.value.text.value
    ensures r.Loaded? ==> r.language == Classify(languageIds, Parse(HeaderString(fetched.value.contentType)).value)
    ensures r.Loaded? && r.language.Some? ==> r.language.value == "json" || r.language.value in languageIds
  {
    match fetched
    case Threw => LoadFailed
    case Returned(resp) =>
      if !resp.ok then LoadFailed
      else
        match resp.text
        case Threw => LoadFailed
        case Returned(content) =>
          match ContentTypeToLanguage(languageIds, HeaderString(resp.contentType))
          case Threw => LoadFailed
          case Returned(language) => Loaded(content, language)
  }

  /** "null" has no `/`, so it is not a MIME type. */
  lemma NullIsNoMimeType(s: string)
    requires s == "null"
    ensures Parse(s).None?
  {
    assert TrimStart(s) == s && TrimEnd(s) == s;
    IndexOfFindsFirst(s, '/');
    assert IndexOf(s, '/') == |s|;
  }

  /**
   * A successful response without a `Content-Type` header is a failed download:
   * the parser is handed "null" and throws inside the download's `try`.
   */
  lemma MissingContentTypeFailsLoad(languageIds: set<string>, ok: bool, text: Completion<string>)
    ensures LoadOutcome(languageIds, Returned(Response(ok, text, None))) == LoadFailed
  {
    NullIsNoMimeType(HeaderString(None));
  }

  /**
   * A successful response whose header is `text/<s>` loads its body, with `s`
   * lowercased as the language when the registry has it and no language otherwise.
   */
  lemma LoadTextSubtype(languageIds: set<string>, body: string, subtype: string)
    requires IsToken(subtype)
    ensures LoadOutcome(languageIds, Returned(Response(true, Returned(body), Some("text/" + subtype))))
         == Loaded(body, if Lower(subtype) in languageIds then Some(Lower(subtype)) else None)
  {
    TextSubtypeClassification(languageIds, subtype);
  }

  /** A successful `application/json` response loads its body as `json`, whatever the registry. */
  lemma LoadApplicationJson(languageIds: set<string>, body: string, contentType: string)
    requires contentType == "application/json"
    ensures LoadOutcome(languageIds, Returned(Response(true, Returned(body), Some(contentType))))
         == Loaded(body, Some("json"))
  {
    ApplicationJsonIsJson(languageIds, contentType);
  }

  /** The upload request: HTTP method, address, headers in order, and the compressed body. */
  datatype Request = Request(verb: string, url: string, headers: seq<(string, string)>, body: seq<bv8>)

  /** The value of the first header with the given name, if any. */
  function HeaderValue(headers: seq<(string, string)>, name: string): Option<string> {
    if headers == [] then None
    else if headers[0].0 == name then Some(headers[0].1)
    else HeaderValue(headers[1..], name)
  }

  /**
   * The upload request for a paste: a POST to the submission address whose body
   * is the gzip-compressed text and whose headers declare the language's content
   * type, the gzip encoding and that a JSON reply is expected.
   */
  function SaveRequest(postUrl: string, code: string, language: string, gzip: string -> seq<bv8>): (r: Request)
    ensures r.verb == "POST" && r.url == postUrl && r.body == gzip(code)
    ensures HeaderValue(r.headers, "Content-Type") == Some(LanguageToContentType(language))
    ensures HeaderValue(r.headers, "Content-Encoding") == Some("gzip")
    ensures HeaderValue(r.headers, "Accept") == Some("application/json")
  {
    var headers := [("Content-Type", LanguageToContentType(language)),
                    ("Content-Encoding", "gzip"),
                    ("Accept", "application/json")];
    assert HeaderValue(headers[2..], "Accept") == Some("application/json");
    assert headers[1..][1..] == headers[2..];
    Request("POST", postUrl, headers, gzip(code))
  }

  /**
   * A response to the upload: whether its status was a success, and how reading
   * the `key` field of its JSON body ended (it throws when the body is not JSON).
   */
  datatype SaveResponse = SaveResponse(ok: bool, key: Completion<Option<string>>)

  /**
   * The upload as written: the key of a successful reply, and nothing when the
   * request throws, the status is not a success, or the reply has no key.
   */
  function SaveOutcome(fetched: Completion<SaveResponse>): (key: Option<string>)
    ensures key.Some? <==> && fetched.Returned? && fetched.value.ok
                           && fetched.value.key.Returned? && fetched.value.key.value.Some?
    ensures key.Some? ==> key == fetched.value.key.value
  {
    match fetched
    case Threw => None
    case Returned(resp) =>
      if !resp.ok then None
      else
        match resp.key
        case Threw => None
        case Returned(key) => key
  }

  /**
   * Saving and loading agree: if bytebin serves an uploaded paste back with the
   * content type the upload declared, the download recovers the text and the
   * language for every lowercase token id that is `json` or registered.
   */
  lemma SaveThenLoad(languageIds: set<string>, postUrl: string, code: string, language: string,
                     gzip: string -> seq<bv8>)
    requires IsToken(language) && IsLowercase(language)
    requires language == "json" || language in languageIds
    ensures LoadOutcome(languageIds,
                        Returned(Response(true, Returned(code),
                                          HeaderValue(SaveRequest(postUrl, code, language, gzip).headers, "Content-Type"))))
         == Loaded(code, Some(language))
  {
    RoundTrip(languageIds, language);
  }

  /** The one-time notice a download writes to the developer console. */
  datatype Notice = Silent | TextNotice | TextAndJsonNotice

  /**
   * The notice of a download, given whether the notice was shown before: only a
   * successful download in a session that has not shown it yet prints it, and it
   * mentions the parsed JSON when the paste is `json` and its text parses as JSON.
   */
  function NoticeFor(shown: bool, r: LoadResult, parsesAsJson: string -> bool): (n: Notice)
    ensures n != Silent <==> !shown && r.Loaded?
    ensures n == TextAndJsonNotice <==> !shown && r.Loaded? && r.language == Some("json") && parsesAsJson(r.content)
  {
    if shown || !r.Loaded? then Silent
    else if r.language == Some("json") && parsesAsJson(r.content) then TextAndJsonNotice
    else TextNotice
  }

  /** The notices a session prints over a series of downloads with the given results. */
  function SessionNotices(shown: bool, results: seq<LoadResult>, parsesAsJson: string -> bool): (ns: seq<Notice>)
    ensures |ns| == |results|
    decreases |results|
  {
    if results == [] then []
    else [NoticeFor(shown, results[0], parsesAsJson)]
         + SessionNotices(shown || results[0].Loaded?, results[1..], parsesAsJson)
  }

  /** Whether the notice has been shown after a series of downloads. */
  function ShownAfter(shown: bool, results: seq<LoadResult>): bool
    decreases |results|
  {
    if results == [] then shown else ShownAfter(shown || results[0].Loaded?, results[1..])
  }

  /** The flag never goes back: it is set after a series exactly when it was set before or some download succeeded. */
  lemma {:induction false} ShownAfterIsMonotone(shown: bool, results: seq<LoadResult>)
    ensures ShownAfter(shown, results) <==> shown || exists i :: 0 <= i < |results| && results[i].Loaded?
    decreases |results|
  {
    if results != [] {
      ShownAfterIsMonotone(shown || results[0].Loaded?, results[1..]);
      if exists i :: 0 <= i < |results| - 1 && results[1..][i].Loaded? {
        var i :| 0 <= i < |results| - 1 && results[1..][i].Loaded?;
        assert results[i + 1].Loaded?;
      }
      if exists i :: 0 <= i < |results| && results[i].Loaded? {
        var i :| 0 <= i < |results| && results[i].Loaded?;
        if i > 0 {
          assert results[1..][i - 1].Loaded?;
        }
      }
    }
  }

  /**
   * The notice is printed once per session: at the first successful download of a
   * session that had not shown it, and at no other download.
   */
  lemma {:induction false} NoticeOnlyAtFirstSuccess(shown: bool, results: seq<LoadResult>, parsesAsJson: string -> bool)
    ensures forall i :: 0 <= i < |results| ==>
              (SessionNotices(shown, results, parsesAsJson)[i] != Silent
               <==> !shown && results[i].Loaded? && forall j :: 0 <= j < i ==> !results[j].Loaded?)
    decreases |results|
  {
    if results != [] {
      var shown' := shown || results[0].Loaded?;
      var ns := SessionNotices(shown, results, parsesAsJson);
      var rest := SessionNotices(shown', results[1..], parsesAsJson);
      NoticeOnlyAtFirstSuccess(shown', results[1..], parsesAsJson);
      assert ns == [NoticeFor(shown, results[0], parsesAsJson)] + rest;
      forall i | 1 <= i < |results|
        ensures ns[i] != Silent
                <==> !shown && results[i].Loaded? && forall j :: 0 <= j < i ==> !results[j].Loaded?
      {
        assert ns[i] == rest[i - 1];
        assert results[1..][i - 1] == results[i];
        assert (forall j :: 0 <= j < i - 1 ==> !results[1..][j].Loaded?)
           <==> (forall j :: 1 <= j < i ==> !results[j].Loaded?) by {
          forall j | 1 <= j < i ensures results[1..][j - 1] == results[j] { }
        }
      }
    }
  }

  /**
   * One browser session of the paste viewer: the flag that records whether the
   * developer-console notice has been printed.
   */
  class Session {
    var devtoolsNotificationShown: bool

    constructor ()
      ensures !devtoolsNotificationShown
    {
      devtoolsNotificationShown := false;
    }

    /**
     * A download, given how the exchange with bytebin ended: returns what
     * LoadOutcome says, prints NoticeFor's notice, and sets the flag on success.
     */
    method LoadFromBytebin(languageIds: set<string>, fetched: Completion<Response>, parsesAsJson: string -> bool)
      returns (r: LoadResult, notice: Notice)
      modifies this
      ensures r == LoadOutcome(languageIds, fetched)
      ensures notice == NoticeFor(old(devtoolsNotificationShown), r, parsesAsJson)
      ensures devtoolsNotificationShown == (old(devtoolsNotificationShown) || r.Loaded?)
    {
      r, notice := LoadFailed, Silent;
      if fetched.Threw? || !fetched.value.ok || fetched.value.text.Threw? {
        return;
      }
      var content := fetched.value.text.value;
      var classified := ContentTypeToLanguage(languageIds, HeaderString(fetched.value.contentType));
      if classified.Threw? {
        return;
      }
      var language := classified.value;
      var hasJson := false;
      if language == Some("json") {
        if parsesAsJson(content) {
          hasJson := true;
        }
      }
      if !devtoolsNotificationShown {
        notice := if hasJson then TextAndJsonNotice else TextNotice;
        devtoolsNotificationShown := true;
      }
      r := Loaded(content, language);
    }
  }
}
