/**
 * The content-type codec of the storage bridge: the language id a paste is saved
 * under is declared as a MIME type on upload, and the MIME type a paste is served
 * with is classified back into a language id on download. The set of registered
 * language ids comes from the syntax-highlighting registry and is a parameter here.
 */
module Codec {
  import opened Wrappers
  import opened Mime

  /**
   * The content type declared for a language id: `json` travels as
   * `application/json`, any other id as `text/<id>`, registered or not.
   */
  function LanguageToContentType(language: string): (r: string)
    ensures r == "application/json" <==> language == "json"
    ensures language != "json" ==> |r| == 5 + |language| && r[..5] == "text/" && r[5..] == language
  {
    if language == "json" then "application/json"
    else
      assert ("text/" + language)[0] == 't';
      "text/" + language
  }

  /**
   * The language a parsed MIME type stands for, if any: `application/json` is
   * `json` whatever the registry holds; `text/<s>` is `s` lowercased when the
   * registry has it; everything else is no language.
   */
  function Classify(languageIds: set<string>, mime: MimeType): (r: Option<string>)
    ensures r.Some? ==> r.value == "json" || r.value in languageIds
    ensures r.Some? ==> IsLowercase(r.value)
    ensures r.Some? <==> mime == MimeType("application", "json")
                         || (mime.primary == "text" && Lower(mime.subtype) in languageIds)
    ensures r.Some? && mime.primary == "text" ==> r.value == Lower(mime.subtype)
    ensures mime == MimeType("application", "json") ==> r == Some("json")
  {
    LowerAt(mime.subtype);
    if mime.primary == "application" && mime.subtype == "json" then Some("json")
    else if mime.primary == "text" && Lower(mime.subtype) in languageIds then Some(Lower(mime.subtype))
    else None
  }

  /**
   * A content-type header classified into a language id. A header that is not a
   * MIME type makes the parse throw, and that is not caught here. A language id
   * that comes back is `json` or registered, and is lowercase.
   */
  function ContentTypeToLanguage(languageIds: set<string>, contentType: string): (r: Completion<Option<string>>)
    ensures r.Threw? <==> Parse(contentType).None?
    ensures r.Returned? ==> r.value == Classify(languageIds, Parse(contentType).value)
    ensures r.Returned? && r.value.Some? ==> r.value.value == "json" || r.value.value in languageIds
    ensures r.Returned? && r.value.Some? ==> IsLowercase(r.value.value)
  {
    match Parse(contentType)
    case None => Threw
    case Some(mime) => Returned(Classify(languageIds, mime))
  }

  /** `application/json` parses to its own type and subtype. */
  lemma JsonEssenceParses(primary: string, subtype: string)
    requires primary == "application" && subtype == "json"
    ensures Parse(primary + "/" + subtype) == Some(MimeType(primary, subtype))
  {
    assert IsToken(primary) && IsLowercase(primary) by {
      assert IsToken("application") && IsLowercase("application");
    }
    assert IsToken(subtype) && IsLowercase(subtype) by {
      assert IsToken("json") && IsLowercase("json");
    }
    ParseLowercaseTypeSubtype(primary, subtype);
  }

  /** `text/<s>` for a token `s` parses to type `text` and `s` lowercased. */
  lemma TextEssenceParses(primary: string, subtype: string)
    requires primary == "text" && IsToken(subtype)
    ensures Parse(primary + "/" + subtype) == Some(MimeType(primary, Lower(subtype)))
  {
    assert IsToken(primary) && Lower(primary) == primary by {
      assert IsToken("text") && Lower("text") == "text";
    }
    ParseTypeSubtype(primary, subtype);
  }

  /**
   * Any header whose MIME type is `application/json` is classified as `json`,
   * whatever the registry holds: parameters (`; charset=utf-8`), capitals and
   * surrounding whitespace do not matter.
   */
  lemma JsonTypeIsJson(languageIds: set<string>, contentType: string)
    requires Parse(contentType) == Some(MimeType("application", "json"))
    ensures ContentTypeToLanguage(languageIds, contentType) == Returned(Some("json"))
  {
  }

  /** `application/json` is classified as `json`, whatever the registry holds. */
  lemma ApplicationJsonIsJson(languageIds: set<string>, contentType: string)
    requires contentType == "application/json"
    ensures ContentTypeToLanguage(languageIds, contentType) == Returned(Some("json"))
  {
    assert "application" + "/" + "json" == contentType;
    JsonEssenceParses("application", "json");
  }

  /**
   * `text/<s>` for a token `s` is classified as `s` lowercased exactly when the
   * registry holds that, and as no language otherwise; it never throws. This
   * covers a registered id in capitals (`text/YAML`) and an unregistered one.
   */
  lemma TextSubtypeClassification(languageIds: set<string>, subtype: string)
    requires IsToken(subtype)
    ensures ContentTypeToLanguage(languageIds, "text/" + subtype)
         == Returned(if Lower(subtype) in languageIds then Some(Lower(subtype)) else None)
  {
    TextSubtypeParses(subtype);
    ClassifyLoweredText(languageIds, subtype);
  }

  /** `text/<s>` for a token `s` parses to type `text` and `s` lowercased. */
  lemma TextSubtypeParses(subtype: string)
    requires IsToken(subtype)
    ensures Parse("text/" + subtype) == Some(MimeType("text", Lower(subtype)))
  {
    assert "text" + "/" + subtype == "text/" + subtype;
    TextEssenceParses("text", subtype);
  }

  /** A `text` type with a lowercased subtype is classified by registry membership alone. */
  lemma ClassifyLoweredText(languageIds: set<string>, subtype: string)
    ensures Classify(languageIds, MimeType("text", Lower(subtype)))
         == if Lower(subtype) in languageIds then Some(Lower(subtype)) else None
  {
    LowerAt(subtype);
    LowerFixes(Lower(subtype));
  }

  /** Classification ignores ASCII case anywhere in the header. */
  lemma ClassificationIgnoresCase(languageIds: set<string>, contentType: string)
    ensures ContentTypeToLanguage(languageIds, Lower(contentType))
         == ContentTypeToLanguage(languageIds, contentType)
  {
    ParseIgnoresCase(contentType);
  }

  /**
   * Round trip: a lowercase token language id that is `json` or registered is
   * classified back as itself from the content type declared for it; `json`
   * travels as `application/json`, not as `text/json`.
   */
  lemma RoundTrip(languageIds: set<string>, language: string)
    requires IsToken(language) && IsLowercase(language)
    requires language == "json" || language in languageIds
    ensures ContentTypeToLanguage(languageIds, LanguageToContentType(language)) == Returned(Some(language))
  {
    if language == "json" {
      ApplicationJsonIsJson(languageIds, LanguageToContentType(language));
    } else {
      TextSubtypeClassification(languageIds, language);
      LowerFixes(language);
    }
  }
}
