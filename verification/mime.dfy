/**
 * The part of the WHATWG MIME Sniffing Standard that the storage bridge relies on
 * through the `whatwg-mimetype` package: "parse a MIME type" (section 4.4), reduced
 * to the type and subtype it yields. Parameters are skipped: that algorithm never
 * fails because of them and the bridge never reads them.
 *
 * The string helpers are plain functions; what they compute is stated by the
 * lemma next to each, so that a parse of a literal string stays cheap to evaluate.
 */
module Mime {
  import opened Wrappers

  /** HTTP whitespace: LF, CR, TAB and SPACE. */
  predicate IsHttpWhitespace(c: char) {
    c == '\n' || c == '\r' || c == '\t' || c == ' '
  }

  /** HTTP token code points: ASCII alphanumerics and !#$%&'*+-.^_`|~ */
  predicate IsTokenChar(c: char) {
    || 'a' <= c <= 'z' || 'A' <= c <= 'Z' || '0' <= c <= '9'
    || c == '!' || c == '#' || c == '$' || c == '%' || c == '&' || c == '\'' || c == '*'
    || c == '+' || c == '-' || c == '.' || c == '^' || c == '_' || c == '`' || c == '|' || c == '~'
  }

  /** A non-empty string made only of HTTP token code points. */
  predicate IsToken(s: string) {
    |s| > 0 && forall i :: 0 <= i < |s| ==> IsTokenChar(s[i])
  }

  /** A string with no ASCII capital letters. */
  predicate IsLowercase(s: string) {
    forall i :: 0 <= i < |s| ==> !('A' <= s[i] <= 'Z')
  }

  /** ASCII lowercase of one code point. */
  function LowerChar(c: char): (r: char)
    ensures 'A' <= c <= 'Z' ==> 'a' <= r <= 'z'
    ensures !('A' <= c <= 'Z') ==> r == c
  {
    if 'A' <= c <= 'Z' then (c as int - 'A' as int + 'a' as int) as char else c
  }

  /** ASCII lowercase of a string. */
  function Lower(s: string): (r: string)
    ensures |r| == |s|
  {
    if s == [] then [] else [LowerChar(s[0])] + Lower(s[1..])
  }

  /** The input without its leading HTTP whitespace. */
  function TrimStart(s: string): (r: string)
    ensures |r| <= |s|
  {
    if s != [] && IsHttpWhitespace(s[0]) then TrimStart(s[1..]) else s
  }

  /** The input without its trailing HTTP whitespace. */
  function TrimEnd(s: string): (r: string)
    ensures |r| <= |s|
  {
    if s != [] && IsHttpWhitespace(s[|s| - 1]) then TrimEnd(s[..|s| - 1]) else s
  }

  /** The input without its leading and trailing HTTP whitespace. */
  function Trim(s: string): string {
    TrimEnd(TrimStart(s))
  }

  /** Position of the first `c` in `s`, or `|s|` when there is none. */
  function IndexOf(s: string, c: char): (i: nat)
    ensures i <= |s|
  {
    if s == [] || s[0] == c then 0 else 1 + IndexOf(s[1..], c)
  }

  /** A parsed MIME type: its type (`primary`) and its subtype. */
  datatype MimeType = MimeType(primary: string, subtype: string)

  /** The subtype part after the `/`: up to the first `;`, trailing whitespace removed. */
  function SubtypePart(rest: string): string {
    TrimEnd(rest[..IndexOf(rest, ';')])
  }

  /**
   * "Parse a MIME type": None is failure (the package's constructor throws then);
   * a success carries a type and a subtype that are lowercase tokens.
   */
  function Parse(input: string): (r: Option<MimeType>)
    ensures r.Some? ==> IsToken(r.value.primary) && IsToken(r.value.subtype)
    ensures r.Some? ==> IsLowercase(r.value.primary) && IsLowercase(r.value.subtype)
  {
    Split(Trim(input))
  }

  /**
   * Steps 3 to 10 of the parse, on input already trimmed of HTTP whitespace: the
   * type runs up to the first `/`, which must be there; the subtype runs from it
   * up to the first `;` and loses its trailing whitespace; both must be tokens and
   * are ASCII-lowercased.
   */
  function Split(s: string): (r: Option<MimeType>)
    ensures r.Some? ==> IsToken(r.value.primary) && IsToken(r.value.subtype)
    ensures r.Some? ==> IsLowercase(r.value.primary) && IsLowercase(r.value.subtype)
  {
    var slash := IndexOf(s, '/');
    if !IsToken(s[..slash]) || slash == |s| then None
    else if !IsToken(SubtypePart(s[slash + 1..])) then None
    else
      var primary, subtype := s[..slash], SubtypePart(s[slash + 1..]);
      LowerIsToken(primary);
      LowerIsToken(subtype);
      LowerAt(primary);
      LowerAt(subtype);
      Some(MimeType(Lower(primary), Lower(subtype)))
  }

  // ----- what the helpers compute -----

  /** Lower replaces each code point by its ASCII lowercase and leaves no capital. */
  lemma {:induction false} LowerAt(s: string)
    ensures forall i :: 0 <= i < |s| ==> Lower(s)[i] == LowerChar(s[i])
    ensures IsLowercase(Lower(s))
  {
    if s != [] {
      LowerAt(s[1..]);
      assert Lower(s) == [LowerChar(s[0])] + Lower(s[1..]);
    }
  }

  /** TrimStart removes exactly the leading run of HTTP whitespace. */
  lemma {:induction false} TrimStartRemovesLeadingWhitespace(s: string)
    ensures TrimStart(s) == s[|s| - |TrimStart(s)|..]
    ensures forall i :: 0 <= i < |s| - |TrimStart(s)| ==> IsHttpWhitespace(s[i])
    ensures TrimStart(s) == [] || !IsHttpWhitespace(TrimStart(s)[0])
  {
    if s != [] && IsHttpWhitespace(s[0]) {
      TrimStartRemovesLeadingWhitespace(s[1..]);
    }
  }

  /** TrimEnd removes exactly the trailing run of HTTP whitespace. */
  lemma {:induction false} TrimEndRemovesTrailingWhitespace(s: string)
    ensures TrimEnd(s) == s[..|TrimEnd(s)|]
    ensures forall i :: |TrimEnd(s)| <= i < |s| ==> IsHttpWhitespace(s[i])
    ensures TrimEnd(s) == [] || !IsHttpWhitespace(TrimEnd(s)[|TrimEnd(s)| - 1])
  {
    if s != [] && IsHttpWhitespace(s[|s| - 1]) {
      TrimEndRemovesTrailingWhitespace(s[..|s| - 1]);
    }
  }

  /** IndexOf finds the first occurrence, or reports `|s|` when there is none. */
  lemma {:induction false} IndexOfFindsFirst(s: string, c: char)
    ensures IndexOf(s, c) < |s| ==> s[IndexOf(s, c)] == c
    ensures forall j :: 0 <= j < IndexOf(s, c) ==> s[j] != c
  {
    if s != [] && s[0] != c {
      IndexOfFindsFirst(s[1..], c);
    }
  }

  // ----- facts about lowercasing -----

  /** Lowercasing keeps a string a token, and only a token lowercases to one. */
  lemma LowerIsToken(s: string)
    ensures IsToken(Lower(s)) <==> IsToken(s)
  {
    LowerAt(s);
    if IsToken(s) {
      forall i | 0 <= i < |s| ensures IsTokenChar(Lower(s)[i]) {
        assert Lower(s)[i] == LowerChar(s[i]);
      }
    }
    if IsToken(Lower(s)) {
      forall i | 0 <= i < |s| ensures IsTokenChar(s[i]) {
        assert IsTokenChar(Lower(s)[i]);
      }
    }
  }

  /** A string is its own lowercase exactly when it has no capitals. */
  lemma LowerFixes(s: string)
    ensures Lower(s) == s <==> IsLowercase(s)
  {
    LowerAt(s);
    if IsLowercase(s) {
      assert forall i :: 0 <= i < |s| ==> Lower(s)[i] == s[i];
    }
  }

  /** Lowercasing commutes with slicing. */
  lemma LowerSlice(s: string, i: nat, j: nat)
    requires i <= j <= |s|
    ensures Lower(s)[i..j] == Lower(s[i..j])
  {
    LowerAt(s);
    LowerAt(s[i..j]);
  }

  /** Lowercasing commutes with dropping a prefix. */
  lemma LowerDrop(s: string, i: nat)
    requires i <= |s|
    ensures Lower(s)[i..] == Lower(s[i..])
  {
    LowerAt(s);
    LowerAt(s[i..]);
  }

  /** Whitespace and the delimiters are unaffected by ASCII lowercasing. */
  lemma LowerCharKeeps(c: char)
    ensures IsHttpWhitespace(LowerChar(c)) <==> IsHttpWhitespace(c)
    ensures LowerChar(c) == '/' <==> c == '/'
    ensures LowerChar(c) == ';' <==> c == ';'
  {
  }

  lemma {:induction false} LowerTrimStart(s: string)
    ensures TrimStart(Lower(s)) == Lower(TrimStart(s))
  {
    if s != [] {
      LowerAt(s);
      LowerCharKeeps(s[0]);
      if IsHttpWhitespace(s[0]) {
        LowerSlice(s, 1, |s|);
        LowerTrimStart(s[1..]);
      }
    }
  }

  lemma {:induction false} LowerTrimEnd(s: string)
    ensures TrimEnd(Lower(s)) == Lower(TrimEnd(s))
  {
    if s != [] {
      LowerAt(s);
      LowerCharKeeps(s[|s| - 1]);
      if IsHttpWhitespace(s[|s| - 1]) {
        LowerSlice(s, 0, |s| - 1);
        LowerTrimEnd(s[..|s| - 1]);
      }
    }
  }

  lemma LowerIndexOf(s: string, c: char)
    requires c == '/' || c == ';'
    ensures IndexOf(Lower(s), c) == IndexOf(s, c)
  {
    var i, k := IndexOf(s, c), IndexOf(Lower(s), c);
    LowerAt(s);
    IndexOfFindsFirst(s, c);
    IndexOfFindsFirst(Lower(s), c);
    forall j | 0 <= j < |s| ensures Lower(s)[j] == c <==> s[j] == c {
      LowerCharKeeps(s[j]);
    }
    assert !(k < i) && !(i < k);
  }

  lemma LowerSubtypePart(rest: string)
    ensures SubtypePart(Lower(rest)) == Lower(SubtypePart(rest))
  {
    var semi := IndexOf(rest, ';');
    LowerIndexOf(rest, ';');
    LowerSlice(rest, 0, semi);
    LowerTrimEnd(rest[..semi]);
  }

  // ----- properties of the parse -----

  /** In `a + "/" + b` with `a` a token, the first `/` sits right after `a`. */
  lemma IndexOfSlash(a: string, b: string)
    requires IsToken(a)
    ensures IndexOf(a + "/" + b, '/') == |a|
  {
    var s := a + "/" + b;
    IndexOfFindsFirst(s, '/');
    assert s[|a|] == '/';
  }

  /** A token has no `;`, so its subtype part is the whole of it. */
  lemma TokenSubtypePart(t: string)
    requires IsToken(t)
    ensures SubtypePart(t) == t
  {
    IndexOfFindsFirst(t, ';');
    assert t[..|t|] == t;
    assert !IsHttpWhitespace(t[|t| - 1]);
  }

  /** A plain `type/subtype` string of two tokens parses to those tokens, lowercased. */
  lemma ParseTypeSubtype(primary: string, subtype: string)
    requires IsToken(primary) && IsToken(subtype)
    ensures Parse(primary + "/" + subtype) == Some(MimeType(Lower(primary), Lower(subtype)))
  {
    var input := primary + "/" + subtype;
    assert input[0] == primary[0];
    assert input[|input| - 1] == subtype[|subtype| - 1];
    assert TrimStart(input) == input;
    assert Trim(input) == input;
    IndexOfSlash(primary, subtype);
    assert input[..|primary|] == primary;
    assert input[|primary| + 1..] == subtype;
    TokenSubtypePart(subtype);
  }

  /** The same for a type and subtype that are already lowercase: they come back as they are. */
  lemma ParseLowercaseTypeSubtype(primary: string, subtype: string)
    requires IsToken(primary) && IsToken(subtype)
    requires IsLowercase(primary) && IsLowercase(subtype)
    ensures Parse(primary + "/" + subtype) == Some(MimeType(primary, subtype))
  {
    ParseTypeSubtype(primary, subtype);
    LowerFixes(primary);
    LowerFixes(subtype);
  }

  /** Parsing is ASCII case-insensitive: lowercasing the input changes nothing. */
  lemma ParseIgnoresCase(input: string)
    ensures Parse(Lower(input)) == Parse(input)
  {
    LowerTrimStart(input);
    LowerTrimEnd(TrimStart(input));
    LowerSplit(Trim(input));
  }

  /** The case-insensitivity of Parse, once the whitespace is trimmed. */
  lemma LowerSplit(s: string)
    ensures Split(Lower(s)) == Split(s)
  {
    var t := Lower(s);
    var slash := IndexOf(s, '/');
    LowerIndexOf(s, '/');
    assert IndexOf(t, '/') == slash;
    LowerSlice(s, 0, slash);
    LowerIsToken(s[..slash]);
    assert IsToken(t[..slash]) == IsToken(s[..slash]);
    if !IsToken(s[..slash]) || slash == |s| {
      assert Split(t) == None;
    } else {
      var rest := s[slash + 1..];
      LowerDrop(s, slash + 1);
      LowerSubtypePart(rest);
      LowerIsToken(SubtypePart(rest));
      assert IsToken(SubtypePart(t[slash + 1..])) == IsToken(SubtypePart(rest));
      if IsToken(SubtypePart(rest)) {
        LowerAt(s[..slash]);
        LowerAt(SubtypePart(rest));
        LowerFixes(Lower(s[..slash]));
        LowerFixes(Lower(SubtypePart(rest)));
        assert Split(t) == Some(MimeType(Lower(Lower(s[..slash])), Lower(Lower(SubtypePart(rest)))));
      } else {
        assert Split(t) == None;
      }
    }
  }
}
