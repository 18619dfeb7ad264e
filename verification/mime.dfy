/**
 * The pieces of Go's standard library that the multipart/related code
 * stands on, reduced to what that code observes of them:
 *  - textproto.MIMEHeader (a map from canonical keys to value lists),
 *  - the raw parts that mime/multipart yields, in wire order,
 *  - the validity check of mime.ParseMediaType,
 *  - the error values the package returns.
 */
module Mime {
  import opened Wrappers

  type byte = b: int | 0 <= b < 256

  /** The error values of the package and of the library calls it passes on. */
  datatype Error =
    | EOF                              // io.EOF: no more parts / no more bytes
    | DupRoot                          // ErrDupRoot
    | RootExists                       // ErrRootExists
    | TypeMatch                        // ErrTypeMatch
    | InvalidMediaType(mediaType: string)  // error of mime.ParseMediaType
    | Transport(reason: string)        // any error of the raw multipart reader
    | CorruptBase64                    // any failure of the base64 decoder

  // ---------------------------------------------------------------------
  // Header keys and textproto.MIMEHeader
  // ---------------------------------------------------------------------

  /** tspecials of RFC 2045 section 5.1. */
  predicate IsTSpecial(c: char) {
    || c == '(' || c == ')' || c == '<' || c == '>' || c == '@'
    || c == ',' || c == ';' || c == ':' || c == '\\' || c == '"'
    || c == '/' || c == '[' || c == ']' || c == '?' || c == '='
  }

  /** A token character of RFC 2045 section 5.1 (the alphabet of mime's isToken). */
  predicate IsTokenChar(c: char) {
    32 < c as int < 127 && !IsTSpecial(c)
  }

  /** A character allowed in a header field name (token of RFC 7230 section 3.2.6). */
  predicate IsFieldNameChar(c: char) {
    IsTokenChar(c) && c != '{' && c != '}'
  }

  /** The case textproto gives one character of a key: upper case at the
      start of the key and after '-', lower case elsewhere. */
  function CaseFor(c: char, upper: bool): char {
    if upper && 'a' <= c <= 'z' then (c as int - 32) as char
    else if !upper && 'A' <= c <= 'Z' then (c as int + 32) as char
    else c
  }

  /** Case-mapping loop of textproto.CanonicalMIMEHeaderKey. */
  function CanonicalFrom(s: string, upper: bool): (r: string)
    ensures |r| == |s|
  {
    if s == [] then []
    else
      var d := CaseFor(s[0], upper);
      [d] + CanonicalFrom(s[1..], d == '-')
  }

  /** Whether character i of a key is put in upper case. */
  function UpperAt(s: string, upper: bool, i: nat): bool
    requires i < |s|
  {
    if i == 0 then upper else s[i - 1] == '-'
  }

  /** Character i of a canonical key depends only on s[i] and on whether s[i-1] is '-'. */
  lemma {:induction false} CanonicalFromAt(s: string, upper: bool, i: nat)
    requires i < |s|
    ensures CanonicalFrom(s, upper)[i] == CaseFor(s[i], UpperAt(s, upper, i))
  {
    if i > 0 {
      CanonicalFromAt(s[1..], CaseFor(s[0], upper) == '-', i - 1);
    }
  }

  /** textproto.CanonicalMIMEHeaderKey: a key holding a character that
      cannot appear in a field name is returned unchanged. */
  function CanonicalKey(key: string): (k: string)
    ensures |k| == |key|
  {
    if forall i | 0 <= i < |key| :: IsFieldNameChar(key[i]) then CanonicalFrom(key, true)
    else key
  }

  /** The canonical spellings of the keys the package reads and writes. */
  const ContentTypeKey := "Content-Type"
  const ContentIdKey := "Content-Id"
  const TransferEncodingKey := "Content-Transfer-Encoding"

  /** textproto.MIMEHeader: canonical key to the list of its values. */
  type Header = map<string, seq<string>>

  /** MIMEHeader.Get: the first value of the key, or "" when there is none. */
  function Get(h: Header, key: string): (v: string)
    ensures CanonicalKey(key) !in h ==> v == ""
    ensures CanonicalKey(key) in h && h[CanonicalKey(key)] != [] ==> v == h[CanonicalKey(key)][0]
  {
    var k := CanonicalKey(key);
    if k in h && |h[k]| > 0 then h[k][0] else ""
  }

  /** MIMEHeader.Set: replaces every value of the key with the one value. */
  function Set(h: Header, key: string, value: string): (r: Header)
    ensures r.Keys == h.Keys + {CanonicalKey(key)}
    ensures r[CanonicalKey(key)] == [value] && Get(r, key) == value
    ensures forall k :: k in h && k != CanonicalKey(key) ==> r[k] == h[k]
  {
    h[CanonicalKey(key) := [value]]
  }

  /** A second Set of a key replaces the first. */
  lemma SetTwice(h: Header, key: string, first: string, second: string)
    ensures Set(Set(h, key, first), key, second) == Set(h, key, second)
  {
  }

  /** MIMEHeader.Del: removes the key and all its values. */
  function Del(h: Header, key: string): (r: Header)
    ensures r.Keys == h.Keys - {CanonicalKey(key)}
    ensures Get(r, key) == ""
    ensures forall k :: k in r ==> r[k] == h[k]
  {
    h - {CanonicalKey(key)}
  }

  lemma {:induction false} CanonicalKeyIs(key: string, canonical: string)
    requires |key| == |canonical|
    requires forall i | 0 <= i < |key| :: IsFieldNameChar(key[i])
    requires forall i | 0 <= i < |key| :: canonical[i] == CaseFor(key[i], UpperAt(key, true, i))
    ensures CanonicalKey(key) == canonical
  {
    forall i | 0 <= i < |key| ensures CanonicalFrom(key, true)[i] == canonical[i] {
      CanonicalFromAt(key, true, i);
    }
  }

  lemma ContentTypeSpelling() ensures CanonicalKey("Content-Type") == ContentTypeKey {
    CanonicalKeyIs("Content-Type", ContentTypeKey);
  }

  lemma ContentIdSpelling() ensures CanonicalKey("Content-ID") == ContentIdKey {
    CanonicalKeyIs("Content-ID", ContentIdKey);
  }

  lemma TransferEncodingSpelling() ensures CanonicalKey("Content-Transfer-Encoding") == TransferEncodingKey {
    CanonicalKeyIs("Content-Transfer-Encoding", TransferEncodingKey);
  }

  // The same fact as ContentIdSpelling for the Reader's spelling; kept apart
  // because proving it inside CanonicalSpellings exceeds the resource limit.
  lemma ContentIdCanonical() ensures CanonicalKey("Content-Id") == ContentIdKey {
    CanonicalKeyIs("Content-Id", ContentIdKey);
  }

  /** The spellings the package uses name the canonical entries:
      "Content-ID" and "Content-Id" are one key. */
  lemma CanonicalSpellings()
    ensures CanonicalKey("Content-Type") == ContentTypeKey
    ensures CanonicalKey("Content-ID") == ContentIdKey
    ensures CanonicalKey("Content-Id") == ContentIdKey
    ensures CanonicalKey("Content-Transfer-Encoding") == TransferEncodingKey
  {
    ContentTypeSpelling();
    ContentIdSpelling();
    ContentIdCanonical();
    TransferEncodingSpelling();
  }

  // ---------------------------------------------------------------------
  // Raw parts, as mime/multipart's Reader.NextPart yields them
  // ---------------------------------------------------------------------

  /** One part as the boundary-delimited reader delivers it: its header,
      the body bytes it can deliver, and the error (if any) that ends
      reading the body early. */
  datatype RawPart = RawPart(header: Header, body: seq<byte>, bodyError: Option<string>)

  /** One call of mime/multipart's NextPart on a non-exhausted stream. */
  datatype Fetch = Next(part: RawPart) | Broken(reason: string)

  // ---------------------------------------------------------------------
  // Media types (the validity half of mime.ParseMediaType)
  // ---------------------------------------------------------------------

  /** DefaultMediaType, "text/plain; charset=utf-8": the text/plain type with its
      charset parameter. It is spelled as the concatenation of its type, subtype
      and parameter so that DefaultMediaTypeOk can match it against the shape
      that TypeSubtypeParams proves without comparing two literal strings
      character by character. */
  const DefaultMediaType := "text" + "/" + "plain" + ";" + (" " + "charset" + "=" + "utf-8")

  function Min(a: int, b: int): int {
    if a <= b then a else b
  }

  /** Index of the first occurrence of c in s, or -1. */
  function IndexOf(s: string, c: char): (k: int)
    ensures -1 <= k < |s|
    ensures k >= 0 ==> s[k] == c && c !in s[..k]
    ensures k < 0 ==> c !in s
  {
    if s == [] then -1
    else if s[0] == c then 0
    else
      var k := IndexOf(s[1..], c);
      assert s == [s[0]] + s[1..];
      if k < 0 then -1 else k + 1
  }

  predicate IsSpace(c: char) {
    c == ' ' || c == '\t' || c == '\n' || c == '\r' || c as int == 11 || c as int == 12
  }

  function TrimLeft(s: string): (r: string)
    ensures |r| <= |s|
    ensures r == [] || !IsSpace(r[0])
  {
    if s != [] && IsSpace(s[0]) then TrimLeft(s[1..]) else s
  }

  function TrimRight(s: string): (r: string)
    ensures |r| <= |s|
    ensures r == [] || !IsSpace(r[|r| - 1])
  {
    if s != [] && IsSpace(s[|s| - 1]) then TrimRight(s[..|s| - 1]) else s
  }

  /** strings.TrimSpace (for the ASCII white space characters). */
  function TrimSpace(s: string): (r: string)
    ensures |r| <= |s|
  {
    TrimRight(TrimLeft(s))
  }

  predicate IsToken(s: string) {
    |s| > 0 && forall i | 0 <= i < |s| :: IsTokenChar(s[i])
  }

  /** checkMediaTypeDisposition: a token, optionally followed by '/' and a token. */
  predicate BaseTypeOk(b: string) {
    var k := IndexOf(b, '/');
    if k < 0 then IsToken(b) else IsToken(b[..k]) && IsToken(b[k + 1..])
  }

  /** One parameter `attribute = value`, both tokens (consumeMediaParam;
      a quoted-string value is not modelled). */
  predicate ParamOk(seg: string) {
    var e := IndexOf(seg, '=');
    e >= 0 && IsToken(TrimSpace(seg[..e])) && IsToken(TrimSpace(seg[e + 1..]))
  }

  /** The parameters after the first ';': each is `attribute = value`,
      except that the text after a last ';' may be blank. */
  predicate ParamsOk(p: string)
    decreases |p|
  {
    var k := IndexOf(p, ';');
    if k < 0 then ParamOk(p) || TrimSpace(p) == []
    else ParamOk(p[..k]) && ParamsOk(p[k + 1..])
  }

  /** mime.ParseMediaType(s) returns no error. */
  predicate MediaTypeOk(s: string)
    ensures MediaTypeOk(s) ==> s != []
  {
    var k := IndexOf(s, ';');
    if k < 0 then BaseTypeOk(TrimSpace(s))
    else BaseTypeOk(TrimSpace(s[..k])) && ParamsOk(s[k + 1..])
  }

  lemma {:induction false} IndexOfIs(s: string, c: char, k: nat)
    requires k < |s| && s[k] == c && c !in s[..k]
    ensures IndexOf(s, c) == k
  {
  }

  lemma {:induction false} TrimmedAlready(s: string)
    requires s != [] && !IsSpace(s[0]) && !IsSpace(s[|s| - 1])
    ensures TrimSpace(s) == s
  {
  }

  lemma BaseTypeAt(b: string, k: nat)
    requires k < |b| && IndexOf(b, '/') == k && TrimSpace(b) == b
    requires IsToken(b[..k]) && IsToken(b[k + 1..])
    ensures BaseTypeOk(TrimSpace(b))
  {
  }

  lemma MediaTypeAt(s: string, k: nat)
    requires k < |s| && IndexOf(s, ';') == k
    requires BaseTypeOk(TrimSpace(s[..k])) && ParamsOk(s[k + 1..])
    ensures MediaTypeOk(s)
  {
  }

  /** A media type without parameters is accepted when its base is. */
  lemma MediaTypeBare(s: string)
    requires IndexOf(s, ';') < 0 && BaseTypeOk(TrimSpace(s))
    ensures MediaTypeOk(s)
  {
  }

  /** A token holds no tspecial and no white space. */
  lemma {:induction false} TokenHas(t: string, c: char)
    requires IsToken(t) && (IsTSpecial(c) || IsSpace(c))
    ensures c !in t && IndexOf(t, c) < 0
  {
    assert forall i | 0 <= i < |t| :: t[i] != c by {
      forall i | 0 <= i < |t| ensures t[i] != c {
        assert IsTokenChar(t[i]);
      }
    }
  }

  /** `type/subtype` made of two tokens: no ';' and an accepted base. */
  lemma {:induction false} TokenBase(a: string, b: string)
    requires IsToken(a) && IsToken(b)
    ensures IndexOf(a + "/" + b, ';') < 0 && BaseTypeOk(TrimSpace(a + "/" + b))
  {
    var s := a + "/" + b;
    TokenHas(a, '/');
    TokenHas(a, ';');
    TokenHas(b, ';');
    assert s[..|a|] == a && s[|a|] == '/' && s[|a| + 1..] == b;
    IndexOfIs(s, '/', |a|);
    assert ';' !in s by {
      assert forall i | 0 <= i < |a| :: s[i] == a[i];
      assert forall i | |a| < i < |s| :: s[i] == b[i - |a| - 1];
    }
    assert !IsSpace(a[0]) && !IsSpace(b[|b| - 1]);
    TrimmedAlready(s);
    BaseTypeAt(s, |a|);
  }

  /** `type/subtype` made of two tokens is accepted. */
  lemma {:induction false} TypeSubtype(a: string, b: string)
    requires IsToken(a) && IsToken(b)
    ensures MediaTypeOk(a + "/" + b)
  {
    TokenBase(a, b);
    MediaTypeBare(a + "/" + b);
  }

  /** ` attribute=value` with two tokens is an accepted parameter list. */
  lemma {:induction false} OneParam(attr: string, value: string)
    requires IsToken(attr) && IsToken(value)
    ensures ParamsOk(" " + attr + "=" + value)
  {
    var p := " " + attr + "=" + value;
    TokenHas(attr, '=');
    var e := |attr| + 1;
    assert p[..e] == " " + attr && p[e] == '=' && p[e + 1..] == value;
    IndexOfIs(p, '=', e);
    NoSemicolon(attr, value);
    assert TrimSpace(" " + attr) == attr by {
      assert (" " + attr)[1..] == attr;
      assert !IsSpace(attr[0]) && !IsSpace(attr[|attr| - 1]);
      TrimmedAlready(attr);
    }
    assert !IsSpace(value[0]) && !IsSpace(value[|value| - 1]);
    TrimmedAlready(value);
    assert ParamOk(p);
  }

  lemma {:induction false} NoSemicolon(attr: string, value: string)
    requires IsToken(attr) && IsToken(value)
    ensures ';' !in " " + attr + "=" + value
  {
    var p := " " + attr + "=" + value;
    var e := |attr| + 1;
    TokenHas(attr, ';');
    TokenHas(value, ';');
    assert forall i | 0 < i < e :: p[i] == attr[i - 1];
    assert forall i | e < i < |p| :: p[i] == value[i - e - 1];
  }

  /** `type/subtype;params` is accepted when its base and parameters are. */
  lemma {:induction false} TypeSubtypeParams(a: string, b: string, params: string)
    requires IsToken(a) && IsToken(b) && ParamsOk(params)
    ensures MediaTypeOk(a + "/" + b + ";" + params)
  {
    TokenBase(a, b);
    MediaTypeJoin(a + "/" + b, params);
  }

  /** An accepted base without ';', then ';' and accepted parameters. */
  lemma {:induction false} MediaTypeJoin(base: string, params: string)
    requires IndexOf(base, ';') < 0 && BaseTypeOk(TrimSpace(base)) && ParamsOk(params)
    ensures MediaTypeOk(base + ";" + params)
  {
    var s := base + ";" + params;
    assert s[..|base|] == base && s[|base|] == ';' && s[|base| + 1..] == params;
    IndexOfIs(s, ';', |base|);
    MediaTypeAt(s, |base|);
  }

  /** `type;word`: a parameter without '=' is refused. */
  lemma {:induction false} ParamWithoutEquals(a: string, word: string)
    requires IsToken(a) && IsToken(word)
    ensures !MediaTypeOk(a + ";" + word)
  {
    var s := a + ";" + word;
    TokenHas(a, ';');
    TokenHas(word, ';');
    TokenHas(word, '=');
    assert s[..|a|] == a && s[|a|] == ';' && s[|a| + 1..] == word;
    IndexOfIs(s, ';', |a|);
    assert !IsSpace(word[0]) && !IsSpace(word[|word| - 1]);
    TrimmedAlready(word);
  }

  // The example lemmas below take their literal strings as parameters fixed
  // by a requires clause: handed to the general lemmas as literals, the
  // strings would be evaluated character by character inside them.

  lemma DefaultTokens(a: string, b: string, attr: string, value: string)
    requires a == "text" && b == "plain" && attr == "charset" && value == "utf-8"
    ensures IsToken(a) && IsToken(b) && IsToken(attr) && IsToken(value)
  {
  }

  /** DefaultMediaType, "text/plain; charset=utf-8", is accepted. */
  lemma {:induction false} DefaultMediaTypeOk()
    ensures MediaTypeOk(DefaultMediaType)
  {
    var a, b, attr, value := "text", "plain", "charset", "utf-8";
    DefaultTokens(a, b, attr, value);
    OneParam(attr, value);
    TypeSubtypeParams(a, b, " " + attr + "=" + value);
  }

  lemma {:induction false} AcceptedExample(s: string, a: string, b: string)
    requires (s == "a/b" && a == "a" && b == "b") || (s == "application/json" && a == "application" && b == "json")
    ensures MediaTypeOk(s)
  {
    TypeSubtypeParts(s, a, b);
    TypeSubtype(a, b);
  }

  lemma TypeSubtypeParts(s: string, a: string, b: string)
    requires (s == "a/b" && a == "a" && b == "b") || (s == "application/json" && a == "application" && b == "json")
    ensures IsToken(a) && IsToken(b) && s == a + "/" + b
  {
  }

  lemma {:induction false} NoEqualsExample(s: string)
    requires s == "dont;panic"
    ensures !MediaTypeOk(s)
  {
    var a, word := "dont", "panic";
    NoEqualsParts(s, a, word);
    ParamWithoutEquals(a, word);
  }

  lemma NoEqualsParts(s: string, a: string, word: string)
    requires s == "dont;panic" && a == "dont" && word == "panic"
    ensures IsToken(a) && IsToken(word) && s == a + ";" + word
  {
  }

  /** The media types exercised by the package's tests, as mime.ParseMediaType judges them. */
  lemma MediaTypeExamples()
    ensures MediaTypeOk("a/b") && MediaTypeOk("application/json")
    ensures !MediaTypeOk(";") && !MediaTypeOk("dont;panic") && !MediaTypeOk("")
  {
    AcceptedExample("a/b", "a", "b");
    AcceptedExample("application/json", "application", "json");
    NoEqualsExample("dont;panic");
    EmptyBaseType(";");
    EmptyBaseType("");
  }

  lemma {:induction false} EmptyBaseType(s: string)
    requires s == ";" || s == ""
    ensures !MediaTypeOk(s)
  {
    if s == ";" {
      IndexOfIs(s, ';', 0);
      assert s[..0] == [];
    }
    assert TrimSpace([]) == [];
  }
}
