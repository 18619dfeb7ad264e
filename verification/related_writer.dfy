/**
 * The writing side of package `related` (related/writer.go): a Writer
 * that keeps the parameters of a multipart/related compound object
 * (RFC 2387 section 3), creates the root and the other parts, stamps
 * their headers, and refuses to close when the compound object's type
 * and the root's type disagree.
 */
module RelatedWriter {
  import opened Wrappers
  import opened Mime
  import opened RelatedReader

  // ---------------------------------------------------------------------
  // Content-IDs (formatContentId)
  // ---------------------------------------------------------------------

  /** formatContentId: the RFC 5322 parsing is disabled, so the id is
      returned unchanged and the call never fails. */
  function FormatContentId(contentId: string): (r: Result<string, Error>)
    ensures r.Success? && r.value == contentId
  {
    Success(contentId)
  }

  /** A start id written by the Writer is read back by a Reader whenever
      it is an address. */
  lemma StartRoundTrip(a: string)
    requires IsAddrSpec(a)
    ensures ParseContentId(FormatContentId(a).value) == a
  {
    ParseAddress(a);
  }

  // ---------------------------------------------------------------------
  // Quoting (escapeQuotes)
  // ---------------------------------------------------------------------

  /** The characters escapeQuotes prefixes with a backslash. */
  predicate NeedsEscape(c: char) {
    c == '\\' || c == '"'
  }

  /** How many characters of s need a backslash. */
  function EscapeCount(s: string): (n: nat)
    ensures n <= |s|
    ensures n == 0 <==> forall i | 0 <= i < |s| :: !NeedsEscape(s[i])
  {
    if s == [] then 0
    else
      assert forall i | 1 <= i < |s| :: s[i] == s[1..][i - 1];
      (if NeedsEscape(s[0]) then 1 else 0) + EscapeCount(s[1..])
  }

  /** escapeQuotes: a single left-to-right pass that writes `\\` for each
      backslash and `\"` for each double quote. */
  function EscapeQuotes(s: string): (r: string)
    ensures |r| == |s| + EscapeCount(s)
  {
    if s == [] then ""
    else (if NeedsEscape(s[0]) then ['\\', s[0]] else [s[0]]) + EscapeQuotes(s[1..])
  }

  /** The reading of a quoted-string body (RFC 5322 section 3.2.4): a
      backslash takes the next character literally; a bare double quote
      or a trailing backslash is malformed. */
  function Unescape(r: string): (s: Option<string>)
    ensures s.Some? ==> |s.value| <= |r|
    decreases |r|
  {
    if r == [] then Some("")
    else if r[0] == '"' then None
    else if r[0] == '\\' then
      if |r| < 2 then None
      else match Unescape(r[2..])
        case Some(t) => Some([r[1]] + t)
        case None => None
    else
      match Unescape(r[1..])
      case Some(t) => Some([r[0]] + t)
      case None => None
  }

  /** Unescaping what escapeQuotes wrote gives back its input. */
  lemma {:induction false} UnescapeEscape(s: string)
    ensures Unescape(EscapeQuotes(s)) == Some(s)
    decreases |s|
  {
    if s != [] {
      UnescapeEscape(s[1..]);
      var rest := EscapeQuotes(s[1..]);
      assert s == [s[0]] + s[1..];
      if NeedsEscape(s[0]) {
        assert EscapeQuotes(s) == ['\\', s[0]] + rest;
        UnescapeEscaped(s[0], rest, s[1..]);
      } else {
        assert EscapeQuotes(s) == [s[0]] + rest;
        UnescapePlain(s[0], rest, s[1..]);
      }
    }
  }

  lemma UnescapeEscaped(c: char, rest: string, t: string)
    requires Unescape(rest) == Some(t)
    ensures Unescape(['\\', c] + rest) == Some([c] + t)
  {
    assert (['\\', c] + rest)[2..] == rest;
  }

  lemma UnescapePlain(c: char, rest: string, t: string)
    requires !NeedsEscape(c) && Unescape(rest) == Some(t)
    ensures Unescape([c] + rest) == Some([c] + t)
  {
    assert ([c] + rest)[1..] == rest;
  }

  /** escapeQuotes changes a string exactly when it holds a backslash or a
      double quote. */
  lemma {:induction false} EscapeQuotesPlain(s: string)
    ensures EscapeQuotes(s) == s <==> forall i | 0 <= i < |s| :: !NeedsEscape(s[i])
    decreases |s|
  {
    if s != [] && forall i | 0 <= i < |s| :: !NeedsEscape(s[i]) {
      assert forall i | 0 <= i < |s[1..]| :: !NeedsEscape(s[1..][i]) by {
        forall i | 0 <= i < |s[1..]| ensures !NeedsEscape(s[1..][i]) {
          assert s[1..][i] == s[i + 1];
        }
      }
      EscapeQuotesPlain(s[1..]);
      assert s == [s[0]] + s[1..];
    }
  }

  /** The start-info of the package's own example: `-o p"s` is written as
      `-o p\"s`. */
  lemma {:induction false} EscapeQuotesExample(s: string)
    requires s == "-o p\"s"
    ensures EscapeQuotes(s) == "-o p\\\"s"
  {
    assert EscapeQuotes("s") == "s";
    assert EscapeQuotes("\"s") == "\\\"s";
    assert EscapeQuotes("p\"s") == "p\\\"s";
    assert EscapeQuotes(" p\"s") == " p\\\"s";
    assert EscapeQuotes("o p\"s") == "o p\\\"s";
  }

  // ---------------------------------------------------------------------
  // Part headers
  // ---------------------------------------------------------------------

  /** A nil header becomes a fresh empty one. */
  function HeaderOrEmpty(header: Option<Header>): Header {
    if header.Some? then header.value else map[]
  }

  /** The header a part is created with: Content-Type set to mediaType,
      then Content-ID set to contentId unless that is empty. */
  function Stamp(h: Header, contentId: string, mediaType: string): (r: Header)
  {
    var typed := Set(h, "Content-Type", mediaType);
    if contentId != "" then Set(typed, "Content-ID", contentId) else typed
  }

  /** A stamped header holds exactly one Content-Type value, the media type,
      and, when an id is given, exactly one Content-ID value, the id; every
      other entry is the caller's, and no other key is added. */
  lemma StampContents(h: Header, contentId: string, mediaType: string)
    ensures var r := Stamp(h, contentId, mediaType);
      && r.Keys == h.Keys + {ContentTypeKey} + (if contentId != "" then {ContentIdKey} else {})
      && r[ContentTypeKey] == [mediaType] && Get(r, "Content-Type") == mediaType
      && (contentId != "" ==> r[ContentIdKey] == [contentId] && Get(r, "Content-ID") == contentId)
      && (contentId == "" ==> Get(r, "Content-ID") == Get(h, "Content-ID"))
      && forall k :: k in h && k != ContentTypeKey && (contentId != "" ==> k != ContentIdKey) ==> r[k] == h[k]
  {
    CanonicalSpellings();
  }

  /** The effective media type of a non-root part: the header's
      Content-Type when it has one, DefaultMediaType otherwise. */
  function PartType(header: Option<Header>): (t: string)
    ensures t != ""
    ensures header.Some? && Get(header.value, "Content-Type") != "" ==> t == Get(header.value, "Content-Type")
    ensures header.None? || Get(header.value, "Content-Type") == "" ==> t == DefaultMediaType
  {
    if header.Some? && Get(header.value, "Content-Type") != "" then Get(header.value, "Content-Type")
    else DefaultMediaType
  }

  /** The effective media type of the root: DefaultMediaType for "". */
  function RootType(mediaType: string): (t: string)
    ensures t != ""
    ensures mediaType != "" ==> t == mediaType
    ensures mediaType == "" ==> t == DefaultMediaType
  {
    if mediaType == "" then DefaultMediaType else mediaType
  }

  /** Stamping a header whose Content-Type is already the media type gives
      the same header as stamping the header without it. */
  lemma StampTyped(h: Header, contentId: string, mediaType: string)
    ensures Stamp(Set(h, "Content-Type", mediaType), contentId, mediaType) == Stamp(h, contentId, mediaType)
  {
    SetTwice(h, "Content-Type", mediaType, mediaType);
  }

  /** Stamp, step by step as the Writer sets the two entries. */
  lemma StampSteps(h0: Header, contentId: string, mediaType: string, typed: Header, h: Header)
    requires typed == Set(h0, "Content-Type", mediaType)
    requires h == if contentId != "" then Set(typed, "Content-ID", contentId) else typed
    ensures h == Stamp(h0, contentId, mediaType)
  {
  }

  /** The two header updates a non-root part receives, in the Writer's order. */
  method StampHeader(h0: Header, contentId: string, mediaType: string) returns (h: Header)
    ensures h == Stamp(h0, contentId, mediaType)
  {
    h := Set(h0, "Content-Type", mediaType);
    if contentId != "" {
      // formatContentId cannot fail.
      h := Set(h, "Content-ID", FormatContentId(contentId).value);
    }
  }

  // ---------------------------------------------------------------------
  // The Writer
  // ---------------------------------------------------------------------

  /** Writer: generates a multipart/related message. The underlying
      boundary writer is represented by the headers of the parts it has
      been asked to create. */
  class Writer {
    const boundary: string
    /** Content-ID of the compound object's root; optional. */
    var start: string
    /** Media type of the compound object. */
    var mediaType: string
    var startInfo: string
    /** Media type of the root part. */
    var rootMediaType: string
    /** Some part has been created. */
    var firstPart: bool
    /** The root has been created. */
    var rootPart: bool
    /** Headers of the parts created so far, in order. */
    var parts: seq<Header>

    ghost predicate Valid()
      reads this
    {
      && (rootPart ==> firstPart)
      && (firstPart <==> |parts| > 0)
      && (rootPart <==> rootMediaType != "")
      && (firstPart ==> mediaType != "")
    }

    /** NewWriter; the random boundary is a parameter. */
    constructor (boundary: string)
      ensures Valid()
      ensures this.boundary == boundary
      ensures start == "" && mediaType == "" && startInfo == "" && rootMediaType == ""
      ensures !firstPart && !rootPart && parts == []
    {
      this.boundary := boundary;
      start, mediaType, startInfo, rootMediaType := "", "", "", "";
      firstPart, rootPart := false, false;
      parts := [];
    }

    /** SetStart: stores the formatted id, which never fails. */
    method SetStart(contentId: string) returns (err: Option<Error>)
      modifies this
      ensures old(Valid()) ==> Valid()
      ensures err == None && start == contentId
      ensures mediaType == old(mediaType) && startInfo == old(startInfo) && rootMediaType == old(rootMediaType)
      ensures firstPart == old(firstPart) && rootPart == old(rootPart) && parts == old(parts)
    {
      // formatContentId cannot fail.
      start := FormatContentId(contentId).value;
      return None;
    }

    /** SetType: stores a parseable media type verbatim; refuses any other
      and then changes nothing. */
    method SetType(mediaType: string) returns (err: Option<Error>)
      requires Valid()
      modifies this
      ensures Valid()
      ensures err == None ==> MediaTypeOk(mediaType) && this.mediaType == mediaType
      ensures err != None ==> !MediaTypeOk(mediaType) && err == Some(InvalidMediaType(mediaType)) && this.mediaType == old(this.mediaType)
      ensures start == old(start) && startInfo == old(startInfo) && rootMediaType == old(rootMediaType)
      ensures firstPart == old(firstPart) && rootPart == old(rootPart) && parts == old(parts)
    {
      if !MediaTypeOk(mediaType) {
        return Some(InvalidMediaType(mediaType));
      }
      this.mediaType := mediaType;
      return None;
    }

    /** SetStartInfo: stores its argument verbatim. */
    method SetStartInfo(info: string)
      requires Valid()
      modifies this
      ensures Valid()
      ensures startInfo == info
      ensures start == old(start) && mediaType == old(mediaType) && rootMediaType == old(rootMediaType)
      ensures firstPart == old(firstPart) && rootPart == old(rootPart) && parts == old(parts)
    {
      startInfo := info;
    }

    /** The parameters of FormDataContentType's multipart/related media
      type (RFC 2387 sections 3.1 to 3.3): always the boundary; start,
      type and start-info only when set, the last two quote-escaped. */
    function FormDataParams(): (params: map<string, string>)
      reads this
      ensures params.Keys <= {"boundary", "start", "type", "start-info"}
      ensures "boundary" in params && params["boundary"] == boundary
      ensures ("start" in params <==> start != "") && (start != "" ==> params["start"] == start)
      ensures ("type" in params <==> mediaType != "") && (mediaType != "" ==> params["type"] == EscapeQuotes(mediaType))
      ensures ("start-info" in params <==> startInfo != "")
      ensures startInfo != "" ==> params["start-info"] == EscapeQuotes(startInfo)
    {
      var params := map["boundary" := boundary];
      var params := if start != "" then params["start" := start] else params;
      var params := if mediaType != "" then params["type" := EscapeQuotes(mediaType)] else params;
      if startInfo != "" then params["start-info" := EscapeQuotes(startInfo)] else params
    }

    /** CreateRoot: creates the root part, stamped with its media type
      (DefaultMediaType when none is given) and its Content-ID, and makes
      that type the compound object's type as well. */
    method CreateRoot(contentId: string, mediaType: string, header: Option<Header>) returns (err: Option<Error>)
      requires Valid()
      modifies this
      ensures Valid()
      ensures old(rootPart) ==> err == Some(RootExists)
      ensures !old(rootPart) && !MediaTypeOk(RootType(mediaType)) ==> err == Some(InvalidMediaType(RootType(mediaType)))
      ensures err.Some? ==>
        && start == old(start) && this.mediaType == old(this.mediaType) && startInfo == old(startInfo)
        && rootMediaType == old(rootMediaType) && firstPart == old(firstPart) && rootPart == old(rootPart)
        && parts == old(parts)
      ensures !old(rootPart) && MediaTypeOk(RootType(mediaType)) ==>
        && err == None
        && this.mediaType == RootType(mediaType) && rootMediaType == RootType(mediaType)
        && start == (if contentId != "" then contentId else old(start)) && startInfo == old(startInfo)
        && firstPart && rootPart
        && parts == old(parts) + [Stamp(HeaderOrEmpty(header), contentId, RootType(mediaType))]
    {
      if rootPart {
        return Some(RootExists);
      }
      var h := HeaderOrEmpty(header);
      var mt := RootType(mediaType);
      err := SetType(mt);
      if err.Some? {
        return err;
      }
      assert this.mediaType == mt && MediaTypeOk(mt);
      h := Set(h, "Content-Type", this.mediaType);
      ghost var typed := h;
      rootMediaType := this.mediaType;
      if contentId != "" {
        // SetStart cannot fail: formatContentId is the identity.
        var _ := SetStart(contentId);
        h := Set(h, "Content-ID", start);
      }
      assert this.mediaType == mt && rootMediaType == mt;
      StampSteps(HeaderOrEmpty(header), contentId, mt, typed, h);
      firstPart := true;
      rootPart := true;
      parts := parts + [h];
    }

    /** CreatePart: creates a non-root part. Its media type (the header's
      Content-Type, else DefaultMediaType) is stamped into the header and
      becomes the compound object's type; the root's type, the root flag
      and start are left alone. */
    method CreatePart(contentId: string, header: Option<Header>) returns (err: Option<Error>)
      requires Valid()
      modifies this
      ensures Valid()
      ensures start == old(start) && startInfo == old(startInfo)
      ensures rootMediaType == old(rootMediaType) && rootPart == old(rootPart)
      ensures !MediaTypeOk(PartType(header)) ==>
        && err == Some(InvalidMediaType(PartType(header)))
        && mediaType == old(mediaType) && firstPart == old(firstPart) && parts == old(parts)
      ensures MediaTypeOk(PartType(header)) ==>
        && err == None
        && mediaType == PartType(header) && firstPart
        && parts == old(parts) + [Stamp(HeaderOrEmpty(header), contentId, PartType(header))]
    {
      var mt := DefaultMediaType;
      var h: Header;
      if header.None? {
        h := Set(map[], "Content-Type", mt);
      } else {
        h := header.value;
        if Get(h, "Content-Type") != "" {
          mt := Get(h, "Content-Type");
        }
      }
      if mt == "" {
        mt := DefaultMediaType;
      }
      assert mt == PartType(header);
      err := SetType(mt);
      if err.Some? {
        return err;
      }
      assert mediaType == mt && MediaTypeOk(mt);
      if header.None? {
        StampTyped(map[], contentId, mt);
      }
      h := StampHeader(h, contentId, mediaType);
      if !firstPart {
        var _ := SetType(mt);
        firstPart := true;
      }
      assert mediaType == mt && firstPart;
      parts := parts + [h];
    }

    /** Close: ErrTypeMatch exactly when the compound object's type is not
      the root's type; otherwise the boundary writer is closed. No field
      changes, so the verdict does not change between calls. */
    method Close() returns (err: Option<Error>)
      ensures err == Some(TypeMatch) <==> mediaType != rootMediaType
      ensures err == None <==> mediaType == rootMediaType
    {
      if mediaType != rootMediaType {
        return Some(TypeMatch);
      }
      return None;
    }
  }

  /** A Writer whose only part is its root closes cleanly. */
  method RootThenClose(w: Writer, contentId: string, mediaType: string, header: Option<Header>)
    returns (created: Option<Error>, closed: Option<Error>)
    requires w.Valid() && !w.rootPart && MediaTypeOk(RootType(mediaType))
    modifies w
    ensures created == None && closed == None
  {
    created := w.CreateRoot(contentId, mediaType, header);
    closed := w.Close();
  }

  /** Changing the compound object's type after the root makes Close
      report ErrTypeMatch. */
  method RetypeAfterRoot(w: Writer, contentId: string, rootType: string, newType: string)
    returns (closed: Option<Error>)
    requires w.Valid() && !w.rootPart && MediaTypeOk(rootType) && MediaTypeOk(newType) && newType != rootType
    modifies w
    ensures closed == Some(TypeMatch)
  {
    var _ := w.CreateRoot(contentId, rootType, None);
    var _ := w.SetType(newType);
    closed := w.Close();
  }

  /** A part whose type differs from the root's, created after the root,
      also makes Close report ErrTypeMatch: CreatePart overwrites the
      compound object's type. */
  method PartAfterRoot(w: Writer, rootType: string, header: Option<Header>)
    returns (created: Option<Error>, closed: Option<Error>)
    requires w.Valid() && !w.rootPart && MediaTypeOk(rootType)
    requires MediaTypeOk(PartType(header)) && PartType(header) != rootType
    modifies w
    ensures created == None && closed == Some(TypeMatch)
  {
    var _ := w.CreateRoot("", rootType, None);
    created := w.CreatePart("", header);
    closed := w.Close();
  }

  /** Parts without a root can never be closed: the first part stamped its
      type into the compound object, and no root type was recorded. */
  lemma PartsWithoutRootNeverClose(w: Writer)
    requires w.Valid() && w.firstPart && !w.rootPart
    ensures w.mediaType != w.rootMediaType
  {
  }

  /** A Reader built from the parameters a Writer announces holds the
      Writer's start, and its type and start-info as escapeQuotes wrote
      them: nothing on the reading side undoes the escaping (UnescapeEscape
      is the inverse that would). */
  lemma ParamsReadBack(w: Writer)
    requires IsAddrSpec(w.start)
    ensures ParseContentId(Param(w.FormDataParams(), "start")) == w.start
    ensures Param(w.FormDataParams(), "type") == EscapeQuotes(w.mediaType)
    ensures Param(w.FormDataParams(), "start-info") == EscapeQuotes(w.startInfo)
  {
    ParseAddress(w.start);
  }

  /** A part created with the id that the Writer announces as start is
      the part a Reader of those parameters takes for the root. */
  lemma StampedRootClaims(h: Header, contentId: string, mediaType: string, body: seq<byte>)
    requires IsAddrSpec(contentId)
    ensures Claims(ParseContentId(contentId), Next(RawPart(Stamp(h, contentId, mediaType), body, None)))
  {
    CanonicalSpellings();
    ParseAddress(contentId);
  }
}
