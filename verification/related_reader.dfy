/**
 * The reading side of package `related` (related/multipart.go): a
 * Reader that walks the raw parts of a multipart/related body, decides
 * which one is the root (RFC 2387 section 3.2), rejects a second root,
 * tags base64 bodies for decoding, and can gather a whole compound
 * object with its root first.
 */
module RelatedReader {
  import opened Wrappers
  import opened Mime

  // ---------------------------------------------------------------------
  // Content-IDs (parseContentId)
  // ---------------------------------------------------------------------

  /** atext of RFC 5322 section 3.2.3. */
  predicate IsAText(c: char) {
    || ('a' <= c <= 'z') || ('A' <= c <= 'Z') || ('0' <= c <= '9')
    || c == '!' || c == '#' || c == '$' || c == '%' || c == '&' || c == '\'' || c == '*'
    || c == '+' || c == '-' || c == '/' || c == '=' || c == '?' || c == '^' || c == '_'
    || c == '`' || c == '{' || c == '|' || c == '}' || c == '~'
  }

  /** dot-atom-text of RFC 5322 section 3.2.3. */
  predicate IsDotAtom(s: string) {
    && |s| > 0 && s[0] != '.' && s[|s| - 1] != '.'
    && (forall i | 0 <= i < |s| :: IsAText(s[i]) || s[i] == '.')
    && (forall i, j | 0 <= i && j == i + 1 < |s| :: !(s[i] == '.' && s[j] == '.'))
  }

  /** addr-spec of RFC 5322 section 3.4.1, with dot-atom local part and domain. */
  predicate IsAddrSpec(a: string) {
    var k := IndexOf(a, '@');
    k > 0 && IsDotAtom(a[..k]) && IsDotAtom(a[k + 1..])
  }

  /** The blanks net/mail skips between the tokens of an address: space
      and horizontal tab only. */
  predicate IsBlank(c: char) {
    c == ' ' || c == '\t'
  }

  /** strings.TrimLeft(s, " \t"): what net/mail's skipSpace leaves. */
  function SkipBlanks(s: string): (r: string)
    ensures |r| <= |s|
    ensures r == [] || !IsBlank(r[0])
  {
    if s != [] && IsBlank(s[0]) then SkipBlanks(s[1..]) else s
  }

  /** s without its trailing blanks. */
  function DropTrailingBlanks(s: string): (r: string)
    ensures |r| <= |s|
    ensures r == [] || !IsBlank(r[|r| - 1])
  {
    if s != [] && IsBlank(s[|s| - 1]) then DropTrailingBlanks(s[..|s| - 1]) else s
  }

  /** consumeAddrSpec over the whole of s: blanks, a dot-atom local part,
      '@', blanks, a dot-atom domain. The address without its blanks, or
      "" when s is not of that form. */
  function AddrSpecOf(s: string): (id: string)
    ensures id == "" || IsAddrSpec(id)
  {
    var u := SkipBlanks(s);
    var k := IndexOf(u, '@');
    if k <= 0 then ""
    else
      var local, domain := u[..k], SkipBlanks(u[k + 1..]);
      if IsDotAtom(local) && IsDotAtom(domain) then AddrSpecJoin(local, domain); local + "@" + domain
      else ""
  }

  /** A dot-atom has no '@', no blank, and no '<' at its start. */
  lemma DotAtomHas(s: string)
    requires IsDotAtom(s)
    ensures '@' !in s && !IsBlank(s[0]) && !IsBlank(s[|s| - 1]) && s[0] != '<'
  {
    forall i | 0 <= i < |s|
      ensures s[i] != '@'
    {
      assert IsAText(s[i]) || s[i] == '.';
    }
  }

  /** Joining two dot-atoms with '@' gives an address. */
  lemma AddrSpecJoin(local: string, domain: string)
    requires IsDotAtom(local) && IsDotAtom(domain)
    ensures IsAddrSpec(local + "@" + domain)
  {
    var a := local + "@" + domain;
    assert a[..|local|] == local && a[|local|] == '@' && a[|local| + 1..] == domain;
    DotAtomHas(local);
    IndexOfIs(a, '@', |local|);
  }

  /** parseContentId: net/mail.ParseAddress without display names. Blanks
      around the whole are skipped; an angle-addr `<local@domain>` or a
      bare addr-spec, with blanks allowed before the local part and after
      '@', gives the address. Anything else is the empty id, never an
      error. */
  function ParseContentId(contentId: string): (id: string)
    ensures id == "" || IsAddrSpec(id)
  {
    var t := DropTrailingBlanks(SkipBlanks(contentId));
    if |t| >= 2 && t[0] == '<' && t[|t| - 1] == '>' then AddrSpecOf(t[1..|t| - 1])
    else AddrSpecOf(t)
  }

  /** An address is its own addr-spec. */
  lemma {:induction false} AddrSpecOfAddress(a: string)
    requires IsAddrSpec(a)
    ensures AddrSpecOf(a) == a
  {
    var k := IndexOf(a, '@');
    var local, domain := a[..k], a[k + 1..];
    DotAtomHas(local);
    DotAtomHas(domain);
    assert a[0] == local[0];
    assert SkipBlanks(a) == a;
    assert SkipBlanks(domain) == domain;
    assert local + "@" + domain == a;
  }

  /** An address parses to itself, bare or between angle brackets. */
  lemma {:induction false} ParseAddress(a: string)
    requires IsAddrSpec(a)
    ensures ParseContentId(a) == a
    ensures ParseContentId("<" + a + ">") == a
  {
    var k := IndexOf(a, '@');
    DotAtomHas(a[..k]);
    DotAtomHas(a[k + 1..]);
    assert a[0] == a[..k][0] && a[|a| - 1] == a[k + 1..][|a| - k - 2];
    assert SkipBlanks(a) == a && DropTrailingBlanks(a) == a;
    var w := "<" + a + ">";
    assert SkipBlanks(w) == w && DropTrailingBlanks(w) == w;
    assert w[1..|w| - 1] == a;
    AddrSpecOfAddress(a);
  }

  lemma {:induction false} AngleAddrExample(t: string)
    requires t == "<a@b.c>"
    ensures ParseContentId(t) == "a@b.c"
  {
    var a := "a@b.c";
    IndexOfIs(a, '@', 1);
    assert a[..1] == "a" && a[2..] == "b.c";
    assert IsAddrSpec(a);
    assert t == "<" + a + ">";
    ParseAddress(a);
  }

  lemma {:induction false} NoDomainExample(t: string)
    requires t == "<aa>"
    ensures ParseContentId(t) == ""
  {
    assert SkipBlanks(t) == t && DropTrailingBlanks(t) == t;
    var inner := t[1..|t| - 1];
    assert inner == "aa";
    assert SkipBlanks(inner) == inner;
    assert '@' !in inner;
    assert IndexOf(inner, '@') < 0;
  }

  /** The examples the package's tests pin parseContentId down with. */
  lemma ParseContentIdExamples()
    ensures ParseContentId("<a@b.c>") == "a@b.c"
    ensures ParseContentId("<aa>") == ""
    ensures ParseContentId("") == ""
  {
    AngleAddrExample("<a@b.c>");
    NoDomainExample("<aa>");
  }

  lemma {:induction false} TrailingNewlineExample(s: string)
    requires s == "a@b.c\n"
    ensures ParseContentId(s) == ""
  {
    assert SkipBlanks(s) == s && DropTrailingBlanks(s) == s;
    IndexOfIs(s, '@', 1);
    var domain := s[2..];
    assert SkipBlanks(domain) == domain;
    assert !IsAText(domain[3]) && domain[3] != '.';
  }

  lemma {:induction false} BlankAfterAtExample(s: string)
    requires s == "<a@ b.c>"
    ensures ParseContentId(s) == "a@b.c"
  {
    assert SkipBlanks(s) == s && DropTrailingBlanks(s) == s;
    var inner := s[1..|s| - 1];
    assert inner == "a@ b.c";
    assert SkipBlanks(inner) == inner;
    IndexOfIs(inner, '@', 1);
    var local, rest := inner[..1], inner[2..];
    assert local == "a" && rest == " b.c";
    assert SkipBlanks(rest) == rest[1..];
    assert rest[1..] == "b.c";
    assert IsDotAtom(local) && IsDotAtom(rest[1..]);
  }

  /** net/mail skips only spaces and tabs, and skips them after '@' too:
      a trailing newline spoils an address, a blank after '@' does not. */
  lemma BlankExamples()
    ensures ParseContentId("a@b.c\n") == ""
    ensures ParseContentId("<a@ b.c>") == "a@b.c"
  {
    TrailingNewlineExample("a@b.c\n");
    BlankAfterAtExample("<a@ b.c>");
  }

  // ---------------------------------------------------------------------
  // Parts and the root rule of NextPart
  // ---------------------------------------------------------------------

  /** A part as NextPart returns it; `base64` records that its body is
      read through a base64 decoder. */
  datatype Part = Part(header: Header, root: bool, body: seq<byte>, bodyError: Option<string>, base64: bool)

  /** The canonical Content-ID of a raw part. */
  function ContentIdOf(raw: RawPart): string {
    ParseContentId(Get(raw.header, "Content-Id"))
  }

  /** The transfer-encoding switch of NextPart: exactly "base64" is
      hidden from the header and decoded; every other value passes. */
  function TransferDecode(raw: RawPart, root: bool): (p: Part)
    ensures p.root == root && p.body == raw.body && p.bodyError == raw.bodyError
    ensures p.base64 <==> Get(raw.header, "Content-Transfer-Encoding") == "base64"
    ensures p.base64 ==> TransferEncodingKey !in p.header
    ensures !p.base64 ==> p.header == raw.header
    ensures forall k :: k != TransferEncodingKey ==> (k in p.header <==> k in raw.header)
    ensures forall k :: k in p.header ==> p.header[k] == raw.header[k]
  {
    TransferEncodingSpelling();
    if Get(raw.header, "Content-Transfer-Encoding") == "base64" then
      Part(Del(raw.header, "Content-Transfer-Encoding"), root, raw.body, raw.bodyError, true)
    else
      Part(raw.header, root, raw.body, raw.bodyError, false)
  }

  /** A fetched raw part claims the root: with an explicit start, by
      carrying that Content-ID; without one, by being a part at all. */
  predicate Claims(start: string, f: Fetch) {
    f.Next? && (start == "" || ContentIdOf(f.part) == start)
  }

  /** Some part of the history claimed the root: what rootRead records. */
  ghost predicate Claimed(start: string, history: seq<Fetch>) {
    exists k :: 0 <= k < |history| && Claims(start, history[k])
  }

  /** One NextPart over a non-exhausted source: its result and the new rootRead. */
  function Step(start: string, rootRead: bool, f: Fetch): (r: (Result<Part, Error>, bool))
    ensures r.1 == (rootRead || Claims(start, f))
    ensures (r.0.Success? && r.0.value.root) <==> (Claims(start, f) && !rootRead)
    ensures r.0 == Failure(DupRoot) <==> (start != "" && Claims(start, f) && rootRead)
    ensures f.Broken? ==> r.0 == Failure(Transport(f.reason))
    ensures r.0.Failure? ==> r.0.error == DupRoot || (f.Broken? && r.0.error == Transport(f.reason))
    ensures r.0.Success? ==> r.0.value == TransferDecode(f.part, r.0.value.root)
  {
    match f
    case Broken(reason) => (Failure(Transport(reason)), rootRead)
    case Next(raw) =>
      var contentId := ContentIdOf(raw);
      if start != "" && start == contentId then
        if rootRead then (Failure(DupRoot), rootRead)
        else (Success(TransferDecode(raw, true)), true)
      else if !rootRead && start == "" then (Success(TransferDecode(raw, true)), true)
      else (Success(TransferDecode(raw, false)), rootRead)
  }

  /** The result of the NextPart call that fetches f after the history. */
  ghost function Outcome(start: string, history: seq<Fetch>, f: Fetch): Result<Part, Error> {
    Step(start, Claimed(start, history), f).0
  }

  predicate IsRoot(r: Result<Part, Error>) {
    r.Success? && r.value.root
  }

  lemma {:induction false} ClaimedSnoc(start: string, history: seq<Fetch>, f: Fetch)
    ensures Claimed(start, history + [f]) == (Claimed(start, history) || Claims(start, f))
  {
    var h := history + [f];
    if Claims(start, f) {
      assert h[|history|] == f;
    }
    if Claimed(start, history) {
      var k :| 0 <= k < |history| && Claims(start, history[k]);
      assert h[k] == history[k];
    }
    if Claimed(start, h) {
      var k :| 0 <= k < |h| && Claims(start, h[k]);
      if k < |history| {
        assert h[k] == history[k];
      }
    }
  }

  /** Index of the first part that claims the root, or -1. */
  function FirstClaim(start: string, src: seq<Fetch>): (r: int)
    ensures -1 <= r < |src|
    ensures r >= 0 ==> Claims(start, src[r])
    ensures forall k :: 0 <= k < |src| && (r < 0 || k < r) ==> !Claims(start, src[k])
  {
    if src == [] then -1
    else if Claims(start, src[0]) then 0
    else
      var r := FirstClaim(start, src[1..]);
      if r < 0 then -1 else r + 1
  }

  /** The k-th NextPart of a session marks its part root exactly when
      it is the first claimant; a later claimant (explicit start only)
      draws ErrDupRoot. */
  lemma {:induction false} RootIsFirstClaim(start: string, src: seq<Fetch>, j: nat)
    requires j < |src|
    ensures IsRoot(Outcome(start, src[..j], src[j])) <==> j == FirstClaim(start, src)
    ensures Outcome(start, src[..j], src[j]) == Failure(DupRoot)
        <==> start != "" && Claims(start, src[j]) && 0 <= FirstClaim(start, src) < j
  {
    var r := FirstClaim(start, src);
    if 0 <= r < j {
      assert src[..j][r] == src[r];
    }
    if Claimed(start, src[..j]) {
      var k :| 0 <= k < j && Claims(start, src[..j][k]);
      assert src[..j][k] == src[k];
    }
  }

  /** With an explicit start, the root is the first part whose Content-ID
      is start, and every later part with that id draws ErrDupRoot. */
  lemma ExplicitStartRoot(start: string, src: seq<Fetch>, j: nat)
    requires start != "" && j < |src|
    ensures IsRoot(Outcome(start, src[..j], src[j]))
        <==> src[j].Next? && ContentIdOf(src[j].part) == start
             && forall k :: 0 <= k < j ==> !(src[k].Next? && ContentIdOf(src[k].part) == start)
    ensures Outcome(start, src[..j], src[j]) == Failure(DupRoot)
        <==> src[j].Next? && ContentIdOf(src[j].part) == start
             && exists k :: 0 <= k < j && src[k].Next? && ContentIdOf(src[k].part) == start
  {
    RootIsFirstClaim(start, src, j);
    var r := FirstClaim(start, src);
    if 0 <= r < j {
      assert src[r].Next? && ContentIdOf(src[r].part) == start;
    }
  }

  /** Without a start, the first part fetched is the root, no later part
      is, and ErrDupRoot never occurs. */
  lemma FirstPartRoot(src: seq<Fetch>, j: nat)
    requires j < |src|
    ensures IsRoot(Outcome("", src[..j], src[j])) <==> src[j].Next? && forall k :: 0 <= k < j ==> src[k].Broken?
    ensures Outcome("", src[..j], src[j]) != Failure(DupRoot)
  {
    RootIsFirstClaim("", src, j);
    var r := FirstClaim("", src);
    if 0 <= r < j {
      assert src[r].Next?;
    }
  }

  /** At most one part of a session is marked root. */
  lemma AtMostOneRoot(start: string, src: seq<Fetch>, i: nat, j: nat)
    requires i < j < |src|
    ensures !(IsRoot(Outcome(start, src[..i], src[i])) && IsRoot(Outcome(start, src[..j], src[j])))
  {
    RootIsFirstClaim(start, src, i);
    RootIsFirstClaim(start, src, j);
  }

  // ---------------------------------------------------------------------
  // Buffered objects (ReadObject)
  // ---------------------------------------------------------------------

  /** io.Copy of a part into a buffer: a body read error, or a base64
      body that `decode` (encoding/base64) rejects, ends the copy. */
  function Buffer(p: Part, decode: seq<byte> -> Option<seq<byte>>): Result<seq<byte>, Error> {
    if p.bodyError.Some? then Failure(Transport(p.bodyError.value))
    else if p.base64 then
      match decode(p.body)
      case Some(bytes) => Success(bytes)
      case None => Failure(CorruptBase64)
    else Success(p.body)
  }

  /** Where the next buffered content goes: in front when it is the root. */
  function Gather(acc: seq<seq<byte>>, root: bool, content: seq<byte>): (r: seq<seq<byte>>)
    ensures |r| == |acc| + 1
    ensures root ==> r[0] == content && r[1..] == acc
    ensures !root ==> r[..|acc|] == acc && r[|acc|] == content
  {
    if root then [content] + acc else acc + [content]
  }

  /** ReadObject from a given state: the loop over NextPart, with the root
      prepended and every other part appended to what is gathered so far. */
  ghost function Fold(start: string, rootRead: bool, src: seq<Fetch>,
                      decode: seq<byte> -> Option<seq<byte>>, acc: seq<seq<byte>>): Result<seq<seq<byte>>, Error>
    decreases |src|
  {
    if src == [] then Success(acc)
    else
      var res := Step(start, rootRead, src[0]).0;
      if res.Failure? then Failure(res.error)
      else
        var copied := Buffer(res.value, decode);
        if copied.Failure? then Failure(copied.error)
        else Fold(start, Step(start, rootRead, src[0]).1, src[1..], decode, Gather(acc, res.value.root, copied.value))
  }

  /** How many raw parts ReadObject fetches from a given state: all of them
      when it succeeds, up to and including the one whose NextPart or copy
      fails otherwise. */
  function Spent(start: string, rootRead: bool, src: seq<Fetch>,
                 decode: seq<byte> -> Option<seq<byte>>): (n: nat)
    ensures n <= |src|
    ensures src != [] ==> n > 0
    decreases |src|
  {
    if src == [] then 0
    else
      var res := Step(start, rootRead, src[0]).0;
      if res.Failure? || Buffer(res.value, decode).Failure? then 1
      else 1 + Spent(start, Step(start, rootRead, src[0]).1, src[1..], decode)
  }

  /** The buffered content of one raw part, whichever position it takes. */
  function WireContent(f: Fetch, decode: seq<byte> -> Option<seq<byte>>): seq<byte> {
    if f.Next? then
      match Buffer(TransferDecode(f.part, false), decode)
      case Success(content) => content
      case Failure(_) => []
    else []
  }

  /** The buffered contents of raw parts, in wire order. */
  function Contents(src: seq<Fetch>, decode: seq<byte> -> Option<seq<byte>>): (r: seq<seq<byte>>)
    ensures |r| == |src|
  {
    if src == [] then [] else [WireContent(src[0], decode)] + Contents(src[1..], decode)
  }

  lemma {:induction false} ContentsAppend(a: seq<Fetch>, b: seq<Fetch>, decode: seq<byte> -> Option<seq<byte>>)
    ensures Contents(a + b, decode) == Contents(a, decode) + Contents(b, decode)
    decreases |a|
  {
    if a == [] {
      assert a + b == b;
    } else {
      assert (a + b)[0] == a[0];
      assert (a + b)[1..] == a[1..] + b;
      ContentsAppend(a[1..], b, decode);
    }
  }

  /** Buffering does not depend on whether the part was marked root. */
  lemma BufferIgnoresRoot(raw: RawPart, root: bool, decode: seq<byte> -> Option<seq<byte>>)
    ensures Buffer(TransferDecode(raw, root), decode) == Buffer(TransferDecode(raw, false), decode)
  {
  }

  /** One step of Fold: the NextPart outcome, then the copy. */
  lemma FoldUnfold(start: string, rootRead: bool, src: seq<Fetch>,
                   decode: seq<byte> -> Option<seq<byte>>, acc: seq<seq<byte>>)
    requires src != []
    ensures var res := Step(start, rootRead, src[0]).0;
      && res != Failure(EOF)
      && Fold(start, rootRead, src, decode, acc)
         == if res.Failure? then Failure(res.error)
            else if Buffer(res.value, decode).Failure? then Failure(Buffer(res.value, decode).error)
            else Fold(start, rootRead || Claims(start, src[0]), src[1..], decode,
                      Gather(acc, res.value.root, Buffer(res.value, decode).value))
  {
  }

  /** One successful step of Fold, in terms of the fetched part. */
  lemma FoldNext(start: string, rootRead: bool, src: seq<Fetch>,
                 decode: seq<byte> -> Option<seq<byte>>, acc: seq<seq<byte>>)
    requires src != [] && Fold(start, rootRead, src, decode, acc).Success?
    ensures src[0].Next?
    ensures Fold(start, rootRead, src, decode, acc)
         == Fold(start, rootRead || Claims(start, src[0]), src[1..], decode,
                 Gather(acc, !rootRead && Claims(start, src[0]), WireContent(src[0], decode)))
  {
    var res := Step(start, rootRead, src[0]).0;
    BufferIgnoresRoot(src[0].part, res.value.root, decode);
  }

  /** The arrangement ReadObject produces from a given state: when no root
      has been read yet and some part claims it, that part is put in front
      of everything gathered so far and the others keep wire order. */
  function Arranged(start: string, rootRead: bool, src: seq<Fetch>,
                    decode: seq<byte> -> Option<seq<byte>>, acc: seq<seq<byte>>): (r: seq<seq<byte>>)
    ensures |r| == |acc| + |src|
  {
    var r := FirstClaim(start, src);
    if !rootRead && r >= 0
    then [WireContent(src[r], decode)] + acc + Contents(src[..r], decode) + Contents(src[r + 1..], decode)
    else acc + Contents(src, decode)
  }

  /** Gathering the first part and arranging the rest arranges the whole. */
  lemma {:induction false} ArrangedStep(start: string, rootRead: bool, src: seq<Fetch>,
                                        decode: seq<byte> -> Option<seq<byte>>, acc: seq<seq<byte>>)
    requires src != []
    ensures Arranged(start, rootRead, src, decode, acc)
         == Arranged(start, rootRead || Claims(start, src[0]), src[1..], decode,
                     Gather(acc, !rootRead && Claims(start, src[0]), WireContent(src[0], decode)))
  {
    var w := WireContent(src[0], decode);
    if !rootRead && Claims(start, src[0]) {
      assert Gather(acc, true, w) == [w] + acc;
      ArrangedClaimant(start, src, decode, acc);
    } else if !rootRead && FirstClaim(start, src[1..]) >= 0 {
      assert Gather(acc, false, w) == acc + [w];
      ArrangedLater(start, src, decode, acc);
    } else {
      assert Gather(acc, false, w) == acc + [w];
      ArrangedInOrder(start, rootRead, src, decode, acc);
    }
  }

  /** The first part claims the root: it goes in front of what was gathered. */
  lemma {:induction false} ArrangedClaimant(start: string, src: seq<Fetch>,
                                            decode: seq<byte> -> Option<seq<byte>>, acc: seq<seq<byte>>)
    requires src != [] && Claims(start, src[0])
    ensures Arranged(start, false, src, decode, acc)
         == Arranged(start, true, src[1..], decode, [WireContent(src[0], decode)] + acc)
  {
    var w := WireContent(src[0], decode);
    ArrangedAt(start, src, decode, acc, 0);
    assert src[..0] == [] && src[0 + 1..] == src[1..];
    ArrangedWithout(start, true, src[1..], decode, [w] + acc);
    EmptyMiddle([w] + acc, Contents(src[..0], decode), Contents(src[1..], decode));
  }

  /** A later part claims the root: the first part keeps its wire position. */
  lemma {:induction false} ArrangedLater(start: string, src: seq<Fetch>,
                                         decode: seq<byte> -> Option<seq<byte>>, acc: seq<seq<byte>>)
    requires src != [] && !Claims(start, src[0]) && FirstClaim(start, src[1..]) >= 0
    ensures Arranged(start, false, src, decode, acc)
         == Arranged(start, false, src[1..], decode, acc + [WireContent(src[0], decode)])
  {
    var w := WireContent(src[0], decode);
    var r' := FirstClaim(start, src[1..]);
    var r := r' + 1;
    FirstClaimLater(start, src);
    SliceTail(src, r');
    ContentsAppend([src[0]], src[1..][..r'], decode);
    assert Contents([src[0]], decode) == [w];
    ArrangedAt(start, src, decode, acc, r);
    ArrangedAt(start, src[1..], decode, acc + [w], r');
    MoveFirst([WireContent(src[r], decode)], acc, w, Contents(src[1..][..r'], decode), Contents(src[r + 1..], decode));
  }

  /** A first part that does not claim the root shifts the first claim by one. */
  lemma FirstClaimLater(start: string, src: seq<Fetch>)
    requires src != [] && !Claims(start, src[0]) && FirstClaim(start, src[1..]) >= 0
    ensures FirstClaim(start, src) == FirstClaim(start, src[1..]) + 1
  {
  }

  /** Slicing identities relating src to src[1..]; they model nothing. */
  lemma SliceTail<T>(src: seq<T>, r': nat)
    requires r' + 1 < |src|
    ensures src[r' + 1] == src[1..][r']
    ensures src[..r' + 1] == [src[0]] + src[1..][..r']
    ensures src[r' + 1 + 1..] == src[1..][r' + 1..]
  {
  }

  /** No root is still to come: every part keeps its wire position. */
  lemma {:induction false} ArrangedInOrder(start: string, rootRead: bool, src: seq<Fetch>,
                                           decode: seq<byte> -> Option<seq<byte>>, acc: seq<seq<byte>>)
    requires src != []
    requires rootRead || (!Claims(start, src[0]) && FirstClaim(start, src[1..]) < 0)
    ensures Arranged(start, rootRead, src, decode, acc)
         == Arranged(start, rootRead || Claims(start, src[0]), src[1..], decode, acc + [WireContent(src[0], decode)])
  {
    var w, rest := WireContent(src[0], decode), Contents(src[1..], decode);
    assert !rootRead ==> FirstClaim(start, src) < 0;
    ArrangedWithout(start, rootRead, src, decode, acc);
    ArrangedWithout(start, rootRead || Claims(start, src[0]), src[1..], decode, acc + [w]);
    assert Contents(src, decode) == [w] + rest;
    AppendCons(acc, w, rest);
  }

  lemma ArrangedAt(start: string, src: seq<Fetch>, decode: seq<byte> -> Option<seq<byte>>, acc: seq<seq<byte>>, r: nat)
    requires FirstClaim(start, src) == r
    ensures Arranged(start, false, src, decode, acc)
         == [WireContent(src[r], decode)] + acc + Contents(src[..r], decode) + Contents(src[r + 1..], decode)
  {
  }

  lemma ArrangedWithout(start: string, rootRead: bool, src: seq<Fetch>, decode: seq<byte> -> Option<seq<byte>>, acc: seq<seq<byte>>)
    requires rootRead || FirstClaim(start, src) < 0
    ensures Arranged(start, rootRead, src, decode, acc) == acc + Contents(src, decode)
  {
  }

  // Sequence identities used by the Arranged proofs; they model nothing.

  lemma EmptyMiddle<T>(a: seq<T>, e: seq<T>, b: seq<T>)
    requires e == []
    ensures a + e + b == a + b
  {
  }

  lemma AppendCons<T>(acc: seq<T>, w: T, rest: seq<T>)
    ensures acc + ([w] + rest) == acc + [w] + rest
  {
  }

  lemma MoveFirst<T>(front: seq<T>, acc: seq<T>, w: T, before: seq<T>, after: seq<T>)
    ensures front + acc + ([w] + before) + after == front + (acc + [w]) + before + after
  {
  }

  /** What ReadObject gathers from any state: every part was fetched
      intact, and the contents are arranged root first. */
  lemma {:induction false} FoldShape(start: string, rootRead: bool, src: seq<Fetch>,
                                     decode: seq<byte> -> Option<seq<byte>>, acc: seq<seq<byte>>)
    requires Fold(start, rootRead, src, decode, acc).Success?
    ensures forall k :: 0 <= k < |src| ==> src[k].Next?
    ensures Fold(start, rootRead, src, decode, acc).value == Arranged(start, rootRead, src, decode, acc)
    decreases |src|
  {
    if src != [] {
      FoldNext(start, rootRead, src, decode, acc);
      var claims := Claims(start, src[0]);
      var acc' := Gather(acc, !rootRead && claims, WireContent(src[0], decode));
      FoldShape(start, rootRead || claims, src[1..], decode, acc');
      ArrangedStep(start, rootRead, src, decode, acc);
      AllNextCons(src);
    }
  }

  lemma AllNextCons(src: seq<Fetch>)
    requires src != [] && src[0].Next?
    requires forall k :: 0 <= k < |src[1..]| ==> src[1..][k].Next?
    ensures forall k :: 0 <= k < |src| ==> src[k].Next?
  {
    forall k | 0 < k < |src| ensures src[k].Next? {
      assert src[k] == src[1..][k - 1];
    }
  }

  /** From a fresh state, a claimant is put in front of the other parts. */
  lemma {:induction false} ArrangedRoot(start: string, src: seq<Fetch>, decode: seq<byte> -> Option<seq<byte>>)
    requires FirstClaim(start, src) >= 0
    ensures var r := FirstClaim(start, src);
      Arranged(start, false, src, decode, [])
        == [WireContent(src[r], decode)] + (Contents(src[..r], decode) + Contents(src[r + 1..], decode))
  {
    var r := FirstClaim(start, src);
    var w, before, after := WireContent(src[r], decode), Contents(src[..r], decode), Contents(src[r + 1..], decode);
    ArrangedAt(start, src, decode, [], r);
    Regroup(w, before, after);
  }

  // A sequence identity used by ArrangedRoot.
  lemma Regroup<T>(w: T, before: seq<T>, after: seq<T>)
    ensures [w] + [] + before + after == [w] + (before + after)
  {
  }

  /** ReadObject on a fresh Reader: one entry per part; the first part
      that claims the root, if any, at index 0; every other part after it
      in wire order. */
  lemma {:induction false} ReadObjectRootFirst(start: string, src: seq<Fetch>, decode: seq<byte> -> Option<seq<byte>>)
    requires Fold(start, false, src, decode, []).Success?
    ensures forall k :: 0 <= k < |src| ==> src[k].Next?
    ensures |Fold(start, false, src, decode, []).value| == |src|
    ensures var values, r := Fold(start, false, src, decode, []).value, FirstClaim(start, src);
      r >= 0 ==> values == [WireContent(src[r], decode)] + (Contents(src[..r], decode) + Contents(src[r + 1..], decode))
    ensures FirstClaim(start, src) < 0 ==> Fold(start, false, src, decode, []).value == Contents(src, decode)
  {
    FoldShape(start, false, src, decode, []);
    if FirstClaim(start, src) >= 0 {
      ArrangedRoot(start, src, decode);
    } else {
      assert [] + Contents(src, decode) == Contents(src, decode);
    }
  }

  /** A fetched raw part can cause the error e: a failed fetch gives its
      own error; a part carrying an explicit start gives ErrDupRoot only
      when the root was claimed before it (prior); a body read error or
      corrupt base64 gives the copy's error. */
  predicate Blame(start: string, prior: bool, f: Fetch, decode: seq<byte> -> Option<seq<byte>>, e: Error) {
    match f
    case Broken(reason) => e == Transport(reason)
    case Next(raw) =>
      || (e == DupRoot && start != "" && ContentIdOf(raw) == start && prior)
      || Buffer(TransferDecode(raw, false), decode) == Failure(e)
  }

  /** A claim before index k + 1 of the source: the state's, the first
      part's, or one in the rest before index k. */
  lemma ClaimedShift(start: string, rootRead: bool, src: seq<Fetch>, k: nat)
    requires k < |src|
    ensures (rootRead || Claims(start, src[0]) || Claimed(start, src[1..][..k]))
         == (rootRead || Claimed(start, src[..k + 1]))
  {
    var h := src[..k + 1];
    assert h == [src[0]] + src[1..][..k];
    if Claimed(start, src[1..][..k]) {
      var j :| 0 <= j < k && Claims(start, src[1..][..k][j]);
      assert h[j + 1] == src[1..][..k][j];
    }
    if Claims(start, src[0]) {
      assert h[0] == src[0];
    }
    if Claimed(start, h) {
      var j :| 0 <= j < |h| && Claims(start, h[j]);
      if j > 0 {
        assert h[j] == src[1..][..k][j - 1];
      }
    }
  }

  /** A failing ReadObject returns no object and an error other than
      io.EOF. The error is caused by the last part it fetched, and it is
      ErrDupRoot only when the state or an earlier part had claimed the
      root. */
  lemma {:induction false} FoldFailure(start: string, rootRead: bool, src: seq<Fetch>,
                                       decode: seq<byte> -> Option<seq<byte>>, acc: seq<seq<byte>>)
    requires Fold(start, rootRead, src, decode, acc).Failure?
    ensures Fold(start, rootRead, src, decode, acc).error != EOF
    ensures var n := Spent(start, rootRead, src, decode);
      && n > 0
      && Blame(start, rootRead || Claimed(start, src[..n - 1]), src[n - 1], decode,
               Fold(start, rootRead, src, decode, acc).error)
    decreases |src|
  {
    var e := Fold(start, rootRead, src, decode, acc).error;
    var res := Step(start, rootRead, src[0]).0;
    if res.Failure? {
      assert Spent(start, rootRead, src, decode) == 1;
      assert !Claimed(start, src[..0]);
    } else {
      BufferIgnoresRoot(src[0].part, res.value.root, decode);
      var copied := Buffer(res.value, decode);
      if copied.Failure? {
        assert Spent(start, rootRead, src, decode) == 1;
      } else {
        var acc' := Gather(acc, res.value.root, copied.value);
        var rr' := Step(start, rootRead, src[0]).1;
        FoldFailure(start, rr', src[1..], decode, acc');
        SpentNext(start, rootRead, src, decode);
        var k := Spent(start, rr', src[1..], decode) - 1;
        assert src[k + 1] == src[1..][k];
        ClaimedShift(start, rootRead, src, k);
      }
    }
  }

  /** Spent over a first part that is fetched and copied successfully. */
  lemma SpentNext(start: string, rootRead: bool, src: seq<Fetch>, decode: seq<byte> -> Option<seq<byte>>)
    requires src != []
    requires Step(start, rootRead, src[0]).0.Success? && Buffer(Step(start, rootRead, src[0]).0.value, decode).Success?
    ensures Spent(start, rootRead, src, decode) == 1 + Spent(start, Step(start, rootRead, src[0]).1, src[1..], decode)
  {
  }

  /** A buffered component of the object, read through a cursor. */
  class ObjectHeader {
    const content: seq<byte>
    /** The current reading index. */
    var i: nat

    ghost predicate Valid()
      reads this
    {
      i <= |content|
    }

    constructor (content: seq<byte>)
      ensures this.content == content && i == 0 && Valid()
    {
      this.content := content;
      this.i := 0;
    }

    /** Read: copies the next bytes into b and advances the cursor, so
        that successive reads deliver content once, in order. */
    method Read(b: array<byte>) returns (n: nat, err: Option<Error>)
      requires Valid()
      modifies this, b
      ensures Valid()
      ensures b.Length == 0 ==> n == 0 && err == None && i == old(i)
      ensures b.Length > 0 && old(i) == |content| ==> n == 0 && err == Some(EOF) && i == old(i)
      ensures b.Length > 0 && old(i) < |content| ==>
        err == None && n == Min(b.Length, |content| - old(i)) && i == old(i) + n
      ensures content[..i] == content[..old(i)] + b[..n]
      ensures b[n..] == old(b[n..])
    {
      if b.Length == 0 {
        return 0, None;
      }
      if i >= |content| {
        return 0, Some(EOF);
      }
      n := Min(b.Length, |content| - i);
      forall k | 0 <= k < n {
        b[k] := content[i + k];
      }
      i := i + n;
      err := None;
    }
  }

  /** Reading an ObjectHeader through a one-byte buffer delivers its
      bytes one after the other and then io.EOF. */
  method SuccessiveReads() returns (first: seq<byte>, second: seq<byte>, err3: Option<Error>)
    ensures first == [50] && second == [53]
    ensures err3 == Some(EOF)
  {
    var content: seq<byte> := [50, 53];
    var oh := new ObjectHeader(content);
    assert content[..1] == [50] && content[1..2] == [53];
    var p := new byte[1];
    var n, err := oh.Read(p);
    first := p[..n];
    assert oh.content[..1] == [] + first;
    n, err := oh.Read(p);
    second := p[..n];
    assert oh.content[..2] == oh.content[..1] + second;
    assert second == content[1..2];
    n, err3 := oh.Read(p);
  }

  /** The contents of buffered objects, in order. */
  function ContentsOf(values: seq<ObjectHeader>): (r: seq<seq<byte>>)
    ensures |r| == |values|
    ensures forall k :: 0 <= k < |values| ==> r[k] == values[k].content
  {
    seq(|values|, k requires 0 <= k < |values| => values[k].content)
  }

  /** Buffering one more object gathers its content. */
  lemma ContentsOfGather(values: seq<ObjectHeader>, oh: ObjectHeader, root: bool)
    ensures ContentsOf(if root then [oh] + values else values + [oh]) == Gather(ContentsOf(values), root, oh.content)
  {
  }

  // ---------------------------------------------------------------------
  // The Reader
  // ---------------------------------------------------------------------

  /** A value of the parameter map, "" when absent (Go's map lookup). */
  function Param(params: map<string, string>, key: string): string {
    if key in params then params[key] else ""
  }

  /** Moving the first fetch of the source to the history keeps their concatenation. */
  lemma Shift(history: seq<Fetch>, src: seq<Fetch>)
    requires src != []
    ensures (history + [src[0]]) + src[1..] == history + src
  {
    assert src == [src[0]] + src[1..];
  }

  /** Reader: an iterator over the parts of a multipart/related body. */
  class Reader {
    /** Canonical Content-ID of the root; "" when the body names none. */
    const start: string
    const mediaType: string
    const startInfo: string
    /** The raw parts the underlying multipart reader has still to deliver. */
    var source: seq<Fetch>
    var rootRead: bool
    /** The raw parts fetched so far, in wire order. */
    ghost var consumed: seq<Fetch>

    ghost predicate Valid()
      reads this
    {
      rootRead == Claimed(start, consumed)
    }

    /** NewReader: `params` are the parameters of the body's Content-Type. */
    constructor (source: seq<Fetch>, params: map<string, string>)
      ensures Valid()
      ensures start == ParseContentId(Param(params, "start"))
      ensures mediaType == Param(params, "type") && startInfo == Param(params, "start-info")
      ensures this.source == source && consumed == [] && !rootRead
    {
      this.start := ParseContentId(Param(params, "start"));
      this.mediaType := Param(params, "type");
      this.startInfo := Param(params, "start-info");
      this.source := source;
      this.rootRead := false;
      this.consumed := [];
    }

    /** NextPart: the next part, io.EOF once the source is exhausted. */
    method NextPart() returns (res: Result<Part, Error>)
      requires Valid()
      modifies this
      ensures Valid()
      ensures old(source) == [] ==>
        res == Failure(EOF) && source == [] && consumed == old(consumed) && rootRead == old(rootRead)
      ensures old(source) != [] ==>
        && source == old(source)[1..]
        && consumed == old(consumed) + [old(source)[0]]
        && rootRead == (old(rootRead) || Claims(start, old(source)[0]))
        && res == Outcome(start, old(consumed), old(source)[0])
    {
      if source == [] {
        return Failure(EOF);
      }
      var fetch := source[0];
      source := source[1..];
      consumed := consumed + [fetch];
      ClaimedSnoc(start, old(consumed), fetch);
      match fetch
      case Broken(reason) =>
        return Failure(Transport(reason));
      case Next(wrap) =>
        var header := wrap.header;
        var root := false;
        var contentId := ParseContentId(Get(header, "Content-Id"));
        if start != "" && start == contentId {
          if rootRead {
            return Failure(DupRoot);
          } else {
            root := true;
            rootRead := true;
          }
        } else if !rootRead && start == "" {
          root := true;
          rootRead := true;
        }
        var base64 := false;
        if Get(header, "Content-Transfer-Encoding") == "base64" {
          header := Del(header, "Content-Transfer-Encoding");
          base64 := true;
        }
        return Success(Part(header, root, wrap.body, wrap.bodyError, base64));
    }
 
    /** ReadObject: gathers every remaining part, root first. */
    method ReadObject(decode: seq<byte> -> Option<seq<byte>>) returns (res: Result<seq<ObjectHeader>, Error>)
      requires Valid()
      modifies this
      ensures Valid()
      ensures var spec := Fold(start, old(rootRead), old(source), decode, []);
        && res.Success? == spec.Success?
        && (res.Failure? ==> res.error == spec.error)
        && (res.Success? ==> ContentsOf(res.value) == spec.value)
      ensures res.Success? ==> fresh(set o | o in res.value)
      ensures consumed + source == old(consumed) + old(source)
      ensures |source| == |old(source)| - Spent(start, old(rootRead), old(source), decode)
      ensures res.Success? ==> source == [] && consumed == old(consumed) + old(source)
    {
      var values: seq<ObjectHeader> := [];
      while true
        invariant Valid()
        invariant Fold(start, old(rootRead), old(source), decode, []) == Fold(start, rootRead, source, decode, ContentsOf(values))
        invariant fresh(set o | o in values)
        invariant consumed + source == old(consumed) + old(source)
        invariant Spent(start, old(rootRead), old(source), decode) == |old(source)| - |source| + Spent(start, rootRead, source, decode)
        decreases |source|
      {
        ghost var acc, rr, src, seen := ContentsOf(values), rootRead, source, consumed;
        var p := NextPart();
        if p == Failure(EOF) {
          if src != [] {
            FoldUnfold(start, rr, src, decode, acc);
          }
          break;
        }
        Shift(seen, src);
        FoldUnfold(start, rr, src, decode, acc);
        assert p == Step(start, rr, src[0]).0;
        if p.Failure? {
          assert Fold(start, rr, src, decode, acc) == Failure(p.error);
          assert Spent(start, rr, src, decode) == 1;
          return Failure(p.error);
        }
        var copied := Buffer(p.value, decode);
        if copied.Failure? {
          assert Fold(start, rr, src, decode, acc) == Failure(copied.error);
          assert Spent(start, rr, src, decode) == 1;
          return Failure(copied.error);
        }
        var oh := new ObjectHeader(copied.value);
        ghost var before := values;
        if p.value.root {
          values := [oh] + values;
        } else {
          values := values + [oh];
        }
        ContentsOfGather(before, oh, p.value.root);
        assert Fold(start, rr, src, decode, acc) == Fold(start, rootRead, source, decode, ContentsOf(values));
        assert Spent(start, rr, src, decode) == 1 + Spent(start, rootRead, source, decode);
        assert |source| < |src|;
      }
      return Success(values);
    }
  }
}
