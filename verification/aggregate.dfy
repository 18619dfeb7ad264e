/**
 * The earlier top-level package `mrelated` (multipart.go): a reader that
 * buffers every part of a multipart message into an Aggregate, keeping
 * each part's raw Content-ID and header, with no root handling and no
 * transfer decoding.
 */
module Aggregate {
  import opened Wrappers
  import opened Mime
  import opened RelatedReader

  /** ObjectHeader: one buffered part. */
  datatype ObjectHeader = ObjectHeader(contentId: string, header: Header, content: seq<byte>)
  {
    /** Read: a fresh bytes.Reader over the content on every call, so
        each call copies from offset 0; io.EOF once the copy reaches the
        end of the content. */
    method Read(p: array<byte>) returns (n: nat, err: Option<Error>)
      modifies p
      ensures n == Min(p.Length, |content|)
      ensures p[..n] == content[..n]
      ensures p[n..] == old(p[n..])
      ensures err == (if n >= |content| then Some(EOF) else None)
    {
      if |content| == 0 {
        return 0, Some(EOF);
      }
      n := Min(p.Length, |content|);
      forall k | 0 <= k < n {
        p[k] := content[k];
      }
      if n >= |content| {
        return n, Some(EOF);
      }
      return n, None;
    }

    /** String: the content as a Go string, one character per byte. */
    function String(): (s: string)
      ensures |s| == |content|
      ensures forall i | 0 <= i < |s| :: s[i] as int == content[i]
    {
      seq(|content|, i requires 0 <= i < |content| => content[i] as char)
    }
  }

  /** The entry ReadAggregate makes of one part: the Content-ID exactly as
      the header spells it, the header itself, and the body bytes as they
      arrived (a failure while copying the body is dropped). */
  function Entry(raw: RawPart): ObjectHeader {
    ObjectHeader(Get(raw.header, "Content-ID"), raw.header, raw.body)
  }

  /** Index of the first fetch that failed, or -1. */
  function FirstBroken(src: seq<Fetch>): (r: int)
    ensures -1 <= r < |src|
    ensures r >= 0 ==> src[r].Broken?
    ensures forall k | 0 <= k < |src| && (r < 0 || k < r) :: src[k].Next?
  {
    if src == [] then -1
    else if src[0].Broken? then 0
    else
      var r := FirstBroken(src[1..]);
      assert forall k | 1 <= k < |src| :: src[k] == src[1..][k - 1];
      if r < 0 then -1 else r + 1
  }

  /** What ReadAggregate returns for the parts still to be fetched: one
      entry per part, in wire order, or the error of the first fetch that
      failed. */
  function Aggregated(src: seq<Fetch>): (r: Result<seq<ObjectHeader>, Error>)
    ensures r.Success? <==> FirstBroken(src) < 0
    ensures r.Success? ==> |r.value| == |src| && forall k | 0 <= k < |src| :: r.value[k] == Entry(src[k].part)
    ensures r.Failure? ==> r.error == Transport(src[FirstBroken(src)].reason)
  {
    if src == [] then Success([])
    else if src[0].Broken? then Failure(Transport(src[0].reason))
    else
      match Aggregated(src[1..])
      case Failure(e) => Failure(e)
      case Success(rest) =>
        assert forall k | 1 <= k < |src| :: src[k] == src[1..][k - 1];
        Success([Entry(src[0].part)] + rest)
  }

  /** ReadAggregate keeps what the related Reader rewrites: for a part
      whose Content-ID is `<a>` the entry's id keeps the brackets while the
      related Reader reads the address a; a base64 part keeps its transfer
      encoding and its encoded body, while the related Reader drops the
      header entry and marks the body for decoding. */
  lemma AggregateKeepsRaw(raw: RawPart, a: string)
    requires IsAddrSpec(a) && Get(raw.header, "Content-ID") == "<" + a + ">"
    ensures Entry(raw).contentId == "<" + a + ">" && ContentIdOf(raw) == a
    ensures Get(raw.header, "Content-Transfer-Encoding") == "base64" ==>
      && Entry(raw).header == raw.header && Entry(raw).content == raw.body
      && TransferDecode(raw, false).base64
      && Get(TransferDecode(raw, false).header, "Content-Transfer-Encoding") == ""
  {
    CanonicalSpellings();
    ParseAddress(a);
  }

  /** Reader: the generic multipart reader, as the parts it will deliver. */
  class Reader {
    var source: seq<Fetch>

    constructor (source: seq<Fetch>)
      ensures this.source == source
    {
      this.source := source;
    }

    /** ReadAggregate: buffers every part; stops at io.EOF, or returns the
        first other error and no aggregate. */
    method ReadAggregate() returns (o: Result<seq<ObjectHeader>, Error>)
      modifies this
      ensures o == Aggregated(old(source))
      ensures o.Success? ==> source == []
      ensures o.Failure? ==> source == old(source)[FirstBroken(old(source)) + 1..]
    {
      var objects: seq<ObjectHeader> := [];
      while true
        invariant |objects| <= |old(source)|
        invariant source == old(source)[|objects|..]
        invariant forall k | 0 <= k < |objects| :: old(source)[k].Next? && objects[k] == Entry(old(source)[k].part)
        decreases |source|
      {
        if source == [] {
          break;
        }
        var fetch := source[0];
        source := source[1..];
        match fetch
        case Broken(reason) =>
          assert FirstBroken(old(source)) == |objects|;
          return Failure(Transport(reason));
        case Next(p) =>
          var contentId := Get(p.header, "Content-ID");
          var oh := ObjectHeader(contentId, p.header, p.body);
          objects := objects + [oh];
      }
      var spec := Aggregated(old(source));
      assert FirstBroken(old(source)) < 0;
      assert spec.Success? && |spec.value| == |objects|;
      assert spec.value == objects;
      return Success(objects);
    }
  }

  /** Reading an ObjectHeader twice through a one-byte buffer yields its
      first byte twice, and neither call reports io.EOF: a caller that
      reads content longer than its fixed buffer until io.EOF never gets
      past the first bytes. A buffer at least as long as the content (as
      io.ReadAll's first 512-byte read is for short content) gets the
      whole content and io.EOF in one call. */
  method RereadExample() returns (first: seq<byte>, second: seq<byte>, err1: Option<Error>, err2: Option<Error>)
    ensures first == [50] && second == [50]
    ensures err1 == None && err2 == None
  {
    var oh := ObjectHeader("", map[], [50, 53]);
    var p := new byte[1];
    var n;
    n, err1 := oh.Read(p);
    first := p[..n];
    n, err2 := oh.Read(p);
    second := p[..n];
  }
}
