# multipart/related in Dafny

A model of the Go package `multipart-related`, which implements the
`multipart/related` content type of RFC 2387 on top of Go's generic
`mime/multipart` reader and writer. It has three parts:

- **The related Reader** (`related/multipart.go`) walks the raw parts of a
  body. It picks the root (section 3.2 of RFC 2387): the part whose
  Content-ID is the `start` parameter, or the first part when there is no
  `start`. It refuses a second root with `ErrDupRoot`. A part whose
  Content-Transfer-Encoding is `base64` loses that header and is read
  through a decoder. `ReadObject` buffers the whole compound object, root
  first, and each buffered `ObjectHeader` is read through a cursor.
- **The related Writer** (`related/writer.go`) holds the parameters of the
  compound object: `start`, `type`, `start-info`, the root's type and two
  progress flags. `CreateRoot` and `CreatePart` stamp each part's header
  and update those fields. `Close` refuses when the object's type and the
  root's type differ. `FormDataContentType` builds the parameter map, with
  `escapeQuotes` applied to `type` and `start-info`.
- **The older aggregate reader** (`multipart.go`) buffers every part in
  wire order. It keeps the raw Content-ID and header and does no decoding.
  Its `ObjectHeader.Read` starts again at offset 0 on every call.

Files:

- `wrappers.dfy`: `Option` and `Result`.
- `mime.dfy`: what the package observes of Go's standard library. This
  covers `textproto.MIMEHeader` with canonical keys, the raw parts that
  `mime/multipart` delivers, the validity check of `mime.ParseMediaType`,
  and the error values.
- `related_reader.dfy`: the related Reader.
- `related_writer.dfy`: the related Writer.
- `aggregate.dfy`: the aggregate reader.

The raw multipart stream is a sequence of `Fetch` values, one per call of
the underlying `NextPart`. Each is either a part (header, body bytes, and
an optional error that ends the body early) or a failed fetch. Stateful
Go objects are Dafny classes: the two Readers, the Writer and the related
`ObjectHeader` with its cursor. The methods of these classes are proved
against specification functions: `Step`/`Fold` for reading and
`Aggregated` for the aggregate reader. The properties are proved as lemmas
about those functions.

In two places the code does not do what the package's own comments and
tests expect. The model follows the code:

- `formatContentId` returns its argument unchanged and never fails
  (related/writer.go:91-98). Its doc comment (related/writer.go:89-90)
  says it parses the id and formats it as RFC 5322 specifies. The tests
  expect `a@b.c` to come back as `<a@b.c>` (related/writer_test.go:174,
  :312) and `aa`, `<aa>` and "" to be refused (related/writer_test.go:175,
  :313-314).
- `CreatePart` sets the compound object's type on every call
  (related/writer.go:200). The field comment at related/writer.go:45 says
  `firstPart` is what lets a part set that type when there is no root, and
  the block at related/writer.go:213-217 does so only when `firstPart` is
  false. The earlier call at line 200 has already done it for every part.

## Model

| member | source | states |
|---|---|---|
| Mime.Get | related/multipart.go:90 | `MIMEHeader.Get` gives the first value of the canonical key, and "" when the key is missing |
| Mime.Set | related/writer.go:165 | `MIMEHeader.Set` adds the canonical key if missing, makes the one value its only value (so `Get` gives it), and leaves every other key and its values as they were |
| Mime.Del | related/multipart.go:106 | `MIMEHeader.Del` removes the canonical key, so `Get` then gives "", and leaves every other entry as it was |
| Mime.CanonicalSpellings | related/multipart.go:90 | "Content-ID" (written by the Writer) and "Content-Id" (read by the Reader) name the same canonical key. The keys Content-Type and Content-Transfer-Encoding are canonical as spelled |
| Mime.DefaultMediaTypeOk | related/writer.go:20 | `DefaultMediaType`, "text/plain; charset=utf-8", passes `mime.ParseMediaType`, so falling back to it never fails |
| Mime.TypeSubtype | related/writer.go:102 | a media type `type/subtype` made of two tokens is accepted |
| Mime.OneParam | related/writer.go:102 | ` attribute=value` made of two tokens is an accepted parameter list |
| Mime.TypeSubtypeParams | related/writer.go:102 | `type/subtype;params` is accepted when its two tokens and its parameters are |
| Mime.ParamWithoutEquals | related/writer.go:102 | `type;word`, a parameter without '=', is refused |
| Mime.MediaTypeExamples | related/writer_test.go:88-217 | "a/b" and "application/json" are accepted; ";", "dont;panic" and "" are refused |
| RelatedReader.ParseContentId | related/multipart.go:166-172 | the Content-ID is either "" or an address; it never fails. Spaces and tabs are skipped around the whole, before the local part and after '@', and nowhere else |
| RelatedReader.BlankExamples | related/multipart.go:166-172 | `a@b.c` followed by a newline gives "", since only spaces and tabs are skipped; `<a@ b.c>` gives `a@b.c` |
| RelatedReader.ParseAddress | related/multipart.go:166-172 | an address parses to itself, both bare and between angle brackets |
| RelatedReader.ParseContentIdExamples | related/multipart_test.go:225-241 | `<a@b.c>` gives `a@b.c`; `<aa>` and "" give "" |
| RelatedReader.TransferDecode | related/multipart.go:104-110 | a Content-Transfer-Encoding of exactly "base64" is removed from the header and the body is marked for decoding. Any other value leaves the header untouched. The body and every other key are kept |
| RelatedReader.Step | related/multipart.go:80-114 | a fetch is marked root iff it claims the root and no root was read. ErrDupRoot comes iff start is set, the part claims it and a root was already read. A failed fetch passes its error on. rootRead only ever becomes true |
| RelatedReader.RootIsFirstClaim | related/multipart.go:91-101 | the j-th NextPart of a session marks root iff j is the first claimant, and returns ErrDupRoot iff it is a later claimant under an explicit start |
| RelatedReader.ExplicitStartRoot | related/multipart.go:91-97 | with a start, the root is the first part whose Content-ID is start; every later part with that id draws ErrDupRoot |
| RelatedReader.FirstPartRoot | related/multipart.go:98-101 | without a start, the first part fetched is root, no later part is, and ErrDupRoot never occurs |
| RelatedReader.AtMostOneRoot | related/multipart.go:91-101 | two different NextPart calls of one session never both mark root |
| RelatedReader.FoldShape | related/multipart.go:123-151 | a successful ReadObject fetched only parts. When no root has been read yet, it gathers the first claimant in front of what was gathered and every other part behind it in wire order; otherwise every part goes behind in wire order |
| RelatedReader.ReadObjectRootFirst | related/multipart.go:123-151 | on a fresh Reader, a successful ReadObject has one entry per part; the first claimant is at index 0, followed by the other parts in wire order; with no claimant, it is wire order |
| RelatedReader.FoldFailure | related/multipart.go:126-137 | a failing ReadObject returns an error that is never io.EOF. The error is caused by the last part it fetched: a failed fetch, a body read error, corrupt base64, or a duplicate root, and a duplicate root only when the state or an earlier fetched part had already claimed the root |
| RelatedReader.ObjectHeader.constructor | related/multipart.go:139-141 | a buffered component starts with its cursor at 0 |
| RelatedReader.ObjectHeader.Read | related/multipart.go:154-164 | an empty buffer gives (0, nil) and keeps the cursor. A cursor at the end gives (0, EOF). Otherwise it copies min(len(b), len(content)-i) bytes of content[i:] and advances i by that count. 0 <= i <= len(content) is kept, and the bytes read so far are the prefix content[..i] |
| RelatedReader.SuccessiveReads | related/multipart.go:154-164 | reads through a one-byte buffer deliver the content's bytes one after the other, then io.EOF |
| RelatedReader.Reader.constructor | related/multipart.go:43-54 | NewReader takes start (parsed), type and start-info from the parameters; nothing is fetched and no root has been read |
| RelatedReader.Reader.NextPart | related/multipart.go:80-114 | on an exhausted source it gives io.EOF and changes nothing. Otherwise it consumes one fetch, returns `Step`'s result for it, and keeps rootRead equal to "some fetched part claimed the root" |
| RelatedReader.Reader.ReadObject | related/multipart.go:123-151 | succeeds iff `Fold` does, with the same error; on success, the buffered contents are `Fold`'s, in freshly allocated objects. The parts it fetched move from the source to the history in order: all of them on success (the source is then exhausted), and on failure those up to and including the one that failed (`Spent`) |
| RelatedWriter.StartRoundTrip | related/writer.go:79-87 | a start address set on a Writer is read back unchanged by a Reader's parseContentId |
| RelatedWriter.EscapeQuotes | related/writer.go:231-235 | the output is longer than the input by the number of backslashes and double quotes in it |
| RelatedWriter.UnescapeEscape | related/writer.go:231-235 | reading the output as a quoted-string body gives back the input |
| RelatedWriter.EscapeQuotesPlain | related/writer.go:231-235 | the output equals the input iff the input holds no backslash and no double quote |
| RelatedWriter.EscapeQuotesExample | related/writer_test.go:262-276 | `-o p"s` is written as `-o p\"s` |
| RelatedWriter.StampContents | related/writer.go:165-172 | a created part's header has the caller's keys plus Content-Type and (when an id is given) Content-ID. Content-Type holds exactly the type; Content-ID holds exactly the id, or is left as the caller gave it when the id is empty. Every other entry is kept as given |
| RelatedWriter.Writer.constructor | related/writer.go:54-60 | a new Writer has no parameters set, no part and no root |
| RelatedWriter.Writer.SetStart | related/writer.go:79-87 | stores the formatted id and never fails; nothing else changes |
| RelatedWriter.Writer.SetType | related/writer.go:101-108 | succeeds iff the type is parseable. On success it stores the type verbatim. On failure it returns the error and leaves mediaType unchanged. No other field changes |
| RelatedWriter.Writer.SetStartInfo | related/writer.go:111-113 | stores its argument verbatim; nothing else changes |
| RelatedWriter.Writer.FormDataParams | related/writer.go:118-134 | always holds boundary. It holds start, type and start-info iff the field is non-empty. type and start-info are quote-escaped; start is not |
| RelatedWriter.Writer.CreateRoot | related/writer.go:144-179 | with a root already created, gives ErrRootExists. An unparseable effective type gives its error. Either error changes no field. On success, mediaType == rootMediaType == the effective type; start is set when an id is given; firstPart and rootPart are true; one part with the stamped header is created |
| RelatedWriter.Writer.CreatePart | related/writer.go:182-219 | an unparseable effective type gives its error and changes nothing. On success the type is stamped into the header and becomes mediaType, and firstPart is true. rootMediaType, rootPart and start never change |
| RelatedWriter.Writer.Close | related/writer.go:222-227 | gives ErrTypeMatch iff mediaType != rootMediaType, otherwise nil; it changes no field, so repeated calls agree |
| RelatedWriter.RootThenClose | related/writer.go:222-227 | a Writer whose only part is a successfully created root closes cleanly |
| RelatedWriter.RetypeAfterRoot | related/writer.go:222-225 | a SetType to another type after the root makes Close give ErrTypeMatch |
| RelatedWriter.PartAfterRoot | related/writer.go:200-203 | a part of another type created after the root overwrites the object's type, so Close gives ErrTypeMatch |
| RelatedWriter.PartsWithoutRootNeverClose | related/writer.go:213-217 | once a part but no root was created, mediaType != rootMediaType, so Close fails |
| RelatedWriter.ParamsReadBack | related/writer.go:118-134 | a Reader built from the announced parameters (related/multipart.go:49-51) holds the Writer's start address unchanged, and the quote-escaped type and start-info: nothing on the reading side undoes the escaping |
| RelatedWriter.StampedRootClaims | related/writer.go:168-173 | a part created with the id announced as start is the part a Reader of those parameters takes for the root |
| Aggregate.ObjectHeader.Read | multipart.go:79-86 | copies n = min(len(p), len(content)) bytes from offset 0 and keeps no cursor; io.EOF iff n >= len(content) |
| Aggregate.ObjectHeader.String | multipart.go:88-90 | one character per content byte, with the same code |
| Aggregate.Aggregated | multipart.go:34-64 | succeeds iff no fetch fails, with one entry per part in wire order. Otherwise it gives the first failed fetch's error |
| Aggregate.AggregateKeepsRaw | multipart.go:47-58 | the entry keeps the raw Content-ID, brackets included, and a base64 part's header and encoded body. The related Reader reads the bare address and drops the encoding header |
| Aggregate.Reader.constructor | multipart.go:29-31 | NewReader starts with every part of the body still to be read |
| Aggregate.Reader.ReadAggregate | multipart.go:34-64 | returns `Aggregated` of the pending parts; on success the source is exhausted, on failure it stops just after the failed fetch |
| Aggregate.RereadExample | multipart.go:79-86 | two reads through a one-byte buffer both give the first byte and neither gives io.EOF |

## Left out

- The boundary-delimited reader and writer of `mime/multipart` (section 5.1 of RFC 2046) are not modelled. The input is a sequence of fetched raw parts, and the output is the list of part headers the Writer created. Byte-exact wire output, `Boundary`, `SetBoundary` and its 1-69 byte check are not modelled; the boundary is a constructor parameter.
- Streaming `io.Reader` and `io.Writer` plumbing is not modelled, and neither is `Part.Read`. A part's body is the bytes it can deliver plus an optional error that ends the copy. The writers returned by `CreateRoot` and `CreatePart` are not modelled.
- Base64 decoding (`encoding/base64`, section 4 of RFC 4648) is the parameter `decode` of `ReadObject`. It returns the decoded bytes or nothing for corrupt input.
- Buffer: reports every decoding failure as the one error `CorruptBase64`. Go's decoder gives `base64.CorruptInputError` for a corrupt quantum but `io.ErrUnexpectedEOF` for a truncated final quantum.
- Buffer: reports a body read error ahead of any decoding failure. Go decodes as it reads, so a corrupt quantum that arrives before the read error is reported first, as `base64.CorruptInputError`.
- ParseContentId: approximates `net/mail.ParseAddress` by a bare addr-spec or an angle-addr whose local part and domain are dot-atoms (RFC 5322 sections 3.2.3 and 3.4.1). It leaves out display names, quoted local parts, domain literals and comments. Spaces and tabs are skipped only where `net/mail` skips them without a comment: around the whole, before the local part and after '@'; folding white space (CRLF followed by a blank) is refused.
- MediaTypeOk: approximates the validity half of `mime.ParseMediaType`. It covers a token with an optional `/token`, then `attribute=value` parameters whose attribute and value are tokens. A quoted-string value, which Go accepts, is refused by the model. RFC 2231 continuations and duplicate parameters are not checked. The white space it trims is ASCII only; `strings.TrimSpace` also trims U+0085 and U+00A0, which the model keeps. `mime.FormatMediaType` is not modelled; `FormDataParams` stops at the parameter map.
- ParseContentId: takes atext to be ASCII. `net/mail` also accepts non-ASCII characters in atext (RFC 6532), which the model refuses.
- The underlying `multipart.Writer` is assumed never to fail. In Go, an error from it (related/writer.go:178, :218, :226) is returned after `rootPart`, `firstPart` and `mediaType` have already changed; the model's `CreateRoot`, `CreatePart` and `Close` do not have that outcome.
- Headers are values (`map`). The Go code's `header.Set` on a caller's map also changes that caller's map; the model does not capture this aliasing.
- Reader.ReadObject: does not state that each returned object's cursor is at 0, nor that it satisfies `ObjectHeader.Valid`, although the `ObjectHeader` constructor establishes both. Carrying that fact through the loop makes the proof exceed the resource limit. As a result, no verified caller can call `ObjectHeader.Read`, which requires `Valid()`, on ReadObject's results.
- Writer.Valid: does not include the fact that a stored mediaType parses; each `SetType` call states it instead.
- CreatePart is modelled with two arguments, `(contentId, header)`. As written, related/writer.go:182-188 declares a `mediaType` parameter and then redeclares it, so it does not compile. Line 188 is taken as the local default.
- `CreateRoot("", "a/b", nil)` followed by `CreatePart("", nil)` makes `Close` give ErrTypeMatch as the code stands. CreatePart sets mediaType to the part's type, "text/plain; charset=utf-8", while rootMediaType keeps "a/b". related/writer_test.go:24-37 expects `Close` to succeed; the model follows the code (`PartAfterRoot`).
- The expectation of related/writer_test.go:93 that `CreateRoot("dont", "dont/panic", nil)` fails is not modelled. With `formatContentId` the identity, that call succeeds. Also left out are the expectations that depend on the commented-out code: related/writer_test.go:119-122 (`CreatePart("&&;&;&", nil)` should fail; it succeeds), :154, :174-175, :274 (`start="<a@b.c>"`, where `FormDataParams` gives the bare `a@b.c`) and :312-314.
- The top-level writer.go (a one-line wrapper that formats `multipart/related; boundary=...`) is not part of this model.

## Findings

| source | as written | input that shows it | evidently intended | confidence | as-written member | corrected member |
|---|---|---|---|---|---|---|
| multipart.go:79-86 | `ObjectHeader.Read` builds a new `bytes.Reader` over the content on every call, so every call copies from offset 0. It reports io.EOF only when one call copies the whole content | content `[50, 53]` read through a one-byte buffer: every call gives `[50]` and nil, so a read-until-EOF loop never ends | a cursor that advances, so that successive reads deliver the content once and then io.EOF, as related/multipart.go:154-164 does | not executed | Aggregate.RereadExample | RelatedReader.SuccessiveReads |
