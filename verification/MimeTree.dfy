/** The multipart tree both builders write, level by level, as lines, and the proof that a recipient
    reads each level back. */
module MimeTree {
  import opened Wrappers
  import opened Text
  import opened HeaderFields
  import opened Attachments
  import opened MimeReader
  import opened Seqs
  import Base64
  import Boundary
  import Utf8

  // One prefix per nesting level. They differ, so no level can close another.
  const BOUNDARY_ALT: string := "=_passband_alt_"
  const BOUNDARY_MIX: string := "=_passband_mix_"
  const BOUNDARY_REL: string := "=_passband_rel_"

  const PLAIN_UTF8: Param := Quoted("charset", "UTF-8")

  /** Something that can stand under a Content-Type: the header value, and the lines below it. */
  datatype Node = Node(ct: string, lines: seq<string>)

  /** A part that carries a file. */
  datatype FilePart = FilePart(head: PartHead, data: seq<byte>)

  function PartOf(att: MailAttachment): FilePart {
    FilePart(HeadOf(att), att.data)
  }

  function PartsOf(atts: seq<MailAttachment>): (r: seq<FilePart>)
    ensures |r| == |atts|
    ensures forall i :: 0 <= i < |r| ==> r[i] == PartOf(atts[i])
  {
    seq(|atts|, i requires 0 <= i < |atts| => PartOf(atts[i]))
  }

  predicate AllGoodHeads(files: seq<FilePart>) {
    forall i :: 0 <= i < |files| ==> GoodHead(files[i].head)
  }

  lemma PartsAreGood(atts: seq<MailAttachment>)
    ensures AllGoodHeads(PartsOf(atts))
  {
    forall i | 0 <= i < |atts| ensures GoodHead(PartsOf(atts)[i].head) {
      HeadIsGood(atts[i]);
    }
  }

  // ---- Delimiters told apart -----------------------------------------------------------------

  /** Boundaries of different levels differ at their twelfth character. */
  predicate IsLevel(boundary: string, c: char) {
    && |boundary| > 11 && boundary[0] == '=' && boundary[1] == '_' && boundary[11] == c
    && Boundary.IsBoundaryText(boundary)
  }

  lemma LevelOf(prefix: string, c: char, parts: seq<string>, hash: Boundary.Hasher)
    requires IsLevel(prefix, c)
    ensures IsLevel(Boundary.Boundary(prefix, parts, hash), c)
  {
    Boundary.BoundaryIsClean(prefix, parts, hash);
    Boundary.BoundaryIsPlain(prefix, parts, hash);
    var b := Boundary.Boundary(prefix, parts, hash);
    assert b[..|prefix|] == prefix;
    assert b[0] == prefix[0] && b[1] == prefix[1] && b[11] == prefix[11];
  }

  lemma AltPrefix()
    ensures IsLevel(BOUNDARY_ALT, 'a')
  {
  }

  lemma RelPrefix()
    ensures IsLevel(BOUNDARY_REL, 'r')
  {
  }

  lemma MixPrefix()
    ensures IsLevel(BOUNDARY_MIX, 'm')
  {
  }

  function Dash(boundary: string): string {
    "--" + boundary
  }

  lemma StartsSame(s: string, p: string, i: nat)
    requires StartsWith(s, p) && i < |p|
    ensures s[i] == p[i]
  {
    assert s[i] == s[..|p|][i];
  }

  lemma LevelsDiffer(a: string, x: char, b: string, y: char, suffix: string)
    requires IsLevel(a, x) && IsLevel(b, y) && x != y
    ensures !StartsWith(Dash(a) + suffix, Dash(b))
  {
    var s := Dash(a) + suffix;
    assert s[13] == a[11] && Dash(b)[13] == b[11];
    if StartsWith(s, Dash(b)) {
      StartsSame(s, Dash(b), 13);
      assert false;
    }
  }

  lemma {:induction false} EncloseHasNo(outer: string, y: char, inner: string, x: char, parts: seq<seq<string>>)
    requires IsLevel(inner, x) && IsLevel(outer, y) && x != y
    requires NoDelimiters(parts, Dash(outer))
    ensures NoDelimiter(Enclose(Dash(inner), parts), Dash(outer))
  {
    LevelsDiffer(inner, x, outer, y, "--");
    LevelsDiffer(inner, x, outer, y, "");
    assert Dash(inner) + "" == Dash(inner);
    if parts != [] {
      EncloseHasNo(outer, y, inner, x, parts[1..]);
    }
  }

  lemma DashFirst(l: string, boundary: string)
    requires l == "" || l[0] != '-'
    ensures !StartsWith(l, Dash(boundary))
  {
    if StartsWith(l, Dash(boundary)) {
      StartsSame(l, Dash(boundary), 0);
      assert false;
    }
  }

  /** Header lines start with a letter: they are never probed and need not be. */
  lemma HeadedHasNo(fields: seq<Field>, content: seq<string>, boundary: string)
    requires AllWellFormed(fields) && NoDelimiter(content, Dash(boundary))
    ensures NoDelimiter(Headed(fields, content), Dash(boundary))
  {
    var lines := Headed(fields, content);
    forall i | 0 <= i < |lines| ensures !StartsWith(lines[i], Dash(boundary)) {
      if i < |fields| {
        assert lines[i] == Line(fields[i]);
        DashFirst(lines[i], boundary);
      } else if i == |fields| {
        DashFirst("", boundary);
      } else {
        assert lines[i] == content[i - |fields| - 1];
      }
    }
  }

  lemma TextHasNo(text: string, boundary: string)
    requires !Contains(text, boundary)
    ensures NoDelimiter(Split(text), Dash(boundary))
  {
    forall i | 0 <= i < |Split(text)| ensures !StartsWith(Split(text)[i], Dash(boundary)) {
      var l := Split(text)[i];
      if StartsWith(l, Dash(boundary)) {
        assert l[2..2 + |boundary|] == l[..|Dash(boundary)|][2..] == boundary;
        assert OccursAt(l, boundary, 2);
        LineContained(text, l, boundary);
        assert false;
      }
    }
  }

  lemma FileHasNo(file: FilePart, boundary: string)
    requires GoodHead(file.head)
    ensures NoDelimiter(FileLines(file), Dash(boundary))
  {
    var chunks := Base64.Chunks(Base64.Encode(file.data));
    Base64.EncodeInAlphabet(file.data);
    Base64.ChunksInAlphabet(Base64.Encode(file.data));
    forall i | 0 <= i < |chunks| ensures !StartsWith(chunks[i], Dash(boundary)) {
      assert Base64.InAlphabet(chunks[i]);
      DashFirst(chunks[i], boundary);
    }
    PartFieldsAreWellFormed(file.head);
    HeadedHasNo(PartFields(file.head), chunks, boundary);
  }

  // ---- Files ---------------------------------------------------------------------------------

  function FileLines(file: FilePart): seq<string> {
    Headed(PartFields(file.head), Base64.Chunks(Base64.Encode(file.data)))
  }

  /** What a recipient should see of a file: its cleaned head and every byte of its data. */
  function FileEntity(file: FilePart): Entity {
    var h := file.head;
    Leaf(h.mime, if StartsWith(h.mime, "text/") then Some("utf-8") else None, h.method_,
         Some(Disposition(h.isInline)), Some(h.name), h.token, Some(file.data))
  }

  lemma MeantAppend(a: seq<Param>, b: seq<Param>, attr: string)
    ensures Meant(a + b, attr) == if Meant(a, attr).Some? then Meant(a, attr) else Meant(b, attr)
  {
    if a == [] {
      NilLeft(a, b);
    } else {
      TailOf(a, b);
      MeantAppend(a[1..], b, attr);
    }
  }

  lemma TypeParamMeant(h: PartHead, attr: string)
    ensures Meant(TypeParams(h), attr)
            == if Meant(NameParam(h.name), attr).Some? then Meant(NameParam(h.name), attr)
               else if Meant(CharsetParam(h.mime), attr).Some? then Meant(CharsetParam(h.mime), attr)
               else Meant(MethodParam(h.method_), attr)
  {
    MeantAppend(NameParam(h.name) + CharsetParam(h.mime), MethodParam(h.method_), attr);
    MeantAppend(NameParam(h.name), CharsetParam(h.mime), attr);
  }

  lemma MeantOne(p: Param, attr: string)
    ensures Meant([p], attr) == if p.attr == attr then Some(p.value) else None
  {
  }

  lemma TypeParamsMeant(h: PartHead)
    ensures Meant(TypeParams(h), "boundary") == None
    ensures Meant(TypeParams(h), "charset") == if StartsWith(h.mime, "text/") then Some("utf-8") else None
    ensures Meant(TypeParams(h), "method") == h.method_
  {
    TypeParamMeant(h, "boundary");
    TypeParamMeant(h, "charset");
    TypeParamMeant(h, "method");
  }

  lemma DispositionMeant(name: string)
    ensures IsPrintableAscii(name) ==>
              Meant(DispositionParams(name), "filename*") == None && Meant(DispositionParams(name), "filename") == Some(name)
    ensures !IsPrintableAscii(name) ==>
              Meant(DispositionParams(name), "filename*") == Some(Rfc2231.CHARSET + Rfc2231.Encode(name))
  {
  }

  lemma DispositionParamRead(h: PartHead, attr: string)
    requires GoodHead(h)
    ensures MainOf(DispositionField(h).value) == Disposition(h.isInline)
    ensures ParamIn(DispositionField(h).value, attr) == Meant(DispositionParams(h.name), attr)
  {
    DispositionParamsAreGood(h.name);
    AllGoodIsSafe(DispositionParams(h.name));
    ParamsRoundTrip(Disposition(h.isInline), DispositionParams(h.name), attr);
  }

  /** The name read off the disposition is the cleaned name, in either spelling. */
  lemma DispositionRead(h: PartHead)
    requires GoodHead(h)
    ensures MainOf(DispositionField(h).value) == Disposition(h.isInline)
    ensures FilenameIn(DispositionField(h).value) == Some(h.name)
  {
    DispositionParamRead(h, "filename*");
    DispositionParamRead(h, "filename");
    DispositionMeant(h.name);
    Rfc2231.RoundTrip(h.name);
  }

  lemma TypeParamRead(h: PartHead, attr: string)
    requires GoodHead(h)
    ensures MainOf(TypeField(h).value) == h.mime
    ensures ParamIn(TypeField(h).value, attr) == Meant(TypeParams(h), attr)
  {
    TypeParamsAreGood(h);
    AllGoodIsSafe(TypeParams(h));
    ParamsRoundTrip(h.mime, TypeParams(h), attr);
  }

  lemma TypeRead(h: PartHead)
    requires GoodHead(h)
    ensures var ct := TypeField(h).value;
            && MainOf(ct) == h.mime && ParamIn(ct, "boundary") == None
            && ParamIn(ct, "charset") == (if StartsWith(h.mime, "text/") then Some("utf-8") else None)
            && ParamIn(ct, "method") == h.method_
  {
    TypeParamRead(h, "boundary");
    TypeParamRead(h, "charset");
    TypeParamRead(h, "method");
    TypeParamsMeant(h);
  }

  lemma PartLookups(a: Field, b: Field, c: Field, rest: seq<Field>, fields: seq<Field>)
    requires fields == [a, b, c] + rest
    requires a.name == CONTENT_TYPE && b.name == TRANSFER_ENCODING && c.name == DISPOSITION
    ensures Lookup(fields, CONTENT_TYPE) == Some(a.value)
    ensures Lookup(fields, TRANSFER_ENCODING) == Some(b.value)
    ensures Lookup(fields, DISPOSITION) == Some(c.value)
    ensures Lookup(fields, CONTENT_ID) == Lookup(rest, CONTENT_ID)
  {
    NamesDiffer();
    var two, one := [b, c] + rest, [c] + rest;
    assert fields == [a] + two && two == [b] + one;
    LookupSkip(a, two, TRANSFER_ENCODING);
    LookupSkip(a, two, DISPOSITION);
    LookupSkip(b, one, DISPOSITION);
    LookupSkip(a, two, CONTENT_ID);
    LookupSkip(b, one, CONTENT_ID);
    LookupSkip(c, rest, CONTENT_ID);
  }

  lemma IdRead(token: Option<string>)
    requires token.Some? ==> IsId(token.value)
    ensures var id := Lookup(IdFields(token), CONTENT_ID);
            (if id.Some? then Some(StripBrackets(id.value)) else None) == token
  {
    if token.Some? {
      var v := "<" + token.value + ">";
      assert v[1..|v| - 1] == token.value;
    }
  }

  /** Every file comes back under its cleaned name and type, with exactly the bytes it had. */
  lemma FileRead(file: FilePart)
    requires GoodHead(file.head)
    ensures ReadEntity(FileLines(file)) == FileEntity(file)
  {
    var h := file.head;
    var fields, chunks := PartFields(h), Base64.Chunks(Base64.Encode(file.data));
    PartFieldsAreWellFormed(h);
    PartLookups(TypeField(h), BASE64_FIELD, DispositionField(h), IdFields(h.token), fields);
    TypeRead(h);
    LeafRead(fields, chunks);
    DispositionRead(h);
    IdRead(h.token);
    Base64.BodyLines(file.data);
  }

  function FilesLines(files: seq<FilePart>): (r: seq<seq<string>>)
    ensures |r| == |files|
    ensures forall i :: 0 <= i < |r| ==> r[i] == FileLines(files[i])
  {
    seq(|files|, i requires 0 <= i < |files| => FileLines(files[i]))
  }

  function FileEntities(files: seq<FilePart>): (r: seq<Entity>)
    ensures |r| == |files|
    ensures forall i :: 0 <= i < |r| ==> r[i] == FileEntity(files[i])
  {
    seq(|files|, i requires 0 <= i < |files| => FileEntity(files[i]))
  }

  // ---- One multipart level -------------------------------------------------------------------

  function TypeOnly(ct: string): seq<Field> {
    [Field(CONTENT_TYPE, ct)]
  }

  /** Header fields that say nothing about the content but its type. */
  predicate Carries(fields: seq<Field>, ct: string) {
    && AllWellFormed(fields)
    && Lookup(fields, CONTENT_TYPE) == Some(ct)
    && Lookup(fields, TRANSFER_ENCODING) == None
    && Lookup(fields, DISPOSITION) == None
    && Lookup(fields, CONTENT_ID) == None
  }

  lemma TypeOnlyCarries(ct: string)
    requires NoLineBreak(ct)
    ensures Carries(TypeOnly(ct), ct)
  {
    TypeNamesAreGood();
    NamesDiffer();
  }

  function MultiType(mime: string, boundary: string, more: seq<Param>): string {
    Render(mime, [Quoted("boundary", boundary)] + more)
  }

  predicate IsMultiMime(mime: string) {
    StartsWith(mime, "multipart/") && Plain(mime) && NoLineBreak(mime)
  }

  lemma BoundaryParamIsGood(boundary: string)
    requires Boundary.IsBoundaryText(boundary)
    ensures GoodParam(Quoted("boundary", boundary))
  {
  }

  lemma MultiTypeRead(mime: string, boundary: string, more: seq<Param>)
    requires IsMultiMime(mime) && Boundary.IsBoundaryText(boundary) && AllGood(more)
    ensures var ct := MultiType(mime, boundary, more);
            && NoLineBreak(ct) && MainOf(ct) == mime
            && BoundaryIn(ct) == Some(boundary) && ParamIn(ct, "type") == Meant(more, "type")
  {
    var p := Quoted("boundary", boundary);
    BoundaryParamIsGood(boundary);
    ConcatGood([p], more);
    AllGoodIsSafe([p] + more);
    RenderedHasNoBreak(mime, [p] + more);
    ParamsRoundTrip(mime, [p] + more, "boundary");
    ParamsRoundTrip(mime, [p] + more, "type");
    MeantAppend([p], more, "boundary");
    MeantAppend([p], more, "type");
  }

  /** A multipart level whose parts nowhere look like its delimiter is read back part by part, under
      any header that only states its type, whatever follows the closing delimiter. */
  lemma LevelRead(fields: seq<Field>, mime: string, boundary: string, more: seq<Param>,
                  parts: seq<seq<string>>, tail: seq<string>)
    requires IsMultiMime(mime) && Boundary.IsBoundaryText(boundary) && AllGood(more)
    requires AllWellFormed(fields) && Lookup(fields, CONTENT_TYPE) == Some(MultiType(mime, boundary, more))
    requires parts != [] && NoDelimiters(parts, Dash(boundary))
    ensures ReadEntity(Headed(fields, Enclose(Dash(boundary), parts) + tail))
            == Multi(mime, Meant(more, "type"), ReadEntities(parts))
  {
    MultiTypeRead(mime, boundary, more);
    MultiRead(fields, boundary, parts, tail);
  }

  // ---- Text leaves ---------------------------------------------------------------------------

  function TextType(mime: string): string {
    Render(mime, [PLAIN_UTF8])
  }

  predicate IsTextMime(mime: string) {
    mime == "text/plain" || mime == "text/html"
  }

  function TextEntity(mime: string, body: seq<byte>): Entity {
    Leaf(mime, Some("UTF-8"), None, None, None, None, Some(body))
  }

  lemma Utf8ParamIsGood()
    ensures AllGood([PLAIN_UTF8])
  {
    assert SafeParam(PLAIN_UTF8);
  }

  lemma TextMimeIsPlain(mime: string)
    requires IsTextMime(mime)
    ensures Plain(mime) && NoLineBreak(mime) && !StartsWith(mime, "multipart/")
  {
    assert mime[0] == 't';
  }

  lemma TextTypeIsSafe(mime: string)
    requires IsTextMime(mime)
    ensures NoLineBreak(TextType(mime))
  {
    Utf8ParamIsGood();
    TextMimeIsPlain(mime);
    RenderedHasNoBreak(mime, [PLAIN_UTF8]);
  }

  lemma TextTypeRead(mime: string)
    requires IsTextMime(mime)
    ensures var ct := TextType(mime);
            && NoLineBreak(ct) && MainOf(ct) == mime && BoundaryIn(ct) == None
            && ParamIn(ct, "charset") == Some("UTF-8") && ParamIn(ct, "method") == None
  {
    var ps := [PLAIN_UTF8];
    Utf8ParamIsGood();
    TextMimeIsPlain(mime);
    AllGoodIsSafe(ps);
    RenderedHasNoBreak(mime, ps);
    ParamsRoundTrip(mime, ps, "charset");
    ParamsRoundTrip(mime, ps, "method");
    MeantOne(PLAIN_UTF8, "charset");
    MeantOne(PLAIN_UTF8, "method");
  }

  /** Unencoded text is read back character for character. */
  lemma TextRead(fields: seq<Field>, mime: string, text: string)
    requires IsTextMime(mime) && Carries(fields, TextType(mime))
    ensures ReadEntity(Headed(fields, Split(text))) == TextEntity(mime, Utf8.Encode(text))
  {
    TextTypeRead(mime);
    LeafRead(fields, Split(text));
    JoinSplit(text);
  }

  function TextLines(mime: string, text: string): seq<string> {
    Headed(TypeOnly(TextType(mime)), Split(text))
  }

  lemma TextPartRead(mime: string, text: string)
    requires IsTextMime(mime)
    ensures ReadEntity(TextLines(mime, text)) == TextEntity(mime, Utf8.Encode(text))
  {
    TextTypeRead(mime);
    TypeOnlyCarries(TextType(mime));
    TextRead(TypeOnly(TextType(mime)), mime, text);
  }

  lemma TextPartHasNo(mime: string, text: string, boundary: string)
    requires IsTextMime(mime) && !Contains(text, boundary)
    ensures NoDelimiter(TextLines(mime, text), Dash(boundary))
  {
    TextTypeRead(mime);
    TypeOnlyCarries(TextType(mime));
    TextHasNo(text, boundary);
    HeadedHasNo(TypeOnly(TextType(mime)), Split(text), boundary);
  }

  // ---- A level with files --------------------------------------------------------------------

  /** The first part, then one part per file. */
  function WithFiles(first: seq<string>, files: seq<FilePart>): seq<seq<string>> {
    [first] + FilesLines(files)
  }

  lemma WithFilesHasNo(first: seq<string>, files: seq<FilePart>, boundary: string)
    requires AllGoodHeads(files) && NoDelimiter(first, Dash(boundary))
    ensures NoDelimiters(WithFiles(first, files), Dash(boundary))
  {
    forall i | 0 <= i < |files| ensures NoDelimiter(FileLines(files[i]), Dash(boundary)) {
      FileHasNo(files[i], boundary);
    }
  }

  lemma WithFilesRead(first: seq<string>, e: Entity, files: seq<FilePart>)
    requires AllGoodHeads(files) && ReadEntity(first) == e
    ensures ReadEntities(WithFiles(first, files)) == [e] + FileEntities(files)
  {
    forall i | 0 <= i < |files| ensures ReadEntity(FilesLines(files)[i]) == FileEntities(files)[i] {
      FileRead(files[i]);
    }
    ReadFirst(first, e, FilesLines(files), FileEntities(files));
  }

  lemma ReadFirst(first: seq<string>, e: Entity, rest: seq<seq<string>>, es: seq<Entity>)
    requires ReadEntity(first) == e && |rest| == |es|
    requires forall i :: 0 <= i < |rest| ==> ReadEntity(rest[i]) == es[i]
    ensures ReadEntities([first] + rest) == [e] + es
  {
    MapFirst(first, e, rest, es, ReadEntities([first] + rest), ReadEntity);
  }

  lemma MapFirst(first: seq<string>, e: Entity, rest: seq<seq<string>>, es: seq<Entity>, all: seq<Entity>,
                 read: seq<string> -> Entity)
    requires read(first) == e && |rest| == |es| && |all| == 1 + |rest|
    requires forall i :: 0 <= i < |rest| ==> read(rest[i]) == es[i]
    requires forall i :: 0 <= i < |all| ==> all[i] == read(([first] + rest)[i])
    ensures all == [e] + es
  {
  }

  // ---- Lines as text -------------------------------------------------------------------------

  lemma FileAtomic(file: FilePart)
    requires GoodHead(file.head)
    ensures AllAtomic(FileLines(file))
  {
    var chunks := Base64.Chunks(Base64.Encode(file.data));
    Base64.BodyLines(file.data);
    forall i | 0 <= i < |chunks| ensures Atomic(chunks[i]) {
      SplitNoBreak(chunks[i]);
    }
    PartFieldsAreWellFormed(file.head);
    HeadedAtomic(PartFields(file.head), chunks);
  }

  lemma ConcatAtomic(a: seq<string>, b: seq<string>)
    requires AllAtomic(a) && AllAtomic(b)
    ensures AllAtomic(a + b)
  {
  }

  lemma HeadedAtomic(fields: seq<Field>, content: seq<string>)
    requires AllWellFormed(fields) && AllAtomic(content)
    ensures AllAtomic(Headed(fields, content))
  {
    FieldsRoundTrip(fields);
    assert Atomic("");
    ConcatAtomic(Lines(fields), [""]);
    ConcatAtomic(Lines(fields) + [""], content);
  }

  predicate AllPartsAtomic(parts: seq<seq<string>>) {
    forall i :: 0 <= i < |parts| ==> AllAtomic(parts[i])
  }

  lemma {:induction false} EncloseAtomic(boundary: string, parts: seq<seq<string>>)
    requires Boundary.IsBoundaryText(boundary) && AllPartsAtomic(parts)
    ensures AllAtomic(Enclose(Dash(boundary), parts))
  {
    var dash := Dash(boundary);
    SplitNoBreak(dash);
    SplitNoBreak(dash + "--");
    if parts != [] {
      EncloseAtomic(boundary, parts[1..]);
      ConcatAtomic([dash], parts[0]);
      ConcatAtomic([dash] + parts[0], Enclose(dash, parts[1..]));
    }
  }

  lemma TextPartAtomic(mime: string, text: string)
    requires IsTextMime(mime)
    ensures AllAtomic(TextLines(mime, text))
  {
    TextTypeRead(mime);
    TypeOnlyCarries(TextType(mime));
    SplitAtomic(text);
    HeadedAtomic(TypeOnly(TextType(mime)), Split(text));
  }

  lemma WithFilesAtomic(first: seq<string>, files: seq<FilePart>)
    requires AllGoodHeads(files) && AllAtomic(first)
    ensures AllPartsAtomic(WithFiles(first, files))
  {
    forall i | 0 <= i < |files| ensures AllAtomic(FileLines(files[i])) {
      FileAtomic(files[i]);
    }
  }

  /** A message whose lines all end in CRLF is split into those lines and the nothing after the last. */
  lemma FlatRead(fields: seq<Field>, content: seq<string>)
    requires AllWellFormed(fields) && AllAtomic(content)
    ensures Split(Flat(Headed(fields, content))) == Headed(fields, content + [""])
  {
    var lines := Headed(fields, content);
    HeadedAtomic(fields, content);
    SplitFlat(lines, "");
    assert Flat(lines) + "" == Flat(lines);
    assert lines + [""] == Headed(fields, content + [""]);
  }

  // ---- Parts pushed one after another --------------------------------------------------------

  /** Each part behind its delimiter line, the closing delimiter still to come. */
  function Opened(dash: string, parts: seq<seq<string>>): seq<string> {
    if parts == [] then [] else Opened(dash, parts[..|parts| - 1]) + ([dash] + parts[|parts| - 1])
  }

  lemma {:induction false} EncloseAppend(dash: string, a: seq<seq<string>>, b: seq<seq<string>>)
    ensures Enclose(dash, a + b) == Opened(dash, a) + Enclose(dash, b)
    decreases |a|
  {
    if a == [] {
      NilLeft(a, b);
    } else {
      var n := |a| - 1;
      EncloseAppend(dash, a[..n], [a[n]] + b);
      assert a[..n] + ([a[n]] + b) == a + b;
      assert ([a[n]] + b)[1..] == b;
    }
  }

  /** What has been pushed, and the closing delimiter, is the whole level. */
  lemma OpenedCloses(dash: string, parts: seq<seq<string>>)
    ensures Enclose(dash, parts) == Opened(dash, parts) + [dash + "--"]
  {
    EncloseAppend(dash, parts, []);
    assert parts + [] == parts;
  }

  lemma {:induction false} OpenedAppend(dash: string, a: seq<seq<string>>, b: seq<seq<string>>)
    ensures Opened(dash, a + b) == Opened(dash, a) + Opened(dash, b)
    decreases |b|
  {
    if b == [] {
      assert a + b == a;
    } else {
      var n := |b| - 1;
      TailOfPrefix(a, b);
      OpenedAppend(dash, a, b[..n]);
      Assoc(Opened(dash, a), Opened(dash, b[..n]), [dash] + b[n]);
    }
  }
}
