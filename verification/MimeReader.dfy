/** A recipient's reader: UTF-8 bytes to lines, lines to a tree of MIME entities. The multipart rules
    are RFC 2046 section 5.1.1 (a line that begins with `--` and the boundary delimits, whatever else
    it holds), the transfer encodings RFC 2045 sections 6.7 and 6.8. */
module MimeReader {
  import opened Wrappers
  import opened Text
  import opened HeaderFields
  import opened Seqs
  import Base64
  import QuotedPrintable
  import Rfc2231
  import Utf8

  type byte = Utf8.byte

  datatype Entity =
    | Leaf(mime: string, charset: Option<string>, calendarMethod: Option<string>, disposition: Option<string>,
           filename: Option<string>, contentId: Option<string>, body: Option<seq<byte>>)
    | Multi(mime: string, root: Option<string>, children: seq<Entity>)

  datatype Message = Message(fields: seq<Field>, content: Entity)

  // ---- Lines ---------------------------------------------------------------------------------

  /** Where the header block ends: the first empty line, or the end. */
  function HeaderEnd(lines: seq<string>): (h: nat)
    ensures h <= |lines|
    ensures forall i :: 0 <= i < h ==> lines[i] != ""
    ensures h < |lines| ==> lines[h] == ""
  {
    if lines == [] || lines[0] == "" then 0 else 1 + HeaderEnd(lines[1..])
  }

  function NextDelimiter(lines: seq<string>, dash: string): (k: nat)
    ensures k <= |lines|
    ensures forall i :: 0 <= i < k ==> !StartsWith(lines[i], dash)
    ensures k < |lines| ==> StartsWith(lines[k], dash)
  {
    if lines == [] || StartsWith(lines[0], dash) then 0 else 1 + NextDelimiter(lines[1..], dash)
  }

  /** The parts from just after a delimiter line on. Input that stops early still ends a part. */
  function PartsFrom(lines: seq<string>, dash: string): (r: seq<seq<string>>)
    ensures forall i :: 0 <= i < |r| ==> |r[i]| <= |lines|
  {
    var k := NextDelimiter(lines, dash);
    if k == |lines| then [lines]
    else if StartsWith(lines[k], dash + "--") then [lines[..k]]
    else [lines[..k]] + PartsFrom(lines[k + 1..], dash)
  }

  /** Everything before the first delimiter is preamble. */
  function BodyParts(lines: seq<string>, dash: string): (r: seq<seq<string>>)
    ensures forall i :: 0 <= i < |r| ==> |r[i]| < |lines|
  {
    var k := NextDelimiter(lines, dash);
    if k == |lines| || StartsWith(lines[k], dash + "--") then []
    else PartsFrom(lines[k + 1..], dash)
  }

  // ---- Leaves --------------------------------------------------------------------------------

  function BodyOf(encoding: Option<string>, lines: seq<string>): Option<seq<byte>> {
    if encoding == Some("base64") then Base64.Decode(Base64.Concat(lines))
    else if encoding == Some("quoted-printable") then QuotedPrintable.Decode(Join(lines))
    else Some(Utf8.Encode(Join(lines)))
  }

  /** The extended spelling wins over the plain one, as RFC 6266 section 4.3 asks. */
  function FilenameIn(value: string): Option<string> {
    match ParamIn(value, "filename*")
    case Some(extended) => Rfc2231.DecodeValue(extended)
    case None => ParamIn(value, "filename")
  }

  function StripBrackets(value: string): string {
    if |value| >= 2 && value[0] == '<' && value[|value| - 1] == '>' then value[1..|value| - 1] else value
  }

  function ReadLeaf(fields: seq<Field>, content: seq<string>): Entity {
    var ct := Lookup(fields, CONTENT_TYPE).GetOr("text/plain");
    var cd := Lookup(fields, DISPOSITION);
    var id := Lookup(fields, CONTENT_ID);
    Leaf(MainOf(ct), ParamIn(ct, "charset"), ParamIn(ct, "method"),
         if cd.Some? then Some(MainOf(cd.value)) else None,
         if cd.Some? then FilenameIn(cd.value) else None,
         if id.Some? then Some(StripBrackets(id.value)) else None,
         BodyOf(Lookup(fields, TRANSFER_ENCODING), content))
  }

  // ---- Entities ------------------------------------------------------------------------------

  /** The boundary of a multipart Content-Type, `None` for anything read as a leaf. */
  function BoundaryIn(ct: string): Option<string> {
    if StartsWith(MainOf(ct), "multipart/") then ParamIn(ct, "boundary") else None
  }

  function ReadEntity(lines: seq<string>): Entity
    decreases |lines|
  {
    var h := HeaderEnd(lines);
    var fields := ParseFields(lines[..h]);
    var content := if h < |lines| then lines[h + 1..] else [];
    var ct := Lookup(fields, CONTENT_TYPE).GetOr("text/plain");
    match BoundaryIn(ct)
    case None => ReadLeaf(fields, content)
    case Some(boundary) =>
      var parts := BodyParts(content, "--" + boundary);
      Multi(MainOf(ct), ParamIn(ct, "type"), seq(|parts|, i requires 0 <= i < |parts| => ReadEntity(parts[i])))
  }

  function ReadEntities(parts: seq<seq<string>>): (r: seq<Entity>)
    ensures |r| == |parts|
    ensures forall i :: 0 <= i < |r| ==> r[i] == ReadEntity(parts[i])
  {
    seq(|parts|, i requires 0 <= i < |parts| => ReadEntity(parts[i]))
  }

  /** A whole message off the wire, `None` for bytes that are not UTF-8. */
  function ReadMessage(wire: seq<byte>): Option<Message> {
    match Utf8.Decode(wire)
    case None => None
    case Some(s) =>
      var lines := Split(s);
      Some(Message(ParseFields(lines[..HeaderEnd(lines)]), ReadEntity(lines)))
  }

  // ---- What a writer has to do to be read back -----------------------------------------------

  /** A header block: the fields, then the empty line. */
  function Headed(fields: seq<Field>, content: seq<string>): seq<string> {
    Lines(fields) + [""] + content
  }

  /** Parts between delimiter lines, closed by the final one. */
  function Enclose(dash: string, parts: seq<seq<string>>): seq<string> {
    if parts == [] then [dash + "--"] else [dash] + parts[0] + Enclose(dash, parts[1..])
  }

  predicate NoDelimiter(lines: seq<string>, dash: string) {
    forall i :: 0 <= i < |lines| ==> !StartsWith(lines[i], dash)
  }

  predicate NoDelimiters(parts: seq<seq<string>>, dash: string) {
    forall i :: 0 <= i < |parts| ==> NoDelimiter(parts[i], dash)
  }

  lemma HeadedSplits(fields: seq<Field>, content: seq<string>)
    requires AllWellFormed(fields)
    ensures var lines := Headed(fields, content);
            var h := HeaderEnd(lines);
            h == |fields| && ParseFields(lines[..h]) == fields && lines[h + 1..] == content
  {
    var lines := Headed(fields, content);
    var h := HeaderEnd(lines);
    FieldsRoundTrip(fields);
    assert lines[|fields|] == "";
    assert forall i :: 0 <= i < |fields| ==> lines[i] == Lines(fields)[i];
    assert lines[..h] == Lines(fields);
    assert lines[h + 1..] == content;
  }

  lemma {:induction false} DelimiterAfter(part: seq<string>, line: string, rest: seq<string>, dash: string)
    requires NoDelimiter(part, dash) && StartsWith(line, dash)
    ensures NextDelimiter(part + [line] + rest, dash) == |part|
  {
    var all := part + [line] + rest;
    assert all[|part|] == line;
    assert forall i :: 0 <= i < |part| ==> all[i] == part[i];
  }

  lemma {:induction false} EncloseFrom(dash: string, parts: seq<seq<string>>, tail: seq<string>)
    requires parts != [] && NoDelimiters(parts, dash)
    ensures PartsFrom((Enclose(dash, parts) + tail)[1..], dash) == parts
  {
    var more := Enclose(dash, parts[1..]) + tail;
    EncloseBehind(dash, parts, tail);
    EncloseStarts(dash, parts[1..], tail);
    Uncons(parts);
    if |parts| == 1 {
      LastPart(parts[0], more, dash);
      assert parts == [parts[0]];
    } else {
      NextPart(parts[0], more, dash);
      EncloseFrom(dash, parts[1..], tail);
    }
  }

  lemma EncloseBehind(dash: string, parts: seq<seq<string>>, tail: seq<string>)
    requires parts != []
    ensures (Enclose(dash, parts) + tail)[1..] == parts[0] + (Enclose(dash, parts[1..]) + tail)
  {
    var first, rest := parts[0], Enclose(dash, parts[1..]);
    assert ([dash] + first + rest + tail)[1..] == first + (rest + tail);
  }

  /** A level starts with its delimiter line, the closing one when no part is left. */
  lemma EncloseStarts(dash: string, parts: seq<seq<string>>, tail: seq<string>)
    ensures var more := Enclose(dash, parts) + tail;
            more != [] && StartsWith(more[0], dash) && (StartsWith(more[0], dash + "--") <==> parts == [])
  {
    var more := Enclose(dash, parts) + tail;
    assert more[0] == if parts == [] then dash + "--" else dash;
  }

  lemma CutAtDelimiter(part: seq<string>, more: seq<string>, dash: string)
    requires NoDelimiter(part, dash) && more != [] && StartsWith(more[0], dash)
    ensures var lines := part + more;
            var k := NextDelimiter(lines, dash);
            k == |part| < |lines| && lines[k] == more[0] && lines[..k] == part && lines[k + 1..] == more[1..]
  {
    assert part + more == part + [more[0]] + more[1..];
    DelimiterAfter(part, more[0], more[1..], dash);
  }

  lemma LastPart(part: seq<string>, more: seq<string>, dash: string)
    requires NoDelimiter(part, dash) && more != [] && StartsWith(more[0], dash) && StartsWith(more[0], dash + "--")
    ensures PartsFrom(part + more, dash) == [part]
  {
    CutAtDelimiter(part, more, dash);
  }

  lemma NextPart(part: seq<string>, more: seq<string>, dash: string)
    requires NoDelimiter(part, dash) && more != [] && StartsWith(more[0], dash) && !StartsWith(more[0], dash + "--")
    ensures PartsFrom(part + more, dash) == [part] + PartsFrom(more[1..], dash)
  {
    CutAtDelimiter(part, more, dash);
  }

  /** Parts free of delimiter look-alikes are exactly the parts read back. */
  lemma EncloseRoundTrip(dash: string, parts: seq<seq<string>>, tail: seq<string>)
    requires parts != [] && NoDelimiters(parts, dash)
    ensures BodyParts(Enclose(dash, parts) + tail, dash) == parts
  {
    var lines := Enclose(dash, parts) + tail;
    assert lines[0] == dash;
    assert !StartsWith(dash, dash + "--");
    assert NextDelimiter(lines, dash) == 0;
    EncloseFrom(dash, parts, tail);
  }

  lemma MultiRead(fields: seq<Field>, boundary: string, parts: seq<seq<string>>, tail: seq<string>)
    requires AllWellFormed(fields)
    requires parts != [] && NoDelimiters(parts, "--" + boundary)
    requires Lookup(fields, CONTENT_TYPE).Some? && BoundaryIn(Lookup(fields, CONTENT_TYPE).value) == Some(boundary)
    ensures var ct := Lookup(fields, CONTENT_TYPE).value;
            ReadEntity(Headed(fields, Enclose("--" + boundary, parts) + tail))
            == Multi(MainOf(ct), ParamIn(ct, "type"), ReadEntities(parts))
  {
    HeadedSplits(fields, Enclose("--" + boundary, parts) + tail);
    EncloseRoundTrip("--" + boundary, parts, tail);
  }

  lemma LeafRead(fields: seq<Field>, content: seq<string>)
    requires AllWellFormed(fields)
    requires Lookup(fields, CONTENT_TYPE).Some? && BoundaryIn(Lookup(fields, CONTENT_TYPE).value) == None
    ensures ReadEntity(Headed(fields, content)) == ReadLeaf(fields, content)
  {
    HeadedSplits(fields, content);
  }

  /** A text whose lines are a header block and its content is read off the wire as just that. */
  lemma WireRead(text: string, fields: seq<Field>, content: seq<string>)
    requires AllWellFormed(fields) && Split(text) == Headed(fields, content)
    ensures ReadMessage(Utf8.Encode(text)) == Some(Message(fields, ReadEntity(Headed(fields, content))))
  {
    Utf8.RoundTrip(text);
    HeadedSplits(fields, content);
  }
}
