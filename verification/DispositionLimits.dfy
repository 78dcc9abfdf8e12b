/** How long the Content-Disposition line of a file gets, against the 998 octets RFC 5322
    section 2.1.1 allows: when the 80-character cap is enough, and when it is not. */
module DispositionLimits {
  import opened Wrappers
  import opened Text
  import opened HeaderFields
  import opened Attachments
  import HonestFiles
  import Rfc2231
  import Utf8

  const LINE_LIMIT := 998

  function FourByteCount(s: string): nat {
    if s == "" then 0 else (if Utf8.Width(s[0]) == 4 then 1 else 0) + FourByteCount(s[1..])
  }

  lemma {:induction false} EncodedByWidth(s: string)
    ensures Rfc2231.EncodedLength(s) <= 9 * |s| + 3 * FourByteCount(s)
    ensures FourByteCount(s) <= |s|
  {
    if s != "" {
      EncodedByWidth(s[1..]);
    }
  }

  /** The line fits exactly when the cost of the name, counted character by character, does. */
  lemma FitsExactly(h: PartHead)
    requires !IsPrintableAscii(h.name)
    ensures |DispositionLine(h)| <= LINE_LIMIT
            <==> Rfc2231.EncodedLength(h.name) + |h.name| <= if h.isInline then 939 else 935
  {
    DispositionLength(h);
  }

  /** The line of an ASCII name within the cap always fits. */
  lemma AsciiFits(h: PartHead)
    requires GoodHead(h) && IsPrintableAscii(h.name)
    ensures |DispositionLine(h)| == (if h.isInline then 40 else 44) + |h.name| <= 124 < LINE_LIMIT
  {
    var p := Quoted("filename", h.name);
    QuotedNameLength(h.name);
    assert DispositionParams(h.name) == [p];
    OneParam(Disposition(h.isInline), p);
    assert |Disposition(h.isInline)| == if h.isInline then 6 else 10;
  }

  lemma OneParam(value: string, p: Param)
    ensures |Render(value, [p])| == |value| + |RenderParam(p)|
  {
    assert [p][1..] == [];
    assert RenderParams([p]) == RenderParam(p) + RenderParams([]);
  }

  /** Within the cap no line is over 1103 octets, none is over 998 with at most 45 four-byte characters
      in the name, and none over 863 with no such character. */
  lemma CappedLength(h: PartHead)
    requires GoodHead(h) && !IsPrintableAscii(h.name)
    ensures |DispositionLine(h)| <= 863 + 3 * FourByteCount(h.name) <= 1103
    ensures FourByteCount(h.name) <= 45 ==> |DispositionLine(h)| <= LINE_LIMIT
  {
    DispositionLength(h);
    EncodedByWidth(h.name);
  }

  function Repeat(c: char, n: nat): (s: string)
    ensures |s| == n
    ensures forall i :: 0 <= i < n ==> s[i] == c
  {
    if n == 0 then "" else [c] + Repeat(c, n - 1)
  }

  lemma {:induction false} RepeatedCost(c: char, n: nat, rest: string)
    ensures Rfc2231.EncodedLength(Repeat(c, n) + rest) == n * Rfc2231.EncodedWidth(c) + Rfc2231.EncodedLength(rest)
    ensures FourByteCount(Repeat(c, n) + rest) == (if Utf8.Width(c) == 4 then n else 0) + FourByteCount(rest)
  {
    if n == 0 {
      assert Repeat(c, n) + rest == rest;
    } else {
      RepeatedCost(c, n - 1, rest);
      var s := Repeat(c, n) + rest;
      assert s[0] == c && s[1..] == Repeat(c, n - 1) + rest;
    }
  }

  /** `k` emoji and CJK characters filling the rest of the cap. */
  function Crowded(k: nat): string
    requires k <= 80
  {
    Repeat('\U{1F600}', k) + Repeat('\U{4E00}', 80 - k)
  }

  /** A file named with `k` emoji and CJK characters for the rest. */
  function CrowdedFile(k: nat, mime: string, data: seq<Utf8.byte>): MailAttachment
    requires k <= 80
  {
    MailAttachment(Crowded(k), mime, None, false, None, data)
  }

  lemma CrowdedIsHonest(k: nat, mime: string, data: seq<Utf8.byte>)
    requires 0 < k <= 80 && AllMimeChars(mime) && mime != "" && !IsMessageType(mime)
    ensures HonestFiles.Honest(CrowdedFile(k, mime, data))
  {
    CrowdedIsGood(k);
    EmojiIsInk();
    assert Crowded(k)[0] == '\U{1F600}';
  }

  lemma EmojiIsInk()
    ensures !IsWhitespace('\U{1F600}')
  {
  }

  /** For every count over 45 the cap is not enough: a file of any ordinary type, with nothing to clean
      about it and that many emoji among the 80 characters of its name, goes out with a line over the
      limit, up to 1103 octets for 80 of them. */
  lemma CapIsNotEnough(k: nat, mime: string, data: seq<Utf8.byte>)
    requires 46 <= k <= 80 && AllMimeChars(mime) && mime != "" && !IsMessageType(mime)
    ensures var att := CrowdedFile(k, mime, data);
            && HonestFiles.Honest(att) && HeadOf(att).name == att.filename && FourByteCount(att.filename) == k
            && |DispositionLine(HeadOf(att))| == 863 + 3 * k > LINE_LIMIT
  {
    var att := CrowdedFile(k, mime, data);
    CrowdedIsHonest(k, mime, data);
    HonestFiles.HonestHead(att);
    CrowdedCost(k);
    CrowdedIsGood(k);
    DispositionLength(HeadOf(att));
  }

  lemma CrowdedCost(k: nat)
    requires k <= 80
    ensures Rfc2231.EncodedLength(Crowded(k)) == 720 + 3 * k && FourByteCount(Crowded(k)) == k
  {
    var tail := Repeat('\U{4E00}', 80 - k);
    CharCosts();
    RepeatedCost('\U{4E00}', 80 - k, "");
    assert tail + "" == tail;
    RepeatedCost('\U{1F600}', k, tail);
  }

  lemma CharCosts()
    ensures Utf8.Width('\U{1F600}') == 4 && Utf8.Width('\U{4E00}') == 3
    ensures Rfc2231.EncodedWidth('\U{1F600}') == 12 && Rfc2231.EncodedWidth('\U{4E00}') == 9
  {
  }

  lemma CrowdedIsGood(k: nat)
    requires 0 < k <= 80
    ensures |Crowded(k)| == 80 && AllQuotable(Crowded(k)) && !IsPrintableAscii(Crowded(k))
  {
    var name := Crowded(k);
    assert forall i :: 0 <= i < 80 ==> name[i] == if i < k then '\U{1F600}' else '\U{4E00}';
    assert !IsPrintableChar(name[0]);
  }
}
