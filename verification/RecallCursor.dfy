/** The cursors clients carry: `off:<n>` for an ordinary page, the whole state of a recall walk for a
    grouped one. Whatever the server issues, it accepts again as the state it was, within its own limit. */
module RecallCursor {
  import opened Wrappers
  import opened Text
  import opened RecallWalk
  import opened Boundary
  import opened Seqs
  import Base64Url
  import Utf8

  const MAX_CURSOR := 16_384
  const I64_MAX := 0x7FFF_FFFF_FFFF_FFFF
  const I64_MIN := -0x8000_0000_0000_0000
  const U32_MAX := 0xFFFF_FFFF

  const RECALL: string := "recall:"
  const OFF: string := "off:"
  const SEEN: string := "{\"seen\":["
  const K: string := "\"k\":"
  const DONE: string := ",\"done\":"

  predicate IsDigit(c: char) {
    '0' <= c <= '9'
  }

  // ---- Writing -------------------------------------------------------------------------------

  function IntText(n: int): string {
    if n < 0 then "-" + Decimal(-n) else Decimal(n)
  }

  /** The ids with commas between them and the closing bracket and comma behind. */
  function IdsText(ids: seq<int>): string {
    if ids == [] then "],"
    else if |ids| == 1 then IntText(ids[0]) + "],"
    else IntText(ids[0]) + ("," + IdsText(ids[1..]))
  }

  function BoolText(b: bool): string {
    if b then "true}" else "false}"
  }

  /** What `serde_json` writes for the state. */
  function Json(r: Resume): string {
    SEEN + (IdsText(r.seen) + (K + (Decimal(r.k) + (DONE + BoolText(r.done)))))
  }

  function Encode(r: Resume): string {
    RECALL + Base64Url.Encode(Utf8.Encode(Json(r)))
  }

  // ---- Reading -------------------------------------------------------------------------------

  function Behind(s: string, p: string): Option<string> {
    if StartsWith(s, p) then Some(s[|p|..]) else None
  }

  function DigitCount(s: string): (n: nat)
    ensures n <= |s| && forall i :: 0 <= i < n ==> IsDigit(s[i])
  {
    if s != "" && IsDigit(s[0]) then 1 + DigitCount(s[1..]) else 0
  }

  /** A number without a sign: some digits, no leading zero. */
  function ReadNat(s: string): Option<(nat, string)> {
    var n := DigitCount(s);
    if n == 0 || (n > 1 && s[0] == '0') then None else Some((DecimalValue(s[..n]), s[n..]))
  }

  function ReadI64(s: string): Option<(int, string)> {
    var negative := s != "" && s[0] == '-';
    match ReadNat(if negative then s[1..] else s)
    case None => None
    case Some((n, rest)) =>
      var v: int := if negative then -(n as int) else n;
      if I64_MIN <= v <= I64_MAX then Some((v, rest)) else None
  }

  predicate Closes(s: string) {
    |s| >= 2 && s[0] == ']' && s[1] == ','
  }

  function ReadMore(s: string): Option<(seq<int>, string)>
    decreases |s|
  {
    match ReadI64(s)
    case None => None
    case Some((n, rest)) =>
      if Closes(rest) then Some(([n], rest[2..]))
      else if rest != "" && rest[0] == ',' && |rest| < |s| then
        match ReadMore(rest[1..])
        case None => None
        case Some((ids, end)) => Some(([n] + ids, end))
      else None
  }

  function ReadIds(s: string): Option<(seq<int>, string)> {
    if Closes(s) then Some(([], s[2..])) else ReadMore(s)
  }

  function ReadBool(s: string): Option<bool> {
    if s == "true}" then Some(true) else if s == "false}" then Some(false) else None
  }

  function ReadTail(seen: seq<int>, s: string): Option<Resume> {
    match Behind(s, K)
    case None => None
    case Some(a) =>
      match ReadNat(a)
      case None => None
      case Some((k, b)) =>
        match Behind(b, DONE)
        case None => None
        case Some(c) =>
          match ReadBool(c)
          case None => None
          case Some(done) => Some(Resume(seen, k, done))
  }

  /** The state read off its own spelling. */
  function ReadJson(s: string): Option<Resume> {
    match Behind(s, SEEN)
    case None => None
    case Some(a) =>
      match ReadIds(a)
      case None => None
      case Some((seen, b)) => ReadTail(seen, b)
  }

  /** `SearchResume::decode`, `None` for every way it answers `invalid search cursor`. */
  function Decode(raw: string): Option<Resume> {
    if |raw| > MAX_CURSOR then None
    else
      match Base64Url.Decode(raw)
      case None => None
      case Some(bytes) =>
        match Utf8.Decode(bytes)
        case None => None
        case Some(text) =>
          match ReadJson(text)
          case None => None
          case Some(r) => if |r.seen| > MAX_RECALL_K || r.k > MAX_RECALL_K then None else Some(r)
  }

  /** A cursor as it arrives with a request. */
  function DecodeCursor(cursor: string): Option<Resume> {
    match Behind(cursor, RECALL)
    case None => None
    case Some(raw) => Decode(raw)
  }

  // ---- Numbers -------------------------------------------------------------------------------

  predicate NoDigitFirst(s: string) {
    s == "" || !IsDigit(s[0])
  }

  lemma {:induction false} DigitsCounted(digits: string, rest: string)
    requires forall i :: 0 <= i < |digits| ==> IsDigit(digits[i])
    requires NoDigitFirst(rest)
    ensures DigitCount(digits + rest) == |digits|
  {
    if digits == "" {
      NilLeft(digits, rest);
    } else {
      TailOf(digits, rest);
      DigitsCounted(digits[1..], rest);
    }
  }

  lemma {:induction false} NoLeadingZero(n: nat)
    requires n > 0
    ensures Decimal(n)[0] != '0'
  {
    if n >= 10 {
      NoLeadingZero(n / 10);
    }
  }

  lemma NatRead(n: nat, rest: string)
    requires NoDigitFirst(rest)
    ensures ReadNat(Decimal(n) + rest) == Some((n, rest))
  {
    var d := Decimal(n);
    DigitsCounted(d, rest);
    DecimalRoundTrip(n);
    assert (d + rest)[..|d|] == d && (d + rest)[|d|..] == rest;
    if n > 0 {
      NoLeadingZero(n);
    } else {
      assert Decimal(0) == "0";
    }
  }

  predicate IsI64(n: int) {
    I64_MIN <= n <= I64_MAX
  }

  lemma PositiveRead(d: string, n: nat, rest: string)
    requires d != "" && d[0] != '-' && ReadNat(d + rest) == Some((n, rest)) && IsI64(n)
    ensures ReadI64(d + rest) == Some((n, rest))
  {
    assert (d + rest)[0] == d[0];
  }

  lemma NegativeRead(d: string, n: nat, rest: string)
    requires ReadNat(d + rest) == Some((n, rest)) && IsI64(-(n as int))
    ensures ReadI64(("-" + d) + rest) == Some((-(n as int), rest))
  {
    assert (("-" + d) + rest)[1..] == d + rest;
  }

  lemma IntRead(n: int, rest: string)
    requires IsI64(n) && NoDigitFirst(rest)
    ensures ReadI64(IntText(n) + rest) == Some((n, rest))
  {
    if n < 0 {
      NatRead(-n, rest);
      NegativeRead(Decimal(-n), -n, rest);
    } else {
      NatRead(n, rest);
      PositiveRead(Decimal(n), n, rest);
    }
  }

  // ---- Lists ---------------------------------------------------------------------------------

  predicate AllI64(ids: seq<int>) {
    forall i :: 0 <= i < |ids| ==> IsI64(ids[i])
  }

  lemma LastId(text: string, n: int, rest: string)
    requires ReadI64(text + ("]," + rest)) == Some((n, "]," + rest))
    ensures ReadMore(text + ("]," + rest)) == Some(([n], rest))
  {
    var t := "]," + rest;
    assert t[0] == ']' && t[1] == ',' && t[2..] == rest;
  }

  lemma OneMoreId(text: string, n: int, more: string, ids: seq<int>, end: string)
    requires text != "" && ReadI64(text + ("," + more)) == Some((n, "," + more)) && ReadMore(more) == Some((ids, end))
    ensures ReadMore(text + ("," + more)) == Some(([n] + ids, end))
  {
    var t := "," + more;
    assert t[0] == ',' && t[1..] == more;
  }

  lemma Regroup(a: string, b: string, c: string, d: string)
    ensures (a + (b + c)) + d == a + (b + (c + d))
    ensures (a + b) + d == a + (b + d)
  {
  }

  lemma {:induction false} MoreRead(ids: seq<int>, rest: string)
    requires ids != [] && AllI64(ids)
    ensures ReadMore(IdsText(ids) + rest) == Some((ids, rest))
  {
    var n := ids[0];
    assert IntText(n) != "";
    if |ids| == 1 {
      IntRead(n, "]," + rest);
      LastId(IntText(n), n, rest);
      Regroup(IntText(n), "],", "", rest);
      assert ids == [n];
    } else {
      var more := IdsText(ids[1..]) + rest;
      MoreRead(ids[1..], rest);
      IntRead(n, "," + more);
      OneMoreId(IntText(n), n, more, ids[1..], rest);
      Regroup(IntText(n), ",", IdsText(ids[1..]), rest);
      assert ids == [n] + ids[1..];
    }
  }

  lemma NoIds(rest: string)
    ensures ReadIds("]," + rest) == Some(([], rest))
  {
    assert ("]," + rest)[2..] == rest;
  }

  lemma SomeIds(text: string, rest: string)
    requires text != "" && text[0] != ']'
    ensures ReadIds(text + rest) == ReadMore(text + rest)
  {
    assert (text + rest)[0] == text[0];
  }

  lemma IdsRead(ids: seq<int>, rest: string)
    requires AllI64(ids)
    ensures ReadIds(IdsText(ids) + rest) == Some((ids, rest))
  {
    if ids == [] {
      NoIds(rest);
    } else {
      FirstIsNotBracket(ids);
      SomeIds(IdsText(ids), rest);
      MoreRead(ids, rest);
    }
  }

  lemma FirstIsNotBracket(ids: seq<int>)
    requires ids != []
    ensures IdsText(ids) != "" && IdsText(ids)[0] != ']'
  {
    assert IntText(ids[0])[0] == '-' || IsDigit(IntText(ids[0])[0]);
  }

  // ---- The state -----------------------------------------------------------------------------

  lemma PrefixRead(p: string, rest: string)
    ensures Behind(p + rest, p) == Some(rest)
  {
  }

  lemma TailRead(seen: seq<int>, k: nat, done: bool)
    ensures ReadTail(seen, K + (Decimal(k) + (DONE + BoolText(done)))) == Some(Resume(seen, k, done))
  {
    PrefixRead(K, Decimal(k) + (DONE + BoolText(done)));
    NatRead(k, DONE + BoolText(done));
    PrefixRead(DONE, BoolText(done));
    BoolRead(done);
  }

  lemma BoolRead(b: bool)
    ensures ReadBool(BoolText(b)) == Some(b)
  {
    assert |"true}"| != |"false}"|;
  }

  lemma JsonRead(r: Resume)
    requires AllI64(r.seen)
    ensures ReadJson(Json(r)) == Some(r)
  {
    var tail := K + (Decimal(r.k) + (DONE + BoolText(r.done)));
    PrefixRead(SEEN, IdsText(r.seen) + tail);
    IdsRead(r.seen, tail);
    TailRead(r.seen, r.k, r.done);
  }

  // ---- Its length ----------------------------------------------------------------------------

  function Pow10(d: nat): nat {
    if d == 0 then 1 else 10 * Pow10(d - 1)
  }

  lemma {:induction false} DecimalLength(n: nat, d: nat)
    requires d > 0 && n < Pow10(d)
    ensures |Decimal(n)| <= d
  {
    if n >= 10 {
      DecimalLength(n / 10, d - 1);
    }
  }

  lemma NineteenDigits(n: nat)
    requires n <= I64_MAX
    ensures |Decimal(n)| <= 19
  {
    assert Pow10(5) == 100_000;
    assert Pow10(10) == 10_000_000_000;
    assert Pow10(15) == 1_000_000_000_000_000;
    assert Pow10(19) == 10_000_000_000_000_000_000;
    DecimalLength(n, 19);
  }

  predicate AllIds(ids: seq<int>) {
    forall i :: 0 <= i < |ids| ==> 0 <= ids[i] <= I64_MAX
  }

  lemma {:induction false} IdsLength(ids: seq<int>)
    requires AllIds(ids)
    ensures |IdsText(ids)| <= 20 * |ids| + 2
    ensures ids != [] ==> |IdsText(ids)| <= 20 * |ids| + 1
  {
    if ids != [] {
      NineteenDigits(ids[0]);
      if |ids| > 1 {
        IdsLength(ids[1..]);
      }
    }
  }

  lemma {:induction false} AsciiLength(s: string)
    requires forall i :: 0 <= i < |s| ==> s[i] < 128 as char
    ensures |Utf8.Encode(s)| == |s|
  {
    if s != "" {
      AsciiLength(s[1..]);
    }
  }

  predicate IsAscii(s: string) {
    forall i :: 0 <= i < |s| ==> s[i] < 128 as char
  }

  lemma JoinAscii(a: string, b: string)
    requires IsAscii(a) && IsAscii(b)
    ensures IsAscii(a + b)
  {
  }

  lemma IntAscii(n: int)
    ensures IsAscii(IntText(n))
  {
    assert IsAscii(Decimal(if n < 0 then -n else n));
    assert IsAscii("-");
  }

  lemma {:induction false} IdsAscii(ids: seq<int>)
    ensures IsAscii(IdsText(ids))
  {
    assert IsAscii("],") && IsAscii(",");
    if ids != [] {
      IntAscii(ids[0]);
      if |ids| > 1 {
        IdsAscii(ids[1..]);
        JoinAscii(",", IdsText(ids[1..]));
        JoinAscii(IntText(ids[0]), "," + IdsText(ids[1..]));
      } else {
        JoinAscii(IntText(ids[0]), "],");
      }
    }
  }

  lemma JsonAscii(r: Resume)
    ensures IsAscii(Json(r))
  {
    IdsAscii(r.seen);
    IntAscii(r.k);
    ConstantsAscii(r.done);
    SixAscii(SEEN, IdsText(r.seen), K, Decimal(r.k), DONE, BoolText(r.done));
  }

  lemma ConstantsAscii(b: bool)
    ensures IsAscii(SEEN) && IsAscii(K) && IsAscii(DONE) && IsAscii(BoolText(b))
  {
  }

  lemma SixAscii(a: string, b: string, c: string, d: string, e: string, f: string)
    requires IsAscii(a) && IsAscii(b) && IsAscii(c) && IsAscii(d) && IsAscii(e) && IsAscii(f)
    ensures IsAscii(a + (b + (c + (d + (e + f)))))
  {
    JoinAscii(e, f);
    JoinAscii(d, e + f);
    JoinAscii(c, d + (e + f));
    JoinAscii(b, c + (d + (e + f)));
    JoinAscii(a, b + (c + (d + (e + f))));
  }

  predicate Issuable(r: Resume) {
    |r.seen| < MAX_RECALL_K && r.k <= MAX_RECALL_K && AllIds(r.seen)
  }

  lemma JsonLength(r: Resume)
    requires Issuable(r)
    ensures |Json(r)| <= 12_011
  {
    IdsLength(r.seen);
    assert Pow10(3) == 1000;
    DecimalLength(r.k, 3);
    assert |SEEN| == 9 && |K| == 4 && |DONE| == 8 && |BoolText(r.done)| <= 6;
  }

  /** Every state a server may issue is at most 16,015 of the 16,384 characters allowed, and comes back
      as exactly itself. */
  lemma CursorRoundTrip(r: Resume)
    requires Issuable(r)
    ensures |Encode(r)| <= |RECALL| + 16_015
    ensures DecodeCursor(Encode(r)) == Some(r)
  {
    var bytes := Utf8.Encode(Json(r));
    var raw := Base64Url.Encode(bytes);
    JsonLength(r);
    JsonAscii(r);
    AsciiLength(Json(r));
    Base64Url.EncodedLength(bytes);
    Base64Url.RoundTrip(bytes);
    Utf8.RoundTrip(Json(r));
    JsonRead(r);
    PrefixRead(RECALL, raw);
  }

  /** Every cursor a page of a walk hands out can be handed back. */
  lemma IssuedCursorsAreAccepted(m: Mailbox, r: Resume, limit: nat, k: nat)
    requires Sound(m) && limit > 0 && GoodResume(m, r) && Serve(m, r, limit, k).next.Some?
    requires AllIds(r.seen + Serve(m, r, limit, k).items)
    ensures DecodeCursor(Encode(Serve(m, r, limit, k).next.value)) == Serve(m, r, limit, k).next
  {
    ServeKeeps(m, r, limit, k);
    CursorRoundTrip(Serve(m, r, limit, k).next.value);
  }

  // ---- Whole walks ---------------------------------------------------------------------------

  /** What a cursor in a request stands for: the first page without one, nothing if it does not read. */
  function Resumed(cursor: Option<string>): Option<Resume> {
    match cursor
    case None => Some(FIRST_PAGE)
    case Some(c) => DecodeCursor(c)
  }

  /** The pages of a client that hands each cursor back as the text it got; a text that does not read is
      refused and ends the walk. */
  function CursorWalk(m: Mailbox, cursor: Option<string>, turns: seq<Turn>): seq<seq<int>>
    requires Asks(turns)
    decreases |turns|
  {
    if turns == [] || Resumed(cursor).None? then []
    else
      var page := Serve(m, Resumed(cursor).value, turns[0].limit, turns[0].k);
      [page.items] + if page.next.None? then [] else CursorWalk(m, Some(Encode(page.next.value)), turns[1..])
  }

  /** Every candidate is a row id. */
  ghost predicate HoldsIds(m: Mailbox) {
    forall k: nat :: AllIds(m.pool(k))
  }

  lemma PageHoldsIds(m: Mailbox, k: nat, r: Resume, limit: nat)
    requires HoldsIds(m)
    ensures AllIds(Page(m, k, r, limit))
  {
    LeftHoldsIds(m.pool(k), r.seen, m.isDone, false);
    LeftHoldsIds(m.pool(k), r.seen, m.isDone, true);
    var items, hits := Page(m, k, r, limit), Hits(m, k, r);
    assert forall i :: 0 <= i < |items| ==> items[i] == hits[i];
  }

  lemma {:induction false} LeftHoldsIds(ids: seq<int>, seen: seq<int>, isDone: int -> bool, done: bool)
    requires AllIds(ids)
    ensures AllIds(Left(ids, seen, isDone, done))
  {
    if ids != [] {
      LeftHoldsIds(ids[1..], seen, isDone, done);
    }
  }

  lemma {:induction false} CursorWalkFrom(m: Mailbox, cursor: Option<string>, r: Resume, turns: seq<Turn>)
    requires Sound(m) && HoldsIds(m) && Asks(turns) && GoodResume(m, r) && AllIds(r.seen) && Resumed(cursor) == Some(r)
    ensures CursorWalk(m, cursor, turns) == Walk(m, r, turns)
    decreases |turns|
  {
    if turns != [] {
      var next := Serve(m, r, turns[0].limit, turns[0].k).next;
      if next.Some? {
        NextIsHeld(m, r, turns[0].limit, turns[0].k);
        CursorWalkFrom(m, Some(Encode(next.value)), next.value, turns[1..]);
      }
    }
  }

  /** A state handed out is good, and its text reads as it. */
  lemma NextIsHeld(m: Mailbox, r: Resume, limit: nat, k: nat)
    requires Sound(m) && HoldsIds(m) && limit > 0 && GoodResume(m, r) && AllIds(r.seen) && Serve(m, r, limit, k).next.Some?
    ensures var next := Serve(m, r, limit, k).next;
            GoodResume(m, next.value) && AllIds(next.value.seen) && Resumed(Some(Encode(next.value))) == next
  {
    PageHoldsIds(m, FinalK(m, FirstK(k, r, limit), r, limit), r, limit);
    ServeKeeps(m, r, limit, k);
    IssuedCursorsAreAccepted(m, r, limit, k);
  }

  /** A walk driven by the cursor texts is the walk over the states themselves: no cursor is ever refused,
      and it is as safe as that one. */
  lemma CursorWalkIsWalk(m: Mailbox, turns: seq<Turn>)
    requires Sound(m) && HoldsIds(m) && Asks(turns)
    ensures CursorWalk(m, None, turns) == Walk(m, FIRST_PAGE, turns)
    ensures var served := All(CursorWalk(m, None, turns));
            Distinct(served) && |served| <= MAX_RECALL_K && InOrder(m, served)
            && (|CursorWalk(m, None, turns)| < |turns| ==> |served| == MAX_RECALL_K || WholePool(m, served))
  {
    CursorWalkFrom(m, None, FIRST_PAGE, turns);
    WalkIsSafe(m, turns);
  }

  // ---- Ordinary pages ------------------------------------------------------------------------

  function EncodeOffset(offset: nat): string {
    Base64Url.Encode(Utf8.Encode(OFF + Decimal(offset)))
  }

  /** `str::parse::<u32>` on plain digits. */
  function ParseU32(s: string): Option<nat> {
    if s == "" || DigitCount(s) != |s| then None
    else
      var n := DecimalValue(s);
      if n <= U32_MAX then Some(n) else None
  }

  function DecodeOffset(cursor: string): Option<nat> {
    match Base64Url.Decode(cursor)
    case None => None
    case Some(bytes) =>
      match Utf8.Decode(bytes)
      case None => None
      case Some(text) =>
        match Behind(text, OFF)
        case None => None
        case Some(digits) => ParseU32(digits)
  }

  lemma OffsetRoundTrip(offset: nat)
    requires offset <= U32_MAX
    ensures DecodeOffset(EncodeOffset(offset)) == Some(offset)
  {
    var text := OFF + Decimal(offset);
    Base64Url.RoundTrip(Utf8.Encode(text));
    Utf8.RoundTrip(text);
    PrefixRead(OFF, Decimal(offset));
    DigitsCounted(Decimal(offset), "");
    assert Decimal(offset) + "" == Decimal(offset);
    DecimalRoundTrip(offset);
  }
}
