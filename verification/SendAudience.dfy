/** Whom a reply or new message finally goes to: the stated `to` over the derived one over the stored
    From, the copies minus whoever `to` covers, the blind copies minus everyone visible. */
module SendAudience {
  import opened Wrappers
  import opened Text
  import opened Addresses
  import opened Recipients
  import opened Seqs

  datatype Requested = Requested(to: Option<string>, cc: Option<string>, bcc: Option<string>)

  datatype Refusal = NoRecipient | NoOwnAddress

  datatype Chosen = Chosen(to: string, cc: string, bcc: string)

  function StatedTo(r: Requested): Option<string> {
    if r.to.Some? && !IsBlank(r.to.value) then r.to else None
  }

  function DerivedCc(derived: Option<ReplyRecipients>): string {
    match derived
    case Some(d) => d.cc
    case None => ""
  }

  function ToOf(r: Requested, derived: Option<ReplyRecipients>, parentFrom: Option<string>, own: Option<string>)
    : Result<string, Refusal>
  {
    if StatedTo(r).Some? then Ok(StatedTo(r).value)
    else if derived.Some? && !IsBlank(derived.value.to) then Ok(derived.value.to)
    else if parentFrom.Some? then Ok(parentFrom.value)
    else if IsBlank(r.bcc.GetOr("")) then Err(NoRecipient)
    else if own.Some? && !IsBlank(own.value) then Ok(own.value)
    else Err(NoOwnAddress)
  }

  function Choose(r: Requested, derived: Option<ReplyRecipients>, parentFrom: Option<string>, own: Option<string>, lib: Library)
    : Result<Chosen, Refusal>
  {
    match ToOf(r, derived, parentFrom, own)
    case Err(e) => Err(e)
    case Ok(to) =>
      var cc := r.cc.GetOr(AddrsExcluding(DerivedCc(derived), [to], lib));
      Ok(Chosen(to, cc, AddrsExcluding(r.bcc.GetOr(""), [to, cc], lib)))
  }

  /** A stated `to` wins, then what was derived, then the parent's stored sender, then, for a mail of blind
      copies alone, the account; a stated `cc` is taken as it stands. */
  lemma WhoIsChosen(r: Requested, derived: Option<ReplyRecipients>, parentFrom: Option<string>, own: Option<string>, lib: Library)
    ensures var chosen := Choose(r, derived, parentFrom, own, lib);
            var stated := r.to.Some? && !IsBlank(r.to.value);
            var addressed := derived.Some? && !IsBlank(derived.value.to);
            && (stated ==> chosen.Ok? && chosen.value.to == r.to.value)
            && (!stated && addressed ==> chosen.Ok? && chosen.value.to == derived.value.to)
            && (!stated && !addressed && parentFrom.Some? ==> chosen.Ok? && chosen.value.to == parentFrom.value)
            && (!stated && !addressed && parentFrom.None? && IsBlank(r.bcc.GetOr("")) ==> chosen == Err(NoRecipient))
            && (!stated && !addressed && parentFrom.None? && !IsBlank(r.bcc.GetOr("")) ==>
                  if own.Some? && !IsBlank(own.value) then chosen.Ok? && chosen.value.to == own.value
                  else chosen == Err(NoOwnAddress))
            && (chosen.Ok? && r.cc.Some? ==> chosen.value.cc == r.cc.value)
  {
  }

  lemma TwoLists(a: string, b: string, lib: Library)
    ensures AllListed([a], lib) == ParseAddrList(a, lib)
    ensures AllListed([a, b], lib) == ParseAddrList(a, lib) + ParseAddrList(b, lib)
  {
    OneList(a, lib);
    OneList(b, lib);
    assert [a, b][1..] == [b];
  }

  lemma OneList(a: string, lib: Library)
    ensures AllListed([a], lib) == ParseAddrList(a, lib)
  {
    assert [a][1..] == [];
    NilRight(ParseAddrList(a, lib));
  }

  lemma NamedAppend(a: seq<string>, b: seq<string>, lower: string)
    ensures Named(a + b, lower) <==> Named(a, lower) || Named(b, lower)
  {
    if Named(a, lower) {
      var i :| 0 <= i < |a| && ToAsciiLower(a[i]) == lower;
      assert (a + b)[i] == a[i];
    }
    if Named(b, lower) {
      var i :| 0 <= i < |b| && ToAsciiLower(b[i]) == lower;
      assert (a + b)[|a| + i] == b[i];
    }
  }

  /** Nobody gets a blind copy of a mail they are openly on, and every other blind copy asked for goes
      out, whether `to` and `cc` were stated or derived. */
  lemma BlindMeansUnseen(r: Requested, derived: Option<ReplyRecipients>, parentFrom: Option<string>, own: Option<string>,
                         lib: Library, a: string)
    requires Faithful(lib) && Choose(r, derived, parentFrom, own, lib).Ok?
    ensures var c := Choose(r, derived, parentFrom, own, lib).value;
            a in ParseAddrList(c.bcc, lib)
            <==> a in ParseAddrList(r.bcc.GetOr(""), lib)
                 && !Named(ParseAddrList(c.to, lib), ToAsciiLower(a)) && !Named(ParseAddrList(c.cc, lib), ToAsciiLower(a))
  {
    var c := Choose(r, derived, parentFrom, own, lib).value;
    ExcludedAreGone(r.bcc.GetOr(""), [c.to, c.cc], lib, a);
    TwoLists(c.to, c.cc, lib);
    NamedAppend(ParseAddrList(c.to, lib), ParseAddrList(c.cc, lib), ToAsciiLower(a));
  }

  /** Unless the sender stated a `cc`, everyone the derivation copies is reached, openly and once. */
  lemma DerivedCopiesGoOut(r: Requested, derived: Option<ReplyRecipients>, parentFrom: Option<string>, own: Option<string>,
                           lib: Library, a: string)
    requires Faithful(lib) && r.cc.None? && Choose(r, derived, parentFrom, own, lib).Ok?
    ensures var c := Choose(r, derived, parentFrom, own, lib).value;
            a in ParseAddrList(c.cc, lib)
            <==> a in ParseAddrList(DerivedCc(derived), lib) && !Named(ParseAddrList(c.to, lib), ToAsciiLower(a))
  {
    var c := Choose(r, derived, parentFrom, own, lib).value;
    ExcludedAreGone(DerivedCc(derived), [c.to], lib, a);
    TwoLists(c.to, c.to, lib);
  }

  lemma {:induction false} NothingExcluded(list: seq<string>, seen: seq<string>)
    requires forall i :: 0 <= i < |list| ==> !ContainsAddr(seen, list[i])
    ensures Excluding(list, seen) == list
  {
    if list != [] {
      NothingExcluded(list[1..], seen);
      Uncons(list);
    }
  }

  /** What was previewed is what is sent: with nothing retyped, the derivation goes out as it is. */
  lemma PreviewIsSent(r: Requested, h: ParentHeaders, ownAddr: string, replyAll: bool, parentFrom: Option<string>,
                      own: Option<string>, lib: Library)
    requires Faithful(lib) && StatedTo(r).None? && r.cc.None?
    requires Derive(h, OwnOf(ownAddr), replyAll, lib).to != []
    ensures var d := Recipients.Recipients(Derive(h, OwnOf(ownAddr), replyAll, lib));
            var c := Choose(r, Some(d), parentFrom, own, lib);
            c.Ok? && c.value.to == d.to && c.value.cc == d.cc
  {
    var a := Derive(h, OwnOf(ownAddr), replyAll, lib);
    var d := Recipients.Recipients(a);
    JoinedIsBlank(a.to);
    ParseJoined(a.to, lib);
    ParseJoined(a.cc, lib);
    TwoLists(d.to, d.to, lib);
    if replyAll {
      ReplyAllConservesTheRoom(h, OwnOf(ownAddr), lib);
    }
    forall i | 0 <= i < |a.cc| ensures !ContainsAddr(Lowered(a.to), a.cc[i]) {
      LoweredIs(a.to, ToAsciiLower(a.cc[i]));
    }
    NothingExcluded(a.cc, Lowered(a.to));
  }

  predicate Reached(c: Chosen, lib: Library, a: string) {
    Named(ParseAddrList(c.to, lib), ToAsciiLower(a)) || Named(ParseAddrList(c.cc, lib), ToAsciiLower(a))
  }

  /** A reply-all that states no copies reaches everyone the parent addressed, apart from the account
      itself and whoever a retyped `to` was meant to replace. */
  lemma ReplyAllReaches(r: Requested, h: ParentHeaders, ownAddr: string, parentFrom: Option<string>, own: Option<string>,
                        lib: Library, a: string)
    requires Faithful(lib) && r.cc.None? && a in Room(h, lib)
    requires Choose(r, Some(Recipients.Recipients(Derive(h, OwnOf(ownAddr), true, lib))), parentFrom, own, lib).Ok?
    ensures var d := Derive(h, OwnOf(ownAddr), true, lib);
            var c := Choose(r, Some(Recipients.Recipients(d)), parentFrom, own, lib).value;
            || ToAsciiLower(a) == OwnOf(ownAddr) || Reached(c, lib, a)
            || (StatedTo(r).Some? && Named(d.to, ToAsciiLower(a)))
  {
    var self := OwnOf(ownAddr);
    var d := Derive(h, self, true, lib);
    var c := Choose(r, Some(Recipients.Recipients(d)), parentFrom, own, lib).value;
    ReplyAllConservesTheRoom(h, self, lib);
    DerivedToIsReached(r, d, parentFrom, own, lib);
    if Named(d.cc, ToAsciiLower(a)) {
      DerivedCcIsReached(r, d, parentFrom, own, lib, ToAsciiLower(a));
    }
  }

  lemma DerivedToIsReached(r: Requested, d: Audience, parentFrom: Option<string>, own: Option<string>, lib: Library)
    requires Faithful(lib) && AllEmittable(d.to) && Choose(r, Some(Recipients.Recipients(d)), parentFrom, own, lib).Ok?
    ensures StatedTo(r).None? && d.to != [] ==>
              ParseAddrList(Choose(r, Some(Recipients.Recipients(d)), parentFrom, own, lib).value.to, lib) == d.to
  {
    ParseJoined(d.to, lib);
    JoinedIsBlank(d.to);
  }

  lemma DerivedCcIsReached(r: Requested, d: Audience, parentFrom: Option<string>, own: Option<string>, lib: Library, l: string)
    requires Faithful(lib) && r.cc.None? && AllEmittable(d.cc) && Named(d.cc, l)
    requires Choose(r, Some(Recipients.Recipients(d)), parentFrom, own, lib).Ok?
    ensures var c := Choose(r, Some(Recipients.Recipients(d)), parentFrom, own, lib).value;
            Named(ParseAddrList(c.to, lib), l) || Named(ParseAddrList(c.cc, lib), l)
  {
    var derived := Some(Recipients.Recipients(d));
    var c := Choose(r, derived, parentFrom, own, lib).value;
    var i :| 0 <= i < |d.cc| && ToAsciiLower(d.cc[i]) == l;
    ParseJoined(d.cc, lib);
    DerivedCopiesGoOut(r, derived, parentFrom, own, lib, d.cc[i]);
    if d.cc[i] in ParseAddrList(c.cc, lib) {
      NamedIn(ParseAddrList(c.cc, lib), d.cc[i]);
    }
  }

  lemma NamedIn(list: seq<string>, a: string)
    requires a in list
    ensures Named(list, ToAsciiLower(a))
  {
    var k :| 0 <= k < |list| && list[k] == a;
  }
}
