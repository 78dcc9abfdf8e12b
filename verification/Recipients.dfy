/** Who a reply goes to: derived from the parent's headers, overridden by what the sender typed, blind
    copies filtered last. */
module Recipients {
  import opened Wrappers
  import opened Text
  import opened Addresses
  import opened Seqs

  datatype ParentHeaders = ParentHeaders(from: Option<string>, replyTo: Option<string>, to: Option<string>, cc: Option<string>)

  datatype ReplyRecipients = ReplyRecipients(to: string, cc: string)

  /** The lists behind the two header values. */
  datatype Audience = Audience(to: seq<string>, cc: seq<string>)

  function Lowered(list: seq<string>): (r: seq<string>)
    ensures |r| == |list|
    ensures forall i :: 0 <= i < |r| ==> r[i] == ToAsciiLower(list[i])
  {
    seq(|list|, i requires 0 <= i < |list| => ToAsciiLower(list[i]))
  }

  predicate ContainsAddr(seen: seq<string>, addr: string) {
    ToAsciiLower(addr) in seen
  }

  /** `list` without the addresses in `seen`, in order. */
  function Excluding(list: seq<string>, seen: seq<string>): (r: seq<string>)
    ensures AllEmittable(list) ==> AllEmittable(r)
  {
    if list == [] then []
    else (if ContainsAddr(seen, list[0]) then [] else [list[0]]) + Excluding(list[1..], seen)
  }

  /** `list` without the addresses in `seen` and without the ones it named before, in order. */
  function Fresh(list: seq<string>, seen: seq<string>): (r: seq<string>)
    ensures AllEmittable(list) ==> AllEmittable(r)
  {
    if list == [] then []
    else if ContainsAddr(seen, list[0]) then Fresh(list[1..], seen)
    else [list[0]] + Fresh(list[1..], seen + [ToAsciiLower(list[0])])
  }

  function OwnOf(ownAddr: string): string {
    ToAsciiLower(Trim(ownAddr))
  }

  function OwnSeen(own: string): seq<string> {
    if own == "" then [] else [own]
  }

  function Listed(value: Option<string>, lib: Library): (r: seq<string>)
    ensures AllEmittable(r)
  {
    ParseAddrList(value.GetOr(""), lib)
  }

  /** `to` before anything is promoted. */
  function Addressed(h: ParentHeaders, lib: Library): (r: seq<string>)
    ensures AllEmittable(r)
  {
    var replyTo := Listed(h.replyTo, lib);
    if replyTo == [] then Listed(h.from, lib) else replyTo
  }

  predicate IsOwnEcho(to: seq<string>, own: string) {
    own != "" && to != [] && forall a <- to :: ToAsciiLower(a) == own
  }

  function Promoted(to: seq<string>, headerTo: seq<string>, own: string): (r: seq<string>)
    ensures AllEmittable(to) && AllEmittable(headerTo) ==> AllEmittable(r)
  {
    var others := Excluding(headerTo, [own]);
    if IsOwnEcho(to, own) && others != [] then others else to
  }

  function Derive(h: ParentHeaders, own: string, replyAll: bool, lib: Library): (r: Audience)
    ensures AllEmittable(r.to) && AllEmittable(r.cc)
  {
    if !replyAll then Audience(Addressed(h, lib), [])
    else
      var room := Listed(h.to, lib) + Listed(h.cc, lib);
      var to := Promoted(Addressed(h, lib), Listed(h.to, lib), own);
      Audience(to, Fresh(room, Lowered(to) + OwnSeen(own)))
  }

  function Recipients(a: Audience): ReplyRecipients {
    ReplyRecipients(JoinComma(a.to), JoinComma(a.cc))
  }

  // ---- The loops -----------------------------------------------------------------------------

  method Filtered(list: seq<string>, excluded: seq<string>) returns (kept: seq<string>)
    ensures kept == Excluding(list, excluded)
  {
    kept := [];
    ghost var left := Excluding(list, excluded);
    for i := 0 to |list|
      invariant left == Excluding(list[i..], excluded) && kept + left == Excluding(list, excluded)
    {
      OneFurther(list, i);
      left := Excluding(list[i + 1..], excluded);
      if !ContainsAddr(excluded, list[i]) {
        Assoc(kept, [list[i]], left);
        kept := kept + [list[i]];
      } else {
        NilLeft([], left);
      }
    }
  }

  /** `derive_reply_recipients`. */
  method DeriveReplyRecipients(h: ParentHeaders, ownAddr: string, replyAll: bool, lib: Library) returns (r: ReplyRecipients)
    ensures r == Recipients(Derive(h, OwnOf(ownAddr), replyAll, lib))
  {
    var own := OwnOf(ownAddr);
    var from, replyTo := Listed(h.from, lib), Listed(h.replyTo, lib);
    var to := if replyTo == [] then from else replyTo;
    if !replyAll {
      return ReplyRecipients(JoinComma(to), "");
    }
    var headerTo, headerCc := Listed(h.to, lib), Listed(h.cc, lib);
    to := Promote(to, headerTo, own);
    var cc := Copies(to, own, headerTo + headerCc);
    r := ReplyRecipients(JoinComma(to), JoinComma(cc));
  }

  /** The user's own message: the parent's To, minus the user, when that leaves anybody. */
  method Promote(to: seq<string>, headerTo: seq<string>, own: string) returns (r: seq<string>)
    ensures r == Promoted(to, headerTo, own)
  {
    r := to;
    if IsOwnEcho(to, own) {
      var promoted := Filtered(headerTo, [own]);
      if promoted != [] {
        r := promoted;
      }
    }
  }

  /** The copies: the seen-set seeded with `to` and the account, everyone new pushed once. */
  method Copies(to: seq<string>, own: string, room: seq<string>) returns (cc: seq<string>)
    ensures cc == Fresh(room, Lowered(to) + OwnSeen(own))
  {
    var seen := Lowered(to);
    if own != "" {
      seen := seen + [own];
    }
    ghost var start := Lowered(to) + OwnSeen(own);
    assert seen == start;
    cc := [];
    for i := 0 to |room|
      invariant cc + Fresh(room[i..], seen) == Fresh(room, start)
    {
      OneFurther(room, i);
      if !ContainsAddr(seen, room[i]) {
        seen := seen + [ToAsciiLower(room[i])];
        cc := cc + [room[i]];
      }
    }
  }

  // ---- What the filters mean -----------------------------------------------------------------

  lemma {:induction false} ExcludingIs(list: seq<string>, seen: seq<string>, a: string)
    ensures a in Excluding(list, seen) <==> a in list && !ContainsAddr(seen, a)
  {
    if list != [] {
      ExcludingIs(list[1..], seen, a);
      assert a in list <==> a == list[0] || a in list[1..];
    }
  }

  predicate Named(list: seq<string>, lower: string) {
    exists i :: 0 <= i < |list| && ToAsciiLower(list[i]) == lower
  }

  /** A position of `list` that survives: not in `seen` and not named earlier. */
  predicate Kept(list: seq<string>, seen: seq<string>, j: nat) {
    j < |list| && !ContainsAddr(seen, list[j]) && !Named(list[..j], ToAsciiLower(list[j]))
  }

  predicate Increasing(at: seq<nat>) {
    forall i, j :: 0 <= i < j < |at| ==> at[i] < at[j]
  }

  function Shifted(at: seq<nat>): (r: seq<nat>)
    ensures |r| == |at| && forall i :: 0 <= i < |r| ==> r[i] == at[i] + 1
  {
    seq(|at|, i requires 0 <= i < |at| => at[i] + 1)
  }

  lemma KeptNext(list: seq<string>, seen: seq<string>, j: nat)
    requires list != []
    ensures var now := if ContainsAddr(seen, list[0]) then seen else seen + [ToAsciiLower(list[0])];
            Kept(list, seen, j + 1) <==> Kept(list[1..], now, j)
  {
    if j + 1 < |list| {
      var head, tail, l := list[..j + 1], list[1..][..j], ToAsciiLower(list[j + 1]);
      assert head == [list[0]] + tail;
      assert Named(head, l) <==> ToAsciiLower(list[0]) == l || Named(tail, l) by {
        if Named(tail, l) {
          var i :| 0 <= i < |tail| && ToAsciiLower(tail[i]) == l;
          assert head[i + 1] == tail[i];
        }
        assert head[0] == list[0];
      }
    }
  }

  lemma KeptShifted(list: seq<string>, seen: seq<string>, now: seq<string>, rest: seq<nat>)
    requires list != [] && now == if ContainsAddr(seen, list[0]) then seen else seen + [ToAsciiLower(list[0])]
    requires forall i :: 0 <= i < |rest| ==> Kept(list[1..], now, rest[i])
    ensures forall i :: 0 <= i < |rest| ==> Kept(list, seen, Shifted(rest)[i])
  {
    forall i | 0 <= i < |rest| ensures Kept(list, seen, Shifted(rest)[i]) {
      KeptNext(list, seen, rest[i]);
    }
  }

  lemma KeptFound(list: seq<string>, seen: seq<string>, now: seq<string>, rest: seq<nat>)
    requires list != [] && now == if ContainsAddr(seen, list[0]) then seen else seen + [ToAsciiLower(list[0])]
    requires forall j: nat :: Kept(list[1..], now, j) ==> j in rest
    ensures forall j: nat :: Kept(list, seen, j) && j > 0 ==> j in Shifted(rest)
  {
    forall j: nat | Kept(list, seen, j) && j > 0 ensures j in Shifted(rest) {
      KeptNext(list, seen, j - 1);
      var i :| 0 <= i < |rest| && rest[i] == j - 1;
      assert Shifted(rest)[i] == j;
    }
  }

  /** `Fresh` is exactly the surviving positions of the list, in order. */
  lemma {:induction false} FreshIsKept(list: seq<string>, seen: seq<string>) returns (at: seq<nat>)
    ensures Increasing(at) && |at| == |Fresh(list, seen)|
    ensures forall i :: 0 <= i < |at| ==> Kept(list, seen, at[i]) && Fresh(list, seen)[i] == list[at[i]]
    ensures forall j: nat :: Kept(list, seen, j) ==> j in at
  {
    if list == [] {
      at := [];
    } else if ContainsAddr(seen, list[0]) {
      var rest := FreshIsKept(list[1..], seen);
      at := Shifted(rest);
      KeptShifted(list, seen, seen, rest);
      KeptFound(list, seen, seen, rest);
    } else {
      var rest := FreshIsKept(list[1..], seen + [ToAsciiLower(list[0])]);
      at := HeadToo(list, seen, seen + [ToAsciiLower(list[0])], rest);
    }
  }

  lemma HeadToo(list: seq<string>, seen: seq<string>, now: seq<string>, rest: seq<nat>) returns (at: seq<nat>)
    requires list != [] && !ContainsAddr(seen, list[0]) && now == seen + [ToAsciiLower(list[0])]
    requires Increasing(rest) && |rest| == |Fresh(list[1..], now)|
    requires forall i :: 0 <= i < |rest| ==> Kept(list[1..], now, rest[i]) && Fresh(list[1..], now)[i] == list[1..][rest[i]]
    requires forall j: nat :: Kept(list[1..], now, j) ==> j in rest
    ensures Increasing(at) && |at| == |Fresh(list, seen)|
    ensures forall i :: 0 <= i < |at| ==> Kept(list, seen, at[i]) && Fresh(list, seen)[i] == list[at[i]]
    ensures forall j: nat :: Kept(list, seen, j) ==> j in at
  {
    at := [0] + Shifted(rest);
    KeptShifted(list, seen, now, rest);
    KeptFound(list, seen, now, rest);
    HeadKept(list, seen, rest, at);
    HeadPicked(list, Fresh(list[1..], now), rest, at);
    HeadFirst(rest, at);
    forall j: nat | Kept(list, seen, j) ensures j in at {
      if j > 0 {
        assert j in Shifted(rest);
      }
    }
  }

  lemma HeadFirst(rest: seq<nat>, at: seq<nat>)
    requires Increasing(rest) && at == [0] + Shifted(rest)
    ensures Increasing(at) && 0 in at && forall j :: j in Shifted(rest) ==> j in at
  {
    forall i, j | 0 <= i < j < |at| ensures at[i] < at[j] {
      if i > 0 {
        assert at[i] == rest[i - 1] + 1 && at[j] == rest[j - 1] + 1;
      }
    }
    assert at[0] == 0;
  }

  lemma HeadKept(list: seq<string>, seen: seq<string>, rest: seq<nat>, at: seq<nat>)
    requires list != [] && !ContainsAddr(seen, list[0]) && at == [0] + Shifted(rest)
    requires forall i :: 0 <= i < |rest| ==> Kept(list, seen, Shifted(rest)[i])
    ensures forall i :: 0 <= i < |at| ==> Kept(list, seen, at[i])
  {
    assert Kept(list, seen, 0);
  }

  lemma HeadPicked(list: seq<string>, news: seq<string>, rest: seq<nat>, at: seq<nat>)
    requires list != [] && at == [0] + Shifted(rest) && |rest| == |news|
    requires forall i :: 0 <= i < |rest| ==> rest[i] < |list[1..]| && news[i] == list[1..][rest[i]]
    ensures forall i :: 0 <= i < |at| ==> at[i] < |list| && ([list[0]] + news)[i] == list[at[i]]
  {
    forall i | 1 <= i < |at| ensures at[i] < |list| && ([list[0]] + news)[i] == list[at[i]] {
      assert at[i] == rest[i - 1] + 1;
    }
  }

  /** Everyone in the list is named in the result or was seen before. */
  lemma {:induction false} FreshConserves(list: seq<string>, seen: seq<string>, a: string)
    requires a in list
    ensures ContainsAddr(seen, a) || Named(Fresh(list, seen), ToAsciiLower(a))
  {
    var i :| 0 <= i < |list| && list[i] == a;
    var j := FirstNamed(list, ToAsciiLower(a), i);
    if !ContainsAddr(seen, a) {
      var at := FreshIsKept(list, seen);
      assert Kept(list, seen, j);
      var k :| 0 <= k < |at| && at[k] == j;
      assert Fresh(list, seen)[k] == list[j];
    }
  }

  lemma {:induction false} FirstNamed(list: seq<string>, lower: string, i: nat) returns (j: nat)
    requires i < |list| && ToAsciiLower(list[i]) == lower
    ensures j <= i && ToAsciiLower(list[j]) == lower && !Named(list[..j], lower)
    decreases i
  {
    if Named(list[..i], lower) {
      var k :| 0 <= k < |list[..i]| && ToAsciiLower(list[..i][k]) == lower;
      j := FirstNamed(list, lower, k);
    } else {
      j := i;
    }
  }

  // ---- The room ------------------------------------------------------------------------------

  /** Everyone the parent addressed, the account itself apart. */
  function Room(h: ParentHeaders, lib: Library): seq<string> {
    Listed(h.to, lib) + Listed(h.cc, lib)
  }

  predicate Distinct(list: seq<string>) {
    forall i, j :: 0 <= i < j < |list| ==> ToAsciiLower(list[i]) != ToAsciiLower(list[j])
  }

  /** Reply-all reaches the whole room: nobody on the parent is dropped except the account, nobody is
      addressed twice, nobody is copied who is already in `to`, and the copies keep their order. */
  lemma ReplyAllConservesTheRoom(h: ParentHeaders, own: string, lib: Library)
    ensures var r := Derive(h, own, true, lib);
            && (forall a :: a in Room(h, lib) ==>
                  (own != "" && ToAsciiLower(a) == own) || Named(r.to, ToAsciiLower(a)) || Named(r.cc, ToAsciiLower(a)))
            && (forall i :: 0 <= i < |r.cc| ==> !Named(r.to, ToAsciiLower(r.cc[i])) && (own != "" ==> ToAsciiLower(r.cc[i]) != own))
            && Distinct(r.cc)
            && (exists at :: Increasing(at) && Picks(Room(h, lib), at, r.cc))
  {
    var r, room := Derive(h, own, true, lib), Room(h, lib);
    var seen := Lowered(r.to) + OwnSeen(own);
    var at := FreshIsKept(room, seen);
    forall a | a in room
      ensures (own != "" && ToAsciiLower(a) == own) || Named(r.to, ToAsciiLower(a)) || Named(r.cc, ToAsciiLower(a))
    {
      FreshConserves(room, seen, a);
      SeenIs(r.to, own, ToAsciiLower(a));
    }
    forall i | 0 <= i < |r.cc|
      ensures !Named(r.to, ToAsciiLower(r.cc[i])) && (own != "" ==> ToAsciiLower(r.cc[i]) != own)
    {
      assert Kept(room, seen, at[i]);
      SeenIs(r.to, own, ToAsciiLower(r.cc[i]));
    }
    forall i, j | 0 <= i < j < |r.cc| ensures ToAsciiLower(r.cc[i]) != ToAsciiLower(r.cc[j]) {
      assert Kept(room, seen, at[j]);
      assert room[..at[j]][at[i]] == room[at[i]] == r.cc[i];
    }
    assert Picks(room, at, r.cc);
  }

  /** `chosen` is what stands in `list` at the positions `at`. */
  predicate Picks(list: seq<string>, at: seq<nat>, chosen: seq<string>) {
    |at| == |chosen| && forall i :: 0 <= i < |at| ==> at[i] < |list| && list[at[i]] == chosen[i]
  }

  lemma SeenIs(to: seq<string>, own: string, lower: string)
    ensures lower in Lowered(to) + OwnSeen(own) <==> Named(to, lower) || (own != "" && lower == own)
  {
    if Named(to, lower) {
      var i :| 0 <= i < |to| && ToAsciiLower(to[i]) == lower;
      assert Lowered(to)[i] == lower;
    }
    if lower in Lowered(to) {
      var i :| 0 <= i < |to| && Lowered(to)[i] == lower;
      assert ToAsciiLower(to[i]) == lower;
    }
  }

  /** Nobody is invented: every recipient stands in a header of the parent. */
  lemma NobodyInvented(h: ParentHeaders, own: string, replyAll: bool, lib: Library, a: string)
    requires a in Derive(h, own, replyAll, lib).to || a in Derive(h, own, replyAll, lib).cc
    ensures a in Listed(h.from, lib) || a in Listed(h.replyTo, lib) || a in Room(h, lib)
  {
    var r, room := Derive(h, own, replyAll, lib), Room(h, lib);
    ExcludingIs(Listed(h.to, lib), [own], a);
    if replyAll && a in r.cc {
      var seen := Lowered(r.to) + OwnSeen(own);
      var at := FreshIsKept(room, seen);
      var i :| 0 <= i < |r.cc| && r.cc[i] == a;
      assert room[at[i]] == a;
    }
  }

  /** The account is recognised by its address, whatever its case and the blanks around it. */
  lemma {:induction false} OwnOfPadded(before: string, own: string, behind: string)
    requires IsBlank(before) && IsBlank(behind) && Emittable(own)
    ensures OwnOf(before + (own + behind)) == ToAsciiLower(own)
    decreases |before| + |behind|
  {
    if before != "" {
      TailOf(before, own + behind);
      assert before[0] in before && forall c <- before[1..] :: c in before;
      OwnOfPadded(before[1..], own, behind);
    } else {
      NilLeft(before, own + behind);
      assert (own + behind)[0] == own[0];
      EndTrimmed(own, behind);
    }
  }

  lemma {:induction false} EndTrimmed(own: string, behind: string)
    requires IsBlank(behind) && Emittable(own)
    ensures TrimEnd(own + behind) == own
  {
    if behind == "" {
      NilRight(own);
    } else {
      TailOfPrefix(own, behind);
      assert behind[|behind| - 1] in behind && forall c <- behind[..|behind| - 1] :: c in behind;
      EndTrimmed(own, behind[..|behind| - 1]);
    }
  }

  /** A plain reply goes to the parent's `Reply-To` when it names anybody, else to its `From`, and copies
      nobody. */
  lemma ReplyGoesTo(h: ParentHeaders, own: string, lib: Library)
    ensures var r := Derive(h, own, false, lib);
            && (Listed(h.replyTo, lib) != [] ==> r.to == Listed(h.replyTo, lib))
            && (Listed(h.replyTo, lib) == [] ==> r.to == Listed(h.from, lib))
            && r.cc == []
  {
  }

  lemma {:induction false} ExcludingLast(list: seq<string>, last: string, seen: seq<string>)
    ensures Excluding(list + [last], seen) == Excluding(list, seen) + if ContainsAddr(seen, last) then [] else [last]
  {
    if list == [] {
      NilLeft(list, [last]);
    } else {
      TailOf(list, [last]);
      ExcludingLast(list[1..], last, seen);
    }
  }

  /** `Excluding` is surviving positions of the list, in order. */
  lemma {:induction false} ExcludingPicks(list: seq<string>, seen: seq<string>) returns (at: seq<nat>)
    ensures Increasing(at) && Picks(list, at, Excluding(list, seen))
  {
    at := [];
    if list != [] {
      var n := |list| - 1;
      at := ExcludingPicks(list[..n], seen);
      assert list == list[..n] + [list[n]];
      ExcludingLast(list[..n], list[n], seen);
      if !ContainsAddr(seen, list[n]) {
        at := at + [n];
      }
    }
  }

  /** A reply-all goes where a plain reply would, unless that is the account alone and the parent's `To`
      names somebody else: then to all of those, in order, and the account is on neither list. */
  lemma OwnMessageIsPromoted(h: ParentHeaders, own: string, lib: Library)
    ensures var r, to, headerTo := Derive(h, own, true, lib), Derive(h, own, false, lib).to, Listed(h.to, lib);
            var mirror := own != "" && to != [] && forall i :: 0 <= i < |to| ==> ToAsciiLower(to[i]) == own;
            var others := exists a :: a in headerTo && ToAsciiLower(a) != own;
            && (!mirror || !others ==> r.to == to)
            && (mirror && others ==>
                  && (forall a :: a in r.to <==> a in headerTo && ToAsciiLower(a) != own)
                  && (exists at :: Increasing(at) && Picks(headerTo, at, r.to))
                  && !Named(r.to + r.cc, own))
  {
    var r, to, headerTo := Derive(h, own, true, lib), Derive(h, own, false, lib).to, Listed(h.to, lib);
    OthersAre(headerTo, own);
    var at := ExcludingPicks(headerTo, [own]);
    if Excluding(headerTo, [own]) != [] {
      assert Excluding(headerTo, [own])[0] in Excluding(headerTo, [own]);
      if IsOwnEcho(to, own) {
        assert Picks(headerTo, at, r.to);
        ReplyAllConservesTheRoom(h, own, lib);
        NotMirrored(r.to, r.cc, own);
      }
    }
  }

  lemma OthersAre(headerTo: seq<string>, own: string)
    ensures forall a :: a in Excluding(headerTo, [own]) <==> a in headerTo && ToAsciiLower(a) != own
  {
    forall a ensures a in Excluding(headerTo, [own]) <==> a in headerTo && ToAsciiLower(a) != own {
      ExcludingIs(headerTo, [own], a);
    }
  }

  lemma NotMirrored(to: seq<string>, cc: seq<string>, own: string)
    requires forall a :: a in to ==> ToAsciiLower(a) != own
    requires forall i :: 0 <= i < |cc| ==> ToAsciiLower(cc[i]) != own
    ensures !Named(to + cc, own)
  {
    var all := to + cc;
    forall i | 0 <= i < |all| ensures ToAsciiLower(all[i]) != own {
      if i < |to| {
        assert all[i] in to;
      } else {
        assert all[i] == cc[i - |to|];
      }
    }
  }

  // ---- Filtering one list against others -----------------------------------------------------

  function AllListed(values: seq<string>, lib: Library): seq<string> {
    if values == [] then [] else ParseAddrList(values[0], lib) + AllListed(values[1..], lib)
  }

  function AddrsExcluding(list: string, exclude: seq<string>, lib: Library): string {
    JoinComma(Excluding(ParseAddrList(list, lib), Lowered(AllListed(exclude, lib))))
  }

  lemma LoweredIs(list: seq<string>, lower: string)
    ensures lower in Lowered(list) <==> Named(list, lower)
  {
    if Named(list, lower) {
      var i :| 0 <= i < |list| && ToAsciiLower(list[i]) == lower;
      assert Lowered(list)[i] == lower;
    }
    if lower in Lowered(list) {
      var i :| 0 <= i < |list| && Lowered(list)[i] == lower;
      assert ToAsciiLower(list[i]) == lower;
    }
  }

  /** Reading the filtered value back gives exactly the addresses that stood in the list and in none
      of the others. */
  lemma ExcludedAreGone(list: string, exclude: seq<string>, lib: Library, a: string)
    requires Faithful(lib)
    ensures a in ParseAddrList(AddrsExcluding(list, exclude, lib), lib)
            <==> a in ParseAddrList(list, lib) && !Named(AllListed(exclude, lib), ToAsciiLower(a))
  {
    var kept := Excluding(ParseAddrList(list, lib), Lowered(AllListed(exclude, lib)));
    ParseJoined(kept, lib);
    ExcludingIs(ParseAddrList(list, lib), Lowered(AllListed(exclude, lib)), a);
    LoweredIs(AllListed(exclude, lib), ToAsciiLower(a));
  }
}
