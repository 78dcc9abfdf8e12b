/** A grouped recall walk: pages cut from a growing candidate window, the ids already served carried in
    the cursor. The mailbox stands still; its ranking may still move with the window. */
module RecallWalk {
  import opened Wrappers

  const MAX_RECALL_K := 600

  /** What the store answers from. `pool` is the candidate ids of a window, ranked however they are;
      `full` is its flag that the window was filled, for a window, the excluded ids and the done filter. */
  datatype Mailbox = Mailbox(pool: nat -> seq<int>, isDone: int -> bool, full: (nat, seq<int>, bool) -> bool)

  datatype Resume = Resume(seen: seq<int>, k: nat, done: bool)

  const FIRST_PAGE := Resume([], 0, false)

  predicate Distinct(ids: seq<int>) {
    forall i, j :: 0 <= i < j < |ids| ==> ids[i] != ids[j]
  }

  /** Candidates are listed once, and a flag that is down means the window held all there is. */
  ghost predicate Sound(m: Mailbox) {
    && (forall k: nat :: Distinct(m.pool(k)))
    && (forall k: nat, seen, done, id :: k <= MAX_RECALL_K && !m.full(k, seen, done) && id in m.pool(MAX_RECALL_K) ==> id in m.pool(k))
  }

  // ---- One page ------------------------------------------------------------------------------

  function Left(ids: seq<int>, seen: seq<int>, isDone: int -> bool, done: bool): seq<int> {
    if ids == [] then []
    else (if ids[0] !in seen && isDone(ids[0]) == done then [ids[0]] else []) + Left(ids[1..], seen, isDone, done)
  }

  function Unfinished(m: Mailbox, k: nat, r: Resume): seq<int> {
    if r.done then [] else Left(m.pool(k), r.seen, m.isDone, false)
  }

  /** The hits of a window: what was not served, unfinished first; only done mail once that has begun. */
  function Hits(m: Mailbox, k: nat, r: Resume): seq<int> {
    Unfinished(m, k, r) + Left(m.pool(k), r.seen, m.isDone, true)
  }

  function PageLimit(r: Resume, limit: nat): nat {
    var left := if |r.seen| <= MAX_RECALL_K then MAX_RECALL_K - |r.seen| else 0;
    if limit < left then limit else left
  }

  function Page(m: Mailbox, k: nat, r: Resume, limit: nat): (items: seq<int>)
    ensures |items| <= PageLimit(r, limit) && items <= Hits(m, k, r)
  {
    var hits := Hits(m, k, r);
    if |hits| <= PageLimit(r, limit) then hits else hits[..PageLimit(r, limit)]
  }

  function UnfinishedCount(items: seq<int>, isDone: int -> bool): (n: nat)
    ensures n <= |items|
  {
    if items == [] then 0 else (if isDone(items[0]) then 0 else 1) + UnfinishedCount(items[1..], isDone)
  }

  /** Whether a wider window is worth trying: the page is short, or done mail would come too early. */
  predicate Widens(m: Mailbox, k: nat, r: Resume, limit: nat) {
    var items := Page(m, k, r, limit);
    && m.full(k, r.seen, r.done) && k < MAX_RECALL_K
    && (|items| < limit || (!r.done && UnfinishedCount(items, m.isDone) < limit))
  }

  function Wider(k: nat, limit: nat): nat {
    var grown := if 2 * k > k + limit then 2 * k else k + limit;
    if grown < MAX_RECALL_K then grown else MAX_RECALL_K
  }

  function FinalK(m: Mailbox, k: nat, r: Resume, limit: nat): (last: nat)
    requires limit > 0
    ensures !Widens(m, last, r, limit) && last >= k
    ensures k <= MAX_RECALL_K ==> last <= MAX_RECALL_K
    decreases MAX_RECALL_K - k
  {
    if Widens(m, k, r, limit) then FinalK(m, Wider(k, limit), r, limit) else k
  }

  function Max(a: nat, b: nat): nat {
    if a > b then a else b
  }

  /** The window a page starts from: the page's own, the last one, and room behind what was served. */
  function FirstK(k: nat, r: Resume, limit: nat): nat {
    var wanted := Max(Max(k, r.k), |r.seen| + limit);
    if wanted < MAX_RECALL_K then wanted else MAX_RECALL_K
  }

  datatype Served = Served(items: seq<int>, next: Option<Resume>)

  predicate AnyDone(items: seq<int>, isDone: int -> bool) {
    exists i :: 0 <= i < |items| && isDone(items[i])
  }

  function Advanced(m: Mailbox, r: Resume, items: seq<int>, k: nat): Resume {
    Resume(r.seen + items, k, r.done || AnyDone(items, m.isDone))
  }

  function Serve(m: Mailbox, r: Resume, limit: nat, k: nat): Served
    requires limit > 0
  {
    var last := FinalK(m, FirstK(k, r, limit), r, limit);
    var items := Page(m, last, r, limit);
    var after := Advanced(m, r, items, last);
    Served(items, if items != [] && |after.seen| < MAX_RECALL_K && (|items| == limit || m.full(last, r.seen, r.done))
                  then Some(after) else None)
  }

  /** The grouped-recall loop of `search`. */
  method ServePage(m: Mailbox, r: Resume, limit: nat, k: nat) returns (page: Served)
    requires limit > 0
    ensures page == Serve(m, r, limit, k)
  {
    var currentK := FirstK(k, r, limit);
    var pageLimit := PageLimit(r, limit);
    var items, full := [], false;
    while true
      invariant currentK <= MAX_RECALL_K
      invariant FinalK(m, currentK, r, limit) == FinalK(m, FirstK(k, r, limit), r, limit)
      decreases MAX_RECALL_K - currentK
    {
      var hits := Hits(m, currentK, r);
      items, full := if |hits| <= pageLimit then hits else hits[..pageLimit], m.full(currentK, r.seen, r.done);
      var unfinished := UnfinishedCount(items, m.isDone);
      if full && currentK < MAX_RECALL_K && (|items| < limit || (!r.done && unfinished < limit)) {
        currentK := Wider(currentK, limit);
      } else {
        break;
      }
    }
    var next := None;
    if items != [] {
      var after := Resume(r.seen + items, currentK, r.done || exists i :: 0 <= i < |items| && m.isDone(items[i]));
      if |after.seen| < MAX_RECALL_K && (|items| == limit || full) {
        next := Some(after);
      }
    }
    page := Served(items, next);
  }

  // ---- The invariant of a walk ---------------------------------------------------------------

  /** Every done id comes behind every unfinished id of the pool. */
  predicate InOrder(m: Mailbox, served: seq<int>) {
    forall i, u :: 0 <= i < |served| && m.isDone(served[i]) && u in m.pool(MAX_RECALL_K) && !m.isDone(u) ==> u in served[..i]
  }

  predicate UnfinishedServed(m: Mailbox, served: seq<int>) {
    forall u :: u in m.pool(MAX_RECALL_K) && !m.isDone(u) ==> u in served
  }

  predicate GoodWalk(m: Mailbox, served: seq<int>) {
    Distinct(served) && |served| <= MAX_RECALL_K && InOrder(m, served)
  }

  predicate GoodResume(m: Mailbox, r: Resume) {
    && GoodWalk(m, r.seen) && r.k <= MAX_RECALL_K
    && (r.done ==> UnfinishedServed(m, r.seen))
  }

  lemma {:induction false} InLeft(ids: seq<int>, seen: seq<int>, isDone: int -> bool, done: bool, id: int)
    ensures id in Left(ids, seen, isDone, done) <==> id in ids && id !in seen && isDone(id) == done
  {
    if ids != [] {
      InLeft(ids[1..], seen, isDone, done, id);
      assert id in ids <==> id == ids[0] || id in ids[1..];
    }
  }

  lemma {:induction false} LeftDistinct(ids: seq<int>, seen: seq<int>, isDone: int -> bool, done: bool)
    requires Distinct(ids)
    ensures Distinct(Left(ids, seen, isDone, done))
  {
    if ids != [] {
      LeftDistinct(ids[1..], seen, isDone, done);
      InLeft(ids[1..], seen, isDone, done, ids[0]);
    }
  }

  lemma LeftMembers(m: Mailbox, k: nat, r: Resume, done: bool)
    ensures forall id :: id in Left(m.pool(k), r.seen, m.isDone, done) ==> id !in r.seen && m.isDone(id) == done
  {
    forall id | id in Left(m.pool(k), r.seen, m.isDone, done) ensures id !in r.seen && m.isDone(id) == done {
      InLeft(m.pool(k), r.seen, m.isDone, done, id);
    }
  }

  lemma HitsDistinct(m: Mailbox, k: nat, r: Resume)
    requires Distinct(m.pool(k))
    ensures Distinct(Hits(m, k, r))
    ensures forall id :: id in Hits(m, k, r) ==> id !in r.seen
  {
    var u, d := Unfinished(m, k, r), Left(m.pool(k), r.seen, m.isDone, true);
    LeftDistinct(m.pool(k), r.seen, m.isDone, false);
    LeftDistinct(m.pool(k), r.seen, m.isDone, true);
    LeftMembers(m, k, r, false);
    LeftMembers(m, k, r, true);
    forall i, j | 0 <= i < |u| && 0 <= j < |d| ensures u[i] != d[j] {
      assert u[i] in u && d[j] in d;
    }
  }

  lemma {:induction false} CountBelow(items: seq<int>, isDone: int -> bool, i: nat)
    requires i < |items| && isDone(items[i])
    ensures UnfinishedCount(items, isDone) < |items|
  {
    if i > 0 {
      CountBelow(items[1..], isDone, i - 1);
    }
  }

  /** When a page holds a done id, the window it was cut from holds the whole pool. */
  lemma DoneNeedsWholePool(m: Mailbox, k: nat, r: Resume, limit: nat, i: nat)
    requires Sound(m) && limit > 0 && k <= MAX_RECALL_K && !r.done && !Widens(m, k, r, limit)
    requires i < |Page(m, k, r, limit)| && m.isDone(Page(m, k, r, limit)[i])
    ensures forall id :: id in m.pool(MAX_RECALL_K) ==> id in m.pool(k)
  {
    CountBelow(Page(m, k, r, limit), m.isDone, i);
  }

  /** Every unfinished id of the pool stands before the first done id of the page, or was served. */
  lemma UnfinishedComeFirst(m: Mailbox, k: nat, r: Resume, limit: nat, i: nat, u: int)
    requires Sound(m) && limit > 0 && k <= MAX_RECALL_K && GoodResume(m, r) && !Widens(m, k, r, limit)
    requires i < |Page(m, k, r, limit)| && m.isDone(Page(m, k, r, limit)[i])
    requires u in m.pool(MAX_RECALL_K) && !m.isDone(u)
    ensures u in r.seen || u in Page(m, k, r, limit)[..i]
  {
    if !r.done {
      var items, first := Page(m, k, r, limit), Unfinished(m, k, r);
      DoneNeedsWholePool(m, k, r, limit, i);
      InLeft(m.pool(k), r.seen, m.isDone, false, u);
      if i < |first| {
        assert items[i] == first[i];
        InLeft(m.pool(k), r.seen, m.isDone, false, first[i]);
        assert false;
      }
      assert items[..|first|] == first;
      if u in first {
        var j :| 0 <= j < |first| && first[j] == u;
        assert items[..i][j] == u;
      }
    }
  }

  lemma AdvanceDistinct(m: Mailbox, k: nat, r: Resume, limit: nat)
    requires Sound(m) && limit > 0 && GoodResume(m, r)
    ensures Distinct(r.seen + Page(m, k, r, limit)) && |r.seen + Page(m, k, r, limit)| <= MAX_RECALL_K
  {
    var items, hits := Page(m, k, r, limit), Hits(m, k, r);
    HitsDistinct(m, k, r);
    assert forall i :: 0 <= i < |items| ==> items[i] == hits[i] && hits[i] in hits;
  }

  lemma AdvanceInOrder(m: Mailbox, k: nat, r: Resume, limit: nat)
    requires Sound(m) && limit > 0 && k <= MAX_RECALL_K && GoodResume(m, r) && !Widens(m, k, r, limit)
    ensures InOrder(m, r.seen + Page(m, k, r, limit))
    ensures r.done || AnyDone(Page(m, k, r, limit), m.isDone) ==> UnfinishedServed(m, r.seen + Page(m, k, r, limit))
  {
    var items := Page(m, k, r, limit);
    var all, n := r.seen + items, |r.seen|;
    forall i, u | 0 <= i < |all| && m.isDone(all[i]) && u in m.pool(MAX_RECALL_K) && !m.isDone(u)
      ensures u in all[..i]
    {
      if i < n {
        assert u in r.seen[..i];
        assert all[..i] == r.seen[..i];
      } else {
        UnfinishedComeFirst(m, k, r, limit, i - n, u);
        assert all[..i] == r.seen + items[..i - n];
      }
    }
    if AnyDone(items, m.isDone) {
      var i :| 0 <= i < |items| && m.isDone(items[i]);
      assert all[n + i] == items[i];
      assert forall u :: u in all[..n + i] ==> u in all;
    }
  }

  /** One page from a good cursor leaves a good cursor, whatever limit and window the client asks for. */
  lemma ServeKeeps(m: Mailbox, r: Resume, limit: nat, k: nat)
    requires Sound(m) && limit > 0 && GoodResume(m, r)
    ensures var page := Serve(m, r, limit, k);
            && GoodWalk(m, r.seen + page.items)
            && (page.next.Some? ==> GoodResume(m, page.next.value) && page.next.value.seen == r.seen + page.items
                                    && |r.seen| < |page.next.value.seen| < MAX_RECALL_K)
  {
    var last := FinalK(m, FirstK(k, r, limit), r, limit);
    AdvanceDistinct(m, last, r, limit);
    AdvanceInOrder(m, last, r, limit);
  }

  // ---- The order of a page -------------------------------------------------------------------

  /** `a` is ranked ahead of `b`. */
  predicate Ahead(pool: seq<int>, a: int, b: int) {
    exists x, y :: 0 <= x < y < |pool| && pool[x] == a && pool[y] == b
  }

  lemma AheadGrows(first: int, rest: seq<int>, a: int, b: int)
    requires Ahead(rest, a, b) || (a == first && b in rest)
    ensures Ahead([first] + rest, a, b)
  {
    var pool := [first] + rest;
    if Ahead(rest, a, b) {
      var x, y :| 0 <= x < y < |rest| && rest[x] == a && rest[y] == b;
      assert pool[x + 1] == a && pool[y + 1] == b;
    } else {
      var y :| 0 <= y < |rest| && rest[y] == b;
      assert pool[0] == a && pool[y + 1] == b;
    }
  }

  lemma {:induction false} LeftInOrder(ids: seq<int>, seen: seq<int>, isDone: int -> bool, done: bool, i: nat, j: nat)
    requires i < j < |Left(ids, seen, isDone, done)|
    ensures Ahead(ids, Left(ids, seen, isDone, done)[i], Left(ids, seen, isDone, done)[j])
    decreases |ids|
  {
    var all, rest := Left(ids, seen, isDone, done), Left(ids[1..], seen, isDone, done);
    var here := ids[0] !in seen && isDone(ids[0]) == done;
    assert ids == [ids[0]] + ids[1..];
    if here && i == 0 {
      InLeft(ids[1..], seen, isDone, done, rest[j - 1]);
      AheadGrows(ids[0], ids[1..], ids[0], rest[j - 1]);
    } else {
      var n := if here then 1 else 0;
      LeftInOrder(ids[1..], seen, isDone, done, i - n, j - n);
      AheadGrows(ids[0], ids[1..], rest[i - n], rest[j - n]);
    }
  }

  /** The hits of a page stand in the ranking of its window, the unfinished among themselves and the done
      among themselves, and no done one stands ahead of an unfinished one. */
  lemma PageInRankOrder(m: Mailbox, k: nat, r: Resume, limit: nat, i: nat, j: nat)
    requires i < j < |Page(m, k, r, limit)|
    ensures var items := Page(m, k, r, limit);
            && (m.isDone(items[i]) ==> m.isDone(items[j]))
            && (m.isDone(items[i]) == m.isDone(items[j]) ==> Ahead(m.pool(k), items[i], items[j]))
  {
    var items, hits, first := Page(m, k, r, limit), Hits(m, k, r), Unfinished(m, k, r);
    var last := Left(m.pool(k), r.seen, m.isDone, true);
    assert hits == first + last && items[i] == hits[i] && items[j] == hits[j];
    if j < |first| {
      InLeft(m.pool(k), r.seen, m.isDone, false, first[i]);
      LeftInOrder(m.pool(k), r.seen, m.isDone, false, i, j);
    } else {
      InLeft(m.pool(k), r.seen, m.isDone, true, last[j - |first|]);
      if i < |first| {
        InLeft(m.pool(k), r.seen, m.isDone, false, first[i]);
      } else {
        InLeft(m.pool(k), r.seen, m.isDone, true, last[i - |first|]);
        LeftInOrder(m.pool(k), r.seen, m.isDone, true, i - |first|, j - |first|);
      }
    }
  }

  /** So does what is served, in the ranking of some window of at most 600. */
  lemma ServedInRankOrder(m: Mailbox, r: Resume, limit: nat, k: nat) returns (window: nat)
    requires limit > 0
    ensures window <= MAX_RECALL_K
    ensures var items := Serve(m, r, limit, k).items;
            forall i, j :: 0 <= i < j < |items| ==>
              && (m.isDone(items[i]) ==> m.isDone(items[j]))
              && (m.isDone(items[i]) == m.isDone(items[j]) ==> Ahead(m.pool(window), items[i], items[j]))
  {
    window := FinalK(m, FirstK(k, r, limit), r, limit);
    var items := Serve(m, r, limit, k).items;
    forall i, j | 0 <= i < j < |items|
      ensures m.isDone(items[i]) ==> m.isDone(items[j])
      ensures m.isDone(items[i]) == m.isDone(items[j]) ==> Ahead(m.pool(window), items[i], items[j])
    {
      PageInRankOrder(m, window, r, limit, i, j);
    }
  }

  /** The window a page is cut from is no narrower than was asked, than the last one and than what was
      served and is wanted; there is a next page exactly when this one served something, fewer than 600
      were served in all, and the page or the window was full; it goes on behind this one, and to done
      mail alone once any was served. */
  lemma NextPage(m: Mailbox, r: Resume, limit: nat, k: nat) returns (window: nat)
    requires limit > 0
    ensures window <= MAX_RECALL_K
    ensures window == MAX_RECALL_K || (window >= k && window >= r.k && window >= |r.seen| + limit)
    ensures var page := Serve(m, r, limit, k);
            && (page.next.Some? <==> page.items != [] && |r.seen| + |page.items| < MAX_RECALL_K
                                     && (|page.items| == limit || m.full(window, r.seen, r.done)))
            && (page.next.Some? ==>
                  var next := page.next.value;
                  && next.seen == r.seen + page.items && next.k == window
                  && (next.done <==> r.done || exists i :: 0 <= i < |page.items| && m.isDone(page.items[i])))
  {
    window := FinalK(m, FirstK(k, r, limit), r, limit);
  }

  // ---- The end of a walk ---------------------------------------------------------------------

  predicate WholePool(m: Mailbox, served: seq<int>) {
    forall id :: id in m.pool(MAX_RECALL_K) ==> id in served
  }

  lemma HitsAreTheRest(m: Mailbox, k: nat, r: Resume)
    requires GoodResume(m, r) && (forall id :: id in m.pool(MAX_RECALL_K) ==> id in m.pool(k))
    ensures WholePool(m, r.seen + Hits(m, k, r))
  {
    forall id | id in m.pool(MAX_RECALL_K) ensures id in r.seen + Hits(m, k, r) {
      InLeft(m.pool(k), r.seen, m.isDone, false, id);
      InLeft(m.pool(k), r.seen, m.isDone, true, id);
    }
  }

  /** A page without a next cursor ends the walk for a reason: 600 ids were served, or all there were. */
  lemma EndMeansComplete(m: Mailbox, r: Resume, limit: nat, k: nat)
    requires Sound(m) && limit > 0 && GoodResume(m, r) && Serve(m, r, limit, k).next.None?
    ensures var all := r.seen + Serve(m, r, limit, k).items;
            |all| == MAX_RECALL_K || WholePool(m, all)
  {
    var last := FinalK(m, FirstK(k, r, limit), r, limit);
    var items, hits := Page(m, last, r, limit), Hits(m, last, r);
    AdvanceDistinct(m, last, r, limit);
    if |r.seen + items| < MAX_RECALL_K {
      if |items| != limit {
        assert items == hits;
        assert forall id :: id in m.pool(MAX_RECALL_K) ==> id in m.pool(last);
        HitsAreTheRest(m, last, r);
      }
    }
  }

  // ---- Whole walks ---------------------------------------------------------------------------

  /** What the client asks for with each page: a limit, and the window that goes with it. */
  datatype Turn = Turn(limit: nat, k: nat)

  predicate Asks(turns: seq<Turn>) {
    forall i :: 0 <= i < |turns| ==> turns[i].limit > 0
  }

  /** The pages a client gets that follows the cursors for as many turns as it likes. */
  function Walk(m: Mailbox, r: Resume, turns: seq<Turn>): seq<seq<int>>
    requires Asks(turns)
    decreases |turns|
  {
    if turns == [] then []
    else
      var page := Serve(m, r, turns[0].limit, turns[0].k);
      [page.items] + if page.next.None? then [] else Walk(m, page.next.value, turns[1..])
  }

  function All(pages: seq<seq<int>>): seq<int> {
    if pages == [] then [] else pages[0] + All(pages[1..])
  }

  lemma {:induction false} WalkFrom(m: Mailbox, r: Resume, turns: seq<Turn>)
    requires Sound(m) && Asks(turns) && GoodResume(m, r)
    ensures GoodWalk(m, r.seen + All(Walk(m, r, turns)))
    ensures |Walk(m, r, turns)| <= MAX_RECALL_K + 1 - |r.seen|
    ensures |Walk(m, r, turns)| < |turns| ==>
              |r.seen + All(Walk(m, r, turns))| == MAX_RECALL_K || WholePool(m, r.seen + All(Walk(m, r, turns)))
    decreases |turns|
  {
    if turns == [] {
      assert r.seen + [] == r.seen;
    } else {
      var page := Serve(m, r, turns[0].limit, turns[0].k);
      ServeKeeps(m, r, turns[0].limit, turns[0].k);
      if page.next.None? {
        EndMeansComplete(m, r, turns[0].limit, turns[0].k);
        assert Walk(m, r, turns) == [page.items];
        OnePage(page.items);
      } else {
        WalkFrom(m, page.next.value, turns[1..]);
        MorePages(r.seen, page.items, Walk(m, page.next.value, turns[1..]));
      }
    }
  }

  lemma OnePage(items: seq<int>)
    ensures All([items]) == items
  {
    assert [items][1..] == [];
    assert items + [] == items;
  }

  lemma MorePages(seen: seq<int>, items: seq<int>, rest: seq<seq<int>>)
    ensures seen + All([items] + rest) == (seen + items) + All(rest)
  {
    assert ([items] + rest)[1..] == rest;
    assert seen + (items + All(rest)) == (seen + items) + All(rest);
  }

  /** Every walk over a mailbox that stands still, whatever limits it is walked with: no id twice, at
      most 600 ids, at most 601 pages, no done mail before every unfinished candidate, and a walk that
      ran out of cursors has served 600 ids or the whole pool. */
  lemma WalkIsSafe(m: Mailbox, turns: seq<Turn>)
    requires Sound(m) && Asks(turns)
    ensures var pages := Walk(m, FIRST_PAGE, turns);
            var served := All(pages);
            && Distinct(served) && |served| <= MAX_RECALL_K && InOrder(m, served)
            && |pages| <= MAX_RECALL_K + 1
            && (|pages| < |turns| ==> |served| == MAX_RECALL_K || WholePool(m, served))
  {
    WalkFrom(m, FIRST_PAGE, turns);
    assert FIRST_PAGE.seen + All(Walk(m, FIRST_PAGE, turns)) == All(Walk(m, FIRST_PAGE, turns));
  }
}
