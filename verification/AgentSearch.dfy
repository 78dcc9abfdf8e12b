/** The agent's search: a window over a ranking, doubled until enough of it may be shown. Access is
    applied before the limit, so a hidden leading window must not hide what lies further down. */
module AgentSearch {
  import opened Wrappers
  import opened Seqs

  datatype Mode = Keyword | Semantic | Hybrid

  datatype Hit = Hit(id: nat, subject: string)

  /** One answer of the store: the hits of a window, and whether the window was filled. */
  datatype Window = Window(hits: seq<Hit>, full: bool)

  const DEFAULT_LIMIT := 30
  const MAX_LIMIT := 100
  const SEMANTIC_REACH := 4096
  const KEYWORD_REACH := 0xFFFF_FFFF

  function Clamp(requested: Option<nat>): (limit: nat)
    ensures 1 <= limit <= MAX_LIMIT
  {
    var n := requested.GetOr(DEFAULT_LIMIT);
    if n < 1 then 1 else if n > MAX_LIMIT then MAX_LIMIT else n
  }

  /** 30 unless asked otherwise, and what is asked only between 1 and 100. */
  lemma ClampIs(requested: nat)
    ensures Clamp(None) == 30
    ensures 1 <= requested <= 100 ==> Clamp(Some(requested)) == requested
    ensures requested == 0 ==> Clamp(Some(requested)) == 1
    ensures requested > 100 ==> Clamp(Some(requested)) == 100
  {
  }

  function Take(s: seq<Hit>, n: nat): (r: seq<Hit>)
    ensures |r| <= n && r <= s
  {
    if |s| <= n then s else s[..n]
  }

  /** The hits an agent may see, in their order. */
  function Visible(hits: seq<Hit>, allowed: Hit -> bool): seq<Hit> {
    if hits == [] then []
    else (if allowed(hits[0]) then [hits[0]] else []) + Visible(hits[1..], allowed)
  }

  /** What the store answers for a window. Only the keyword leg pages through rows; the recall legs
      rank afresh for every window, and their flag says whether there may be more. */
  function Candidates(mode: Mode, rows: seq<Hit>, recall: nat -> Window, window: nat): Window {
    match mode
    case Keyword =>
      var hits := Take(rows, if window < KEYWORD_REACH then window else KEYWORD_REACH);
      Window(hits, |hits| == window)
    case Semantic => recall(if window < SEMANTIC_REACH then window else SEMANTIC_REACH)
    case Hybrid => recall(window)
  }

  predicate Done(mode: Mode, limit: nat, shown: seq<Hit>, w: Window, window: nat) {
    |shown| >= limit || !w.full || (mode == Semantic && window >= SEMANTIC_REACH)
  }

  /** The mailbox is finite: from some window on the flag is down. */
  ghost predicate Exhausts(recall: nat -> Window, bound: nat) {
    forall k: nat :: k >= bound ==> !recall(k).full
  }

  function Bound(mode: Mode, rows: seq<Hit>, bound: nat): nat {
    match mode
    case Keyword => |rows| + 1
    case Semantic => SEMANTIC_REACH
    case Hybrid => bound
  }

  /** The window the doubling stops at. */
  ghost function LastWindow(mode: Mode, limit: nat, rows: seq<Hit>, recall: nat -> Window, allowed: Hit -> bool, size: nat,
                            bound: nat): (last: nat)
    requires size >= 1 && (mode == Hybrid ==> Exhausts(recall, bound))
    ensures last >= size
    ensures var w := Candidates(mode, rows, recall, last); Done(mode, limit, Visible(w.hits, allowed), w, last)
    decreases Bound(mode, rows, bound) - size
  {
    var w := Candidates(mode, rows, recall, size);
    if Done(mode, limit, Visible(w.hits, allowed), w, size) then size
    else LastWindow(mode, limit, rows, recall, allowed, size * 2, bound)
  }

  /** The loop of `search`. It ends at the first window that is enough, and what it returns is read off
      that window alone. */
  method Search(mode: Mode, limit: nat, rows: seq<Hit>, recall: nat -> Window, allowed: Hit -> bool, ghost bound: nat)
    returns (hits: seq<Hit>, window: nat)
    requires 1 <= limit && (mode == Hybrid ==> Exhausts(recall, bound))
    ensures window == LastWindow(mode, limit, rows, recall, allowed, limit, bound)
    ensures hits == Take(Visible(Candidates(mode, rows, recall, window).hits, allowed), limit)
  {
    var size := limit;
    while true
      invariant size >= limit
      invariant LastWindow(mode, limit, rows, recall, allowed, size, bound)
                == LastWindow(mode, limit, rows, recall, allowed, limit, bound)
      decreases Bound(mode, rows, bound) - size
    {
      var w := Candidates(mode, rows, recall, size);
      var shown := Visible(w.hits, allowed);
      if |shown| >= limit || !w.full || (mode == Semantic && size >= SEMANTIC_REACH) {
        return Take(shown, limit), size;
      }
      size := size * 2;
    }
  }

  // ---- Filter, then take ---------------------------------------------------------------------

  lemma {:induction false} VisibleAppend(a: seq<Hit>, b: seq<Hit>, allowed: Hit -> bool)
    ensures Visible(a + b, allowed) == Visible(a, allowed) + Visible(b, allowed)
  {
    if a == [] {
      NilLeft(a, b);
    } else {
      TailOf(a, b);
      VisibleAppend(a[1..], b, allowed);
    }
  }

  lemma EnoughIsEnough(prefix: seq<Hit>, all: seq<Hit>, allowed: Hit -> bool, limit: nat)
    requires prefix <= all && |Visible(prefix, allowed)| >= limit
    ensures Take(Visible(prefix, allowed), limit) == Take(Visible(all, allowed), limit)
  {
    assert all == prefix + all[|prefix|..];
    VisibleAppend(prefix, all[|prefix|..], allowed);
  }

  /** What a search ought to return: the whole ranking filtered by access, then cut. */
  function Ideal(ranking: seq<Hit>, reach: nat, allowed: Hit -> bool, limit: nat): seq<Hit> {
    Take(Visible(Take(ranking, reach), allowed), limit)
  }

  /** Keyword search is filter-then-take over the whole ranking, however the hidden hits are spread. */
  method KeywordSearch(requested: Option<nat>, rows: seq<Hit>, recall: nat -> Window, allowed: Hit -> bool) returns (hits: seq<Hit>)
    ensures hits == Ideal(rows, KEYWORD_REACH, allowed, Clamp(requested))
    ensures |rows| <= KEYWORD_REACH ==> hits == Take(Visible(rows, allowed), Clamp(requested))
  {
    var limit := Clamp(requested);
    var window;
    hits, window := Search(Keyword, limit, rows, recall, allowed, 0);
    KeywordIsIdeal(rows, recall, allowed, limit, window);
  }

  lemma KeywordIsIdeal(rows: seq<Hit>, recall: nat -> Window, allowed: Hit -> bool, limit: nat, window: nat)
    requires var w := Candidates(Keyword, rows, recall, window);
             Done(Keyword, limit, Visible(w.hits, allowed), w, window)
    ensures Take(Visible(Candidates(Keyword, rows, recall, window).hits, allowed), limit)
            == Ideal(rows, KEYWORD_REACH, allowed, limit)
  {
    var w := Candidates(Keyword, rows, recall, window);
    var whole := Take(rows, KEYWORD_REACH);
    assert w.hits <= whole;
    if |Visible(w.hits, allowed)| >= limit {
      EnoughIsEnough(w.hits, whole, allowed, limit);
    } else {
      assert w.hits == whole;
    }
  }

  lemma {:induction false} InVisible(hits: seq<Hit>, allowed: Hit -> bool, h: Hit)
    ensures h in Visible(hits, allowed) <==> h in hits && allowed(h)
  {
    if hits != [] {
      InVisible(hits[1..], allowed, h);
      assert h in hits <==> h == hits[0] || h in hits[1..];
    }
  }

  predicate Increasing(at: seq<nat>) {
    forall i, j :: 0 <= i < j < |at| ==> at[i] < at[j]
  }

  /** `chosen` is what stands in `list` at the positions `at`. */
  predicate Picks(list: seq<Hit>, at: seq<nat>, chosen: seq<Hit>) {
    |at| == |chosen| && forall i :: 0 <= i < |at| ==> at[i] < |list| && list[at[i]] == chosen[i]
  }

  /** `Visible` is exactly the positions that may be shown, each once and in order. */
  lemma {:induction false} VisiblePicks(hits: seq<Hit>, allowed: Hit -> bool) returns (at: seq<nat>)
    ensures Increasing(at) && Picks(hits, at, Visible(hits, allowed))
    ensures forall j: nat :: j < |hits| ==> (j in at <==> allowed(hits[j]))
  {
    at := [];
    if hits != [] {
      var n := |hits| - 1;
      at := VisiblePicks(hits[..n], allowed);
      assert hits == hits[..n] + [hits[n]];
      VisibleAppend(hits[..n], [hits[n]], allowed);
      assert forall i :: 0 <= i < |at| ==> at[i] < n;
      if allowed(hits[n]) {
        at := at + [n];
      }
    }
  }

  lemma AnswerIsVisible(hits: seq<Hit>, allowed: Hit -> bool, limit: nat, h: Hit)
    ensures h in Take(Visible(hits, allowed), limit) ==> h in hits && allowed(h)
    ensures |Take(Visible(hits, allowed), limit)| < limit && h in hits && allowed(h) ==> h in Take(Visible(hits, allowed), limit)
  {
    InVisible(hits, allowed, h);
    assert forall x :: x in Take(Visible(hits, allowed), limit) ==> x in Visible(hits, allowed);
  }

  // ---- The semantic leg ----------------------------------------------------------------------

  /** The semantic leg over the mail by distance, nearest first: a window holds those of the `k` nearest
      that match the filter, in whatever order the recency vote gives them, and one that is not full
      reached the end. */
  ghost predicate Nearest(recall: nat -> Window, near: seq<Hit>, matches: Hit -> bool) {
    forall k: nat :: Reaches(recall(k), k, near, matches)
  }

  ghost predicate Reaches(w: Window, k: nat, near: seq<Hit>, matches: Hit -> bool) {
    && (forall h :: h in w.hits <==> h in Take(near, k) && matches(h))
    && (!w.full ==> |near| <= k)
  }

  /** In best-match order the vote is nil and distance is the order. */
  ghost predicate RanksBy(recall: nat -> Window, near: seq<Hit>, matches: Hit -> bool) {
    forall k: nat :: recall(k).hits == Visible(Take(near, k), matches)
  }

  /** Semantic search shows nothing hidden and nothing beyond the 4096 nearest, and an answer shorter than
      asked for holds every one of those that matches and may be shown, however the windows were ordered.
      Where distance is the order, it is filter-then-take over the 4096 nearest. */
  method SemanticSearch(requested: Option<nat>, rows: seq<Hit>, recall: nat -> Window, ghost near: seq<Hit>,
                        ghost matches: Hit -> bool, allowed: Hit -> bool) returns (hits: seq<Hit>)
    requires Nearest(recall, near, matches)
    ensures |hits| <= Clamp(requested)
    ensures forall h <- hits :: allowed(h) && matches(h) && h in Take(near, SEMANTIC_REACH)
    ensures |hits| < Clamp(requested) ==> forall h <- Take(near, SEMANTIC_REACH) :: allowed(h) && matches(h) ==> h in hits
    ensures RanksBy(recall, near, matches) ==>
              hits == Take(Visible(Visible(Take(near, SEMANTIC_REACH), matches), allowed), Clamp(requested))
  {
    var limit := Clamp(requested);
    var window;
    hits, window := Search(Semantic, limit, rows, recall, allowed, 0);
    ghost var k := if window < SEMANTIC_REACH then window else SEMANTIC_REACH;
    ghost var w := recall(k);
    assert Reaches(w, k, near, matches);
    forall h | h in hits ensures allowed(h) && matches(h) && h in Take(near, SEMANTIC_REACH) {
      AnswerIsVisible(w.hits, allowed, limit, h);
    }
    if |hits| < limit {
      assert Take(near, k) == Take(near, SEMANTIC_REACH);
      forall h | h in Take(near, SEMANTIC_REACH) && allowed(h) && matches(h) ensures h in hits {
        AnswerIsVisible(w.hits, allowed, limit, h);
      }
    }
    if RanksBy(recall, near, matches) {
      RankedIsCut(w.hits, k, near, matches, allowed, limit);
    }
  }

  lemma RankedIsCut(hits: seq<Hit>, k: nat, near: seq<Hit>, matches: Hit -> bool, allowed: Hit -> bool, limit: nat)
    requires hits == Visible(Take(near, k), matches) && k <= SEMANTIC_REACH
    requires |Visible(hits, allowed)| >= limit || Take(near, k) == Take(near, SEMANTIC_REACH)
    ensures Take(Visible(hits, allowed), limit)
            == Take(Visible(Visible(Take(near, SEMANTIC_REACH), matches), allowed), limit)
  {
    var a, whole := Take(near, k), Take(near, SEMANTIC_REACH);
    if a != whole {
      assert whole == a + whole[|a|..];
      VisibleAppend(a, whole[|a|..], matches);
      EnoughIsEnough(hits, Visible(whole, matches), allowed, limit);
    }
  }

  function Anything(): Hit -> bool {
    h => true
  }

  /** Two messages, the second nearest one fresher: it leads every window it is in. */
  function Resorted(a: Hit, b: Hit): nat -> Window {
    (k: nat) => if k == 0 then Window([], true) else if k == 1 then Window([a], true) else Window([b, a], k == 2)
  }

  /** With recency voting, the answer is not a cut of one ranking: the windows of a store may fit none,
      and one hit asked for is another than the widest window would give. */
  lemma VotedIsNoCut(a: Hit, b: Hit, rows: seq<Hit>)
    requires a != b
    ensures Nearest(Resorted(a, b), [a, b], Anything())
    ensures forall near, matches :: !RanksBy(Resorted(a, b), near, matches)
    ensures LastWindow(Semantic, 1, rows, Resorted(a, b), Anything(), 1, 0) == 1
    ensures Take(Visible(Candidates(Semantic, rows, Resorted(a, b), 1).hits, Anything()), 1) == [a]
    ensures Take(Visible(Candidates(Semantic, rows, Resorted(a, b), SEMANTIC_REACH).hits, Anything()), 1) == [b]
  {
    var recall := Resorted(a, b);
    forall k: nat ensures Reaches(recall(k), k, [a, b], Anything()) {
      ResortedReaches(a, b, k);
    }
    assert recall(1).hits == [a] && recall(2).hits == [b, a];
    forall near, matches ensures !RanksBy(recall, near, matches) {
      TwoTaken(near, matches);
      NoPrefix(a, b);
    }
    assert Visible([a], Anything()) == [a];
    assert Visible([b, a], Anything()) == [b, a];
  }

  lemma ResortedReaches(a: Hit, b: Hit, k: nat)
    ensures Reaches(Resorted(a, b)(k), k, [a, b], Anything())
  {
    assert Take([a, b], 1) == [a];
    assert k >= 2 ==> Take([a, b], k) == [a, b];
  }

  lemma NoPrefix(a: Hit, b: Hit)
    requires a != b
    ensures !([a] <= [b, a])
  {
    assert [a][0] != [b, a][0];
  }

  lemma TwoTaken(near: seq<Hit>, matches: Hit -> bool)
    ensures Visible(Take(near, 1), matches) <= Visible(Take(near, 2), matches)
  {
    var one, two := Take(near, 1), Take(near, 2);
    assert two == one + two[|one|..];
    VisibleAppend(one, two[|one|..], matches);
  }

  // ---- The hybrid leg ------------------------------------------------------------------------

  /** A recall leg whose ranks may move with the window, but whose flag, when it is down, means that
      every hit of the pool was in the window. */
  ghost predicate Covers(recall: nat -> Window, pool: set<Hit>) {
    forall k: nat, h :: !recall(k).full && h in pool ==> h in recall(k).hits
  }

  /** Hybrid search shows nothing hidden, and an answer shorter than asked for holds every hit of the
      pool that may be shown, however the ranks moved on the way. */
  method HybridSearch(requested: Option<nat>, rows: seq<Hit>, recall: nat -> Window, allowed: Hit -> bool,
                      ghost pool: set<Hit>, ghost bound: nat) returns (hits: seq<Hit>)
    requires Exhausts(recall, bound) && Covers(recall, pool)
    ensures |hits| <= Clamp(requested) && forall h <- hits :: allowed(h)
    ensures |hits| < Clamp(requested) ==> forall h <- pool :: allowed(h) ==> h in hits
  {
    var limit := Clamp(requested);
    var window;
    hits, window := Search(Hybrid, limit, rows, recall, allowed, bound);
    ghost var w := recall(window);
    forall h | h in hits ensures allowed(h) {
      AnswerIsVisible(w.hits, allowed, limit, h);
    }
    if |hits| < limit {
      forall h | h in pool && allowed(h) ensures h in hits {
        AnswerIsVisible(w.hits, allowed, limit, h);
      }
    }
  }

  predicate Distinct(s: seq<Hit>) {
    forall i, j :: 0 <= i < j < |s| ==> s[i] != s[j]
  }

  function Members(s: seq<Hit>): set<Hit> {
    set h | h in s
  }

  /** What the two legs bring to a window: the nearest, never more than 4096, and the best in words. */
  function Merged(near: seq<Hit>, words: seq<Hit>, k: nat): set<Hit> {
    Members(Take(near, if k < SEMANTIC_REACH then k else SEMANTIC_REACH)) + Members(Take(words, k))
  }

  /** The hybrid leg: the two are fused, cut to the window, and then filtered; the flag is up when the
      window was filled. The order is left open, and so is what a cut drops. */
  ghost predicate Fuses(recall: nat -> Window, near: seq<Hit>, words: seq<Hit>, matches: Hit -> bool) {
    forall k: nat :: Fused(recall(k), Merged(near, words, k), k, matches)
  }

  ghost predicate Fused(w: Window, merged: set<Hit>, k: nat, matches: Hit -> bool) {
    && (w.full <==> |merged| >= k)
    && (!w.full ==> forall h :: h in w.hits <==> h in merged && matches(h))
  }

  lemma {:induction false} DistinctSize(s: seq<Hit>)
    requires Distinct(s)
    ensures |Members(s)| == |s|
  {
    if s != [] {
      DistinctSize(s[1..]);
      assert Members(s) == {s[0]} + Members(s[1..]);
    }
  }

  lemma SizeInside(a: set<Hit>, b: set<Hit>)
    requires a <= b
    ensures |a| <= |b|
  {
    if a != {} {
      var x :| x in a;
      SizeInside(a - {x}, b - {x});
    }
  }

  lemma TakenWhole(s: seq<Hit>, n: nat, k: nat, all: set<Hit>)
    requires Distinct(s) && n <= k && Members(Take(s, n)) <= all && |all| < k && (n < k ==> n >= SEMANTIC_REACH)
    ensures n == k ==> Take(s, n) == s
  {
    DistinctSize(Take(s, n));
    SizeInside(Members(Take(s, n)), all);
  }

  /** So its flag, when it is down, means that the window held all the matches among the 4096 nearest and
      all in words, and it is down from some window on. */
  lemma FusedCovers(recall: nat -> Window, near: seq<Hit>, words: seq<Hit>, matches: Hit -> bool)
    requires Fuses(recall, near, words, matches) && Distinct(near) && Distinct(words)
    ensures Covers(recall, set h | h in Take(near, SEMANTIC_REACH) + words && matches(h))
    ensures Exhausts(recall, |near| + |words| + 1)
  {
    forall k: nat, h | !recall(k).full && h in Take(near, SEMANTIC_REACH) + words && matches(h) ensures h in recall(k).hits {
      assert Fused(recall(k), Merged(near, words, k), k, matches);
      MergedWhole(near, words, k);
    }
    forall k: nat | k >= |near| + |words| + 1 ensures !recall(k).full {
      assert Fused(recall(k), Merged(near, words, k), k, matches);
      MergedSize(near, words, k);
    }
  }

  lemma MergedWhole(near: seq<Hit>, words: seq<Hit>, k: nat)
    requires Distinct(near) && Distinct(words) && |Merged(near, words, k)| < k
    ensures Merged(near, words, k) == Members(Take(near, SEMANTIC_REACH) + words)
  {
    var n := if k < SEMANTIC_REACH then k else SEMANTIC_REACH;
    TakenWhole(near, n, k, Merged(near, words, k));
    TakenWhole(words, k, k, Merged(near, words, k));
  }

  lemma {:induction false} MembersSize(s: seq<Hit>)
    ensures |Members(s)| <= |s|
  {
    if s != [] {
      MembersSize(s[1..]);
      assert Members(s) == {s[0]} + Members(s[1..]);
    }
  }

  lemma MergedSize(near: seq<Hit>, words: seq<Hit>, k: nat)
    ensures |Merged(near, words, k)| <= |near| + |words|
  {
    var n := if k < SEMANTIC_REACH then k else SEMANTIC_REACH;
    MembersSize(Take(near, n));
    MembersSize(Take(words, k));
  }
}
