/** The search for a multipart boundary that occurs in none of the parts it has to separate. The
    parts are written by strangers, so that the search ends at all is part of what is proved. */
module Boundary {
  import opened Text

  const BUMP_LIMIT := 16

  type u64 = h: int | 0 <= h < 0x1_0000_0000_0000_0000

  /** `DefaultHasher` over the probed parts. Nothing is assumed about it. */
  type Hasher = seq<string> -> u64

  function Decimal(n: nat): (r: string)
    ensures r != ""
    ensures forall i :: 0 <= i < |r| ==> '0' <= r[i] <= '9'
  {
    var digit := ['0' + (n % 10) as char];
    if n < 10 then digit else Decimal(n / 10) + digit
  }

  function DecimalValue(s: string): nat
    requires forall i :: 0 <= i < |s| ==> '0' <= s[i] <= '9'
  {
    if s == "" then 0 else DecimalValue(s[..|s| - 1]) * 10 + (s[|s| - 1] as int - '0' as int)
  }

  lemma {:induction false} DecimalRoundTrip(n: nat)
    ensures DecimalValue(Decimal(n)) == n
  {
    var r := Decimal(n);
    if n >= 10 {
      DecimalRoundTrip(n / 10);
      assert r[..|r| - 1] == Decimal(n / 10);
    }
  }

  /** `{:016x}`. */
  function Hex(h: nat, digits: nat): (r: string)
    ensures |r| == digits
    ensures forall i :: 0 <= i < |r| ==> '0' <= r[i] <= '9' || 'a' <= r[i] <= 'f'
  {
    if digits == 0 then ""
    else Hex(h / 16, digits - 1) + [if h % 16 < 10 then '0' + (h % 16) as char else 'a' + (h % 16 - 10) as char]
  }

  predicate Clean(boundary: string, parts: seq<string>) {
    forall i | 0 <= i < |parts| :: !Contains(parts[i], boundary)
  }

  /** The first `n` of `[from, limit)` for which `stem` followed by `n` is clean, else `limit`. */
  function FirstClean(stem: string, parts: seq<string>, from: nat, limit: nat): (n: nat)
    requires from <= limit
    ensures from <= n <= limit
    ensures n < limit ==> Clean(stem + Decimal(n), parts)
    ensures forall j {:trigger Decimal(j)} :: from <= j < n ==> !Clean(stem + Decimal(j), parts)
    decreases limit - from
  {
    if from == limit || Clean(stem + Decimal(from), parts) then from
    else FirstClean(stem, parts, from + 1, limit)
  }

  function Total(parts: seq<string>): nat {
    if parts == [] then 0 else Total(parts[..|parts| - 1]) + |parts[|parts| - 1]|
  }

  function FallbackStem(prefix: string, parts: seq<string>, hash: Hasher): string {
    prefix + Hex(hash(parts), 16) + "_"
  }

  /** The number the fallback settles on, which is also how often it had to bump. */
  function FallbackBumps(prefix: string, parts: seq<string>, hash: Hasher): nat {
    FirstClean(FallbackStem(prefix, parts, hash), parts, 0, Total(parts) + 1)
  }

  function Boundary(prefix: string, parts: seq<string>, hash: Hasher): string {
    var n := FirstClean(prefix, parts, 0, BUMP_LIMIT);
    if n < BUMP_LIMIT then prefix + Decimal(n)
    else FallbackStem(prefix, parts, hash) + Decimal(FallbackBumps(prefix, parts, hash))
  }

  // ---- Why the fallback ends -----------------------------------------------------------------

  predicate EndsIn(s: string, b: string, end: nat) {
    |b| <= end <= |s| && s[end - |b|..end] == b
  }

  /** Two numbered candidates cannot end at the same place: the longer number would have to hold the
      `_` that closes the stem of the shorter. */
  lemma SameEnd(stem: string, s: string, i: nat, j: nat, end: nat)
    requires EndsWith(stem, "_")
    requires EndsIn(s, stem + Decimal(i), end) && EndsIn(s, stem + Decimal(j), end)
    ensures i == j
  {
    var a, b := Decimal(i), Decimal(j);
    assert stem[|stem| - 1] == '_' by { assert stem[|stem| - 1] == stem[|stem| - 1..][0]; }
    EndDigits(stem, s, a, end);
    EndDigits(stem, s, b, end);
    assert |a| == |b|;
    assert a == s[end - |a|..end] == b;
    DecimalRoundTrip(i);
    DecimalRoundTrip(j);
  }

  lemma EndDigits(stem: string, s: string, digits: string, end: nat)
    requires stem != "" && EndsIn(s, stem + digits, end)
    requires forall k :: 0 <= k < |digits| ==> '0' <= digits[k] <= '9'
    ensures |digits| < end <= |s|
    ensures s[end - |digits| - 1] == stem[|stem| - 1]
    ensures forall at :: end - |digits| <= at < end ==> '0' <= s[at] <= '9'
    ensures s[end - |digits|..end] == digits
  {
    var b := stem + digits;
    var start := end - |b|;
    assert forall k :: 0 <= k < |b| ==> s[start + k] == b[k] by {
      forall k | 0 <= k < |b| ensures s[start + k] == b[k] {
        assert s[start..end][k] == b[k];
      }
    }
    assert s[start + (|stem| - 1)] == b[|stem| - 1];
    forall at | end - |digits| <= at < end ensures '0' <= s[at] <= '9' {
      var k := at - start;
      assert s[start + k] == b[k] == digits[k - |stem|];
    }
    forall k | 0 <= k < |digits| ensures s[end - |digits|..end][k] == digits[k] {
      assert s[start + (|stem| + k)] == b[|stem| + k];
    }
  }

  function Column(k: nat, length: nat): set<(nat, nat)> {
    if length == 0 then {} else Column(k, length - 1) + {(k, length)}
  }

  /** Every place in every part where something can end. */
  function Ends(parts: seq<string>): set<(nat, nat)> {
    if parts == [] then {}
    else Ends(parts[..|parts| - 1]) + Column(|parts| - 1, |parts[|parts| - 1]|)
  }

  lemma {:induction false} ColumnFacts(k: nat, length: nat)
    ensures |Column(k, length)| <= length
    ensures forall e :: 1 <= e <= length ==> (k, e) in Column(k, length)
  {
    if length > 0 { ColumnFacts(k, length - 1); }
  }

  lemma {:induction false} EndsFacts(parts: seq<string>)
    ensures |Ends(parts)| <= Total(parts)
    ensures forall k, e :: 0 <= k < |parts| && 1 <= e <= |parts[k]| ==> (k, e) in Ends(parts)
  {
    if parts != [] {
      var n := |parts| - 1;
      EndsFacts(parts[..n]);
      ColumnFacts(n, |parts[n]|);
      assert forall k :: 0 <= k < n ==> parts[..n][k] == parts[k];
    }
  }

  ghost predicate HostsSome(stem: string, parts: seq<string>, m: nat, p: (nat, nat)) {
    p.0 < |parts| && exists j :: 0 <= j < m && EndsIn(parts[p.0], stem + Decimal(j), p.1)
  }

  /** One place per candidate that is not clean, all of them different. */
  lemma {:induction false} Occupied(stem: string, parts: seq<string>, m: nat) returns (w: set<(nat, nat)>)
    requires EndsWith(stem, "_")
    requires forall j {:trigger Decimal(j)} :: 0 <= j < m ==> !Clean(stem + Decimal(j), parts)
    ensures |w| == m && w <= Ends(parts)
    ensures forall p <- w :: HostsSome(stem, parts, m, p)
  {
    if m == 0 {
      w := {};
    } else {
      var was := Occupied(stem, parts, m - 1);
      var p := WhereItEnds(stem + Decimal(m - 1), parts);
      NotThereYet(stem, parts, m - 1, p);
      w := was + {p};
      forall q <- w ensures HostsSome(stem, parts, m, q) {
        if q in was {
          HostsMore(stem, parts, m - 1, q);
        }
      }
    }
  }

  lemma WhereItEnds(b: string, parts: seq<string>) returns (p: (nat, nat))
    requires !Clean(b, parts) && b != ""
    ensures p.0 < |parts| && EndsIn(parts[p.0], b, p.1) && p in Ends(parts)
  {
    var k :| 0 <= k < |parts| && Contains(parts[k], b);
    var i :| 0 <= i <= |parts[k]| && OccursAt(parts[k], b, i);
    p := (k, i + |b|);
    EndsFacts(parts);
  }

  lemma NotThereYet(stem: string, parts: seq<string>, m: nat, p: (nat, nat))
    requires EndsWith(stem, "_") && p.0 < |parts| && EndsIn(parts[p.0], stem + Decimal(m), p.1)
    ensures !HostsSome(stem, parts, m, p)
  {
    if HostsSome(stem, parts, m, p) {
      var j :| 0 <= j < m && EndsIn(parts[p.0], stem + Decimal(j), p.1);
      SameEnd(stem, parts[p.0], j, m, p.1);
    }
  }

  lemma HostsMore(stem: string, parts: seq<string>, m: nat, q: (nat, nat))
    requires HostsSome(stem, parts, m, q)
    ensures HostsSome(stem, parts, m + 1, q)
  {
    var j :| 0 <= j < m && EndsIn(parts[q.0], stem + Decimal(j), q.1);
    assert 0 <= j < m + 1;
  }

  lemma SubsetSize<T>(a: set<T>, b: set<T>)
    requires a <= b
    ensures |a| <= |b|
  {
    assert b == a + (b - a);
  }

  /** However the parts were crafted, no more candidates are taken than there are characters. */
  lemma BumpBound(stem: string, parts: seq<string>, m: nat)
    requires EndsWith(stem, "_")
    requires forall j {:trigger Decimal(j)} :: 0 <= j < m ==> !Clean(stem + Decimal(j), parts)
    ensures m <= Total(parts)
  {
    var w := Occupied(stem, parts, m);
    SubsetSize(w, Ends(parts));
    EndsFacts(parts);
  }

  lemma StemEnds(prefix: string, parts: seq<string>, hash: Hasher)
    ensures EndsWith(FallbackStem(prefix, parts, hash), "_")
  {
  }

  /** The boundary found occurs in no part, after at most 16 plain candidates and at most as many
      fallback bumps as the parts have characters. */
  lemma BoundaryIsClean(prefix: string, parts: seq<string>, hash: Hasher)
    ensures Clean(Boundary(prefix, parts, hash), parts)
    ensures StartsWith(Boundary(prefix, parts, hash), prefix)
    ensures FallbackBumps(prefix, parts, hash) <= Total(parts)
  {
    var stem := FallbackStem(prefix, parts, hash);
    var m := FallbackBumps(prefix, parts, hash);
    StemEnds(prefix, parts, hash);
    BumpBound(stem, parts, m);
  }

  /** Parts of fewer than 2^32 characters in all cannot make the fallback's 32-bit counter wrap. */
  lemma CounterCannotWrap(prefix: string, parts: seq<string>, hash: Hasher)
    requires Total(parts) < 0x1_0000_0000
    ensures FallbackBumps(prefix, parts, hash) < 0x1_0000_0000
  {
    BoundaryIsClean(prefix, parts, hash);
  }

  predicate IsBoundaryText(s: string) {
    forall i :: 0 <= i < |s| ==> s[i] == '=' || s[i] == '_' || IsAsciiAlphanumeric(s[i])
  }

  /** A boundary is `=`, `_`, letters and digits, as its prefix is. */
  lemma BoundaryIsPlain(prefix: string, parts: seq<string>, hash: Hasher)
    requires IsBoundaryText(prefix)
    ensures IsBoundaryText(Boundary(prefix, parts, hash))
  {
    var n := FirstClean(prefix, parts, 0, BUMP_LIMIT);
    NumberIsPlain(prefix, n);
    assert IsBoundaryText(Hex(hash(parts), 16)) && IsBoundaryText("_");
    JoinIsPlain(prefix, Hex(hash(parts), 16));
    JoinIsPlain(prefix + Hex(hash(parts), 16), "_");
    NumberIsPlain(FallbackStem(prefix, parts, hash), FallbackBumps(prefix, parts, hash));
  }

  lemma JoinIsPlain(a: string, b: string)
    requires IsBoundaryText(a) && IsBoundaryText(b)
    ensures IsBoundaryText(a + b)
  {
  }

  lemma NumberIsPlain(stem: string, n: nat)
    requires IsBoundaryText(stem)
    ensures IsBoundaryText(stem + Decimal(n))
  {
    assert IsBoundaryText(Decimal(n));
    JoinIsPlain(stem, Decimal(n));
  }

  /** Parts that nowhere spell the prefix get suffix `0`. */
  lemma HonestPartsTakeZero(prefix: string, parts: seq<string>, hash: Hasher)
    requires Clean(prefix, parts)
    ensures Boundary(prefix, parts, hash) == prefix + "0"
  {
    assert Decimal(0) == "0";
    forall i | 0 <= i < |parts|
      ensures !Contains(parts[i], prefix + "0")
    {
      if Contains(parts[i], prefix + "0") {
        var at :| 0 <= at <= |parts[i]| && OccursAt(parts[i], prefix + "0", at);
        assert parts[i][at..at + |prefix|] == parts[i][at..at + |prefix| + 1][..|prefix|];
        assert OccursAt(parts[i], prefix, at);
      }
    }
  }

  /** `boundary_with_prefix`. The second loop has no limit of its own; the bound is its variant. */
  method BoundaryWithPrefix(prefix: string, parts: seq<string>, hash: Hasher) returns (boundary: string)
    ensures boundary == Boundary(prefix, parts, hash)
    ensures Clean(boundary, parts)
  {
    BoundaryIsClean(prefix, parts, hash);
    for n := 0 to BUMP_LIMIT
      invariant FirstClean(prefix, parts, n, BUMP_LIMIT) == FirstClean(prefix, parts, 0, BUMP_LIMIT)
    {
      boundary := prefix + Decimal(n);
      if Clean(boundary, parts) {
        return;
      }
    }
    var digest := Hex(hash(parts), 16);
    ghost var stem := prefix + digest + "_";
    var m := 0;
    while true
      invariant 0 <= m <= Total(parts)
      invariant FirstClean(stem, parts, m, Total(parts) + 1) == FallbackBumps(prefix, parts, hash)
      decreases Total(parts) - m
    {
      boundary := prefix + digest + "_" + Decimal(m);
      if Clean(boundary, parts) {
        return;
      }
      m := m + 1;
    }
  }
}
