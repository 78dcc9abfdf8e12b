/** Address lists as strangers write them: what of a header value is handed to the mail library, and
    what of its answer may go out again. The library itself is a parameter. */
module Addresses {
  import opened Wrappers
  import opened Text
  import opened HeaderFields
  import opened Seqs

  /** `mail_parser` on `To: {value}`: the addresses it recovers. Nothing is assumed about it here. */
  type Library = string -> seq<string>

  // ---- Header structure smuggled into a value ------------------------------------------------

  predicate IsWordChar(c: char) {
    'a' <= c <= 'z' || 'A' <= c <= 'Z' || c == '-'
  }

  /** Whether position `i` is inside quotes. */
  predicate QuotedAt(v: string, i: nat)
    requires i <= |v|
  {
    i > 0 && (if v[i - 1] == '"' then !QuotedAt(v, i - 1) else QuotedAt(v, i - 1))
  }

  /** How many unquoted `<` are open at position `i`. */
  function DepthAt(v: string, i: nat): nat
    requires i <= |v|
  {
    if i == 0 then 0
    else
      var d := DepthAt(v, i - 1);
      if QuotedAt(v, i - 1) then d
      else if v[i - 1] == '<' then d + 1
      else if v[i - 1] == '>' && d > 0 then d - 1
      else d
  }

  predicate TopLevel(v: string, i: nat)
    requires i <= |v|
  {
    !QuotedAt(v, i) && DepthAt(v, i) == 0
  }

  /** Where the run of letters and hyphens that ends at `i` began, if one does. */
  function WordAt(v: string, i: nat): (r: Option<nat>)
    requires i <= |v|
    ensures r.Some? ==> r.value < i && forall k :: r.value <= k < i ==> IsWordChar(v[k]) && TopLevel(v, k)
    ensures r.Some? && r.value > 0 ==> !(IsWordChar(v[r.value - 1]) && TopLevel(v, r.value - 1))
    ensures r.None? && i > 0 ==> !(IsWordChar(v[i - 1]) && TopLevel(v, i - 1))
  {
    if i == 0 || !IsWordChar(v[i - 1]) || !TopLevel(v, i - 1) then None
    else Some(WordAt(v, i - 1).GetOr(i - 1))
  }

  /** A header name and its colon, outside quotes and angle brackets, ending at `i`. */
  predicate SmugglesAt(v: string, i: nat) {
    i < |v| && v[i] == ':' && TopLevel(v, i) && WordAt(v, i).Some?
  }

  /** The first of them, `|v|` when there is none. */
  function FirstSmuggled(v: string, from: nat): (i: nat)
    requires from <= |v|
    ensures from <= i <= |v| && (i < |v| ==> SmugglesAt(v, i))
    ensures forall j :: from <= j < i ==> !SmugglesAt(v, j)
    decreases |v| - from
  {
    if from == |v| || SmugglesAt(v, from) then from else FirstSmuggled(v, from + 1)
  }

  function Truncate(v: string): string {
    var i := FirstSmuggled(v, 0);
    if i == |v| then v else v[..WordAt(v, i).value]
  }

  /** `truncate_at_injected_header`: one pass with the quote flag, the depth and the token start. */
  method TruncateAtInjectedHeader(v: string) returns (r: string)
    ensures r == Truncate(v)
  {
    var inQuote, depth, start := false, 0, None;
    for i := 0 to |v|
      invariant inQuote == QuotedAt(v, i) && depth == DepthAt(v, i) && start == WordAt(v, i)
      invariant FirstSmuggled(v, 0) == FirstSmuggled(v, i)
    {
      var c := v[i];
      if c == '"' {
        inQuote, start := !inQuote, None;
      } else if c == '<' && !inQuote {
        depth, start := depth + 1, None;
      } else if c == '>' && !inQuote {
        depth, start := if depth > 0 then depth - 1 else 0, None;
      } else if c == ':' && !inQuote && depth == 0 {
        if start.Some? {
          return v[..start.value];
        }
      } else if inQuote || depth > 0 {
      } else if IsWordChar(c) {
        if start.None? {
          start := Some(i);
        }
      } else {
        start := None;
      }
    }
    return v;
  }

  lemma {:induction false} StateOfPrefix(v: string, n: nat, i: nat)
    requires i <= n <= |v|
    ensures QuotedAt(v[..n], i) == QuotedAt(v, i) && DepthAt(v[..n], i) == DepthAt(v, i)
    ensures WordAt(v[..n], i) == WordAt(v, i)
  {
    if i > 0 {
      StateOfPrefix(v, n, i - 1);
    }
  }

  /** What is left is a prefix that smuggles nothing; it is the whole value exactly when nothing was
      smuggled, and otherwise ends right in front of the first header name. */
  lemma TruncatedIsHonest(v: string)
    ensures forall i :: 0 <= i < |Truncate(v)| ==> !SmugglesAt(Truncate(v), i)
    ensures StartsWith(v, Truncate(v))
    ensures Truncate(v) == v <==> forall i :: 0 <= i < |v| ==> !SmugglesAt(v, i)
    ensures Truncate(Truncate(v)) == Truncate(v)
  {
    var t := Truncate(v);
    assert t == v[..|t|];
    forall i | 0 <= i < |t| ensures !SmugglesAt(t, i) {
      StateOfPrefix(v, |t|, i);
      assert !SmugglesAt(v, i);
    }
  }

  // ---- Addresses -----------------------------------------------------------------------------

  predicate IsEmittableChar(c: char) {
    !IsControl(c) && !IsWhitespace(c) && c !in {',', '<', '>', '"', ';', ':', '\\'}
  }

  /** One `@` with something on either side of it, and nothing that is syntax. */
  predicate Emittable(a: string) {
    var i := IndexOf(a, '@');
    && 0 < i < |a| - 1 && '@' !in a[i + 1..]
    && forall k :: 0 <= k < |a| ==> IsEmittableChar(a[k])
  }

  /** What passes is exactly a local part and a domain around one `@`, neither empty, with no white space,
      no control character and nothing that structures an address list. */
  lemma EmittableIs(a: string)
    ensures Emittable(a)
            <==> exists i :: 0 < i < |a| - 1 && a[i] == '@'
                             && (forall k :: 0 <= k < |a| && k != i ==> a[k] != '@')
                             && forall k :: 0 <= k < |a| ==>
                                  !IsControl(a[k]) && !IsWhitespace(a[k])
                                  && a[k] != ',' && a[k] != '<' && a[k] != '>' && a[k] != '"' && a[k] != ';' && a[k] != ':' && a[k] != '\\'
  {
    var i := IndexOf(a, '@');
    if Emittable(a) {
      assert forall k :: i < k < |a| ==> a[k] == a[i + 1..][k - i - 1];
      assert a[i] == '@';
    }
    if exists j :: 0 < j < |a| - 1 && a[j] == '@' && forall k :: 0 <= k < |a| && k != j ==> a[k] != '@' {
      var j :| 0 < j < |a| - 1 && a[j] == '@' && forall k :: 0 <= k < |a| && k != j ==> a[k] != '@';
      assert i == j;
      assert forall k :: i < k < |a| ==> a[k] == a[i + 1..][k - i - 1];
    }
  }

  predicate AllEmittable(list: seq<string>) {
    forall i :: 0 <= i < |list| ==> Emittable(list[i])
  }

  function Sift(found: seq<string>): seq<string> {
    if found == [] then []
    else if Emittable(Trim(found[0])) then [Trim(found[0])] + Sift(found[1..])
    else Sift(found[1..])
  }

  lemma OneMoreEmittable(a: string, list: seq<string>)
    requires Emittable(a) && AllEmittable(list)
    ensures AllEmittable([a] + list)
  {
  }

  lemma {:induction false} SiftedAreEmittable(found: seq<string>)
    ensures AllEmittable(Sift(found))
  {
    if found != [] {
      SiftedAreEmittable(found[1..]);
      if Emittable(Trim(found[0])) {
        OneMoreEmittable(Trim(found[0]), Sift(found[1..]));
      }
    }
  }

  function Flatten(v: string): (r: string)
    ensures NoLineBreak(r)
  {
    seq(|v|, i requires 0 <= i < |v| => if v[i] == '\r' || v[i] == '\n' then ' ' else v[i])
  }

  function ParseAddrList(value: string, lib: Library): (r: seq<string>)
    ensures AllEmittable(r)
  {
    if IsBlank(value) then []
    else
      var found := lib(Truncate(Flatten(value)));
      SiftedAreEmittable(found);
      Sift(found)
  }

  function JoinComma(list: seq<string>): string {
    if list == [] then ""
    else if |list| == 1 then list[0]
    else list[0] + (", " + JoinComma(list[1..]))
  }

  /** The one thing asked of the library: a plain comma-joined list of emittable addresses is that list.
      An emittable atom may hold parentheses, where a real library may read a comment; it is asked for
      those too. */
  ghost predicate Faithful(lib: Library) {
    forall list: seq<string> :: list != [] && AllEmittable(list) ==> lib(JoinComma(list)) == list
  }

  predicate NoStructure(s: string) {
    NoLineBreak(s) && ':' !in s
  }

  lemma {:induction false} JoinedHasNoStructure(list: seq<string>)
    requires AllEmittable(list)
    ensures NoStructure(JoinComma(list))
  {
    if list != [] {
      assert Emittable(list[0]);
      assert NoStructure(list[0]);
      if |list| > 1 {
        JoinedHasNoStructure(list[1..]);
      }
    }
  }

  lemma JoinedIsBlank(list: seq<string>)
    requires AllEmittable(list)
    ensures IsBlank(JoinComma(list)) <==> list == []
  {
    if list != [] {
      assert Emittable(list[0]);
      var s := JoinComma(list);
      assert s[0] == list[0][0] && !IsWhitespace(s[0]);
    }
  }

  lemma {:induction false} SiftKeeps(list: seq<string>)
    requires AllEmittable(list)
    ensures Sift(list) == list
  {
    if list != [] {
      assert Emittable(list[0]);
      assert Trim(list[0]) == list[0];
      SiftKeeps(list[1..]);
      Uncons(list);
    }
  }

  /** Addresses that came out of a header go back into one and are read again unchanged. */
  lemma ParseJoined(list: seq<string>, lib: Library)
    requires AllEmittable(list) && Faithful(lib)
    ensures ParseAddrList(JoinComma(list), lib) == list
  {
    var s := JoinComma(list);
    JoinedIsBlank(list);
    if list != [] {
      JoinedHasNoStructure(list);
      assert Flatten(s) == s;
      TruncatedIsHonest(s);
      SiftKeeps(list);
    }
  }
}
