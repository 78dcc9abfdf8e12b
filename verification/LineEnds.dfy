/** What the two normalisations do to a body, said without their replacement steps: the lines a person
    would count, CRLF between them. */
module LineEnds {
  import opened Text
  import opened Seqs

  /** `s` cut at every CRLF, every LF and, if asked, every lone CR. */
  function LinesOf(s: string, loneCr: bool): (r: seq<string>)
    ensures r != []
  {
    if s == "" then [""]
    else if StartsWith(s, CRLF) then [""] + LinesOf(s[2..], loneCr)
    else if s[0] == '\n' || (loneCr && s[0] == '\r') then [""] + LinesOf(s[1..], loneCr)
    else
      var rest := LinesOf(s[1..], loneCr);
      [[s[0]] + rest[0]] + rest[1..]
  }

  lemma JoinEmptyFirst(rest: seq<string>)
    requires rest != []
    ensures Join([""] + rest) == CRLF + Join(rest)
  {
    assert ([""] + rest)[1..] == rest;
    assert "" + CRLF + Join(rest) == CRLF + Join(rest);
  }

  lemma JoinLonger(c: char, rest: seq<string>)
    requires rest != []
    ensures Join([[c] + rest[0]] + rest[1..]) == [c] + Join(rest)
  {
    var r := [[c] + rest[0]] + rest[1..];
    assert r[1..] == rest[1..];
    if |rest| > 1 {
      assert ([c] + rest[0]) + CRLF + Join(rest[1..]) == [c] + (rest[0] + CRLF + Join(rest[1..]));
    }
  }

  lemma LfStep(c: char, rest: string)
    ensures LfToCrlf([c] + rest) == (if c == '\n' then CRLF else [c]) + LfToCrlf(rest)
  {
    assert ([c] + rest)[1..] == rest;
  }

  lemma CrStep(c: char, rest: string)
    ensures CrToLf([c] + rest) == [if c == '\r' then '\n' else c] + CrToLf(rest)
  {
  }

  /** A reply keeps a lone CR inside its line. */
  lemma {:induction false} ReplyLines(s: string)
    ensures NormalizeReply(s) == Join(LinesOf(s, false))
  {
    if s == "" {
    } else if StartsWith(s, CRLF) {
      ReplyLines(s[2..]);
      LfStep('\n', CrlfToLf(s[2..]));
      JoinEmptyFirst(LinesOf(s[2..], false));
    } else {
      ReplyLines(s[1..]);
      LfStep(s[0], CrlfToLf(s[1..]));
      if s[0] == '\n' {
        JoinEmptyFirst(LinesOf(s[1..], false));
      } else {
        JoinLonger(s[0], LinesOf(s[1..], false));
      }
    }
  }

  /** A forward makes a lone CR a line end like the others. */
  lemma {:induction false} ForwardLines(s: string)
    ensures NormalizeForward(s) == Join(LinesOf(s, true))
  {
    if s == "" {
      assert CrToLf("") == "";
    } else if StartsWith(s, CRLF) {
      ForwardLines(s[2..]);
      CrStep('\n', CrlfToLf(s[2..]));
      LfStep('\n', CrToLf(CrlfToLf(s[2..])));
      JoinEmptyFirst(LinesOf(s[2..], true));
    } else {
      ForwardLines(s[1..]);
      CrStep(s[0], CrlfToLf(s[1..]));
      var c := if s[0] == '\r' then '\n' else s[0];
      LfStep(c, CrToLf(CrlfToLf(s[1..])));
      if c == '\n' {
        JoinEmptyFirst(LinesOf(s[1..], true));
      } else {
        JoinLonger(s[0], LinesOf(s[1..], true));
      }
    }
  }

  lemma {:induction false} LinesHoldNoLf(s: string, loneCr: bool)
    ensures forall i :: 0 <= i < |LinesOf(s, loneCr)| ==> '\n' !in LinesOf(s, loneCr)[i]
    ensures loneCr ==> forall i :: 0 <= i < |LinesOf(s, loneCr)| ==> '\r' !in LinesOf(s, loneCr)[i]
  {
    CrlfHead(s);
    if s == "" {
    } else if StartsWith(s, CRLF) {
      LinesHoldNoLf(s[2..], loneCr);
    } else {
      LinesHoldNoLf(s[1..], loneCr);
    }
  }

  lemma {:induction false} SplitJoin(lines: seq<string>)
    requires lines != [] && AllAtomic(lines)
    ensures Split(Join(lines)) == lines
  {
    if |lines| == 1 {
      assert Atomic(lines[0]);
    } else {
      SplitJoin(lines[1..]);
      assert Atomic(lines[0]);
      SplitAt(lines[0], Join(lines[1..]));
    }
  }

  /** Read at CRLF only, as a mail is, a normalised body has the lines its source has. */
  lemma NormalizedLines(s: string)
    ensures Split(NormalizeReply(s)) == LinesOf(s, false)
    ensures Split(NormalizeForward(s)) == LinesOf(s, true)
    ensures forall i :: 0 <= i < |LinesOf(s, true)| ==> NoLineBreak(LinesOf(s, true)[i])
  {
    ReplyLines(s);
    ForwardLines(s);
    LinesHoldNoLf(s, false);
    LinesHoldNoLf(s, true);
    forall l | l in LinesOf(s, false) || l in LinesOf(s, true) ensures Atomic(l) {
      SplitNoBreak(l);
    }
    SplitJoin(LinesOf(s, false));
    SplitJoin(LinesOf(s, true));
  }

  // ---- Bare line ends ------------------------------------------------------------------------

  /** No CR without an LF behind it and no LF without a CR in front of it. */
  predicate NoBareBreak(s: string) {
    && (forall i :: 0 <= i < |s| && s[i] == '\r' ==> i + 1 < |s| && s[i + 1] == '\n')
    && (forall i :: 0 <= i < |s| && s[i] == '\n' ==> i > 0 && s[i - 1] == '\r')
  }

  lemma NoBareStep(l: string, rest: string)
    requires NoLineBreak(l) && NoBareBreak(rest)
    ensures NoBareBreak(l + CRLF + rest)
  {
    var s, n := l + CRLF + rest, |l|;
    assert forall i :: 0 <= i < n ==> s[i] == l[i];
    assert s[n] == '\r' && s[n + 1] == '\n';
    assert forall i :: 0 <= i < |rest| ==> s[n + 2 + i] == rest[i];
    forall i | 0 <= i < |s| && s[i] == '\r' ensures i + 1 < |s| && s[i + 1] == '\n' {
      if i >= n + 2 {
        assert rest[i - n - 2] == '\r';
        assert s[n + 2 + (i - n - 1)] == rest[i - n - 1];
      }
    }
    forall i | 0 <= i < |s| && s[i] == '\n' ensures i > 0 && s[i - 1] == '\r' {
      if i >= n + 2 {
        assert rest[i - n - 2] == '\n';
        assert s[n + 2 + (i - n - 3)] == rest[i - n - 3];
      }
    }
  }

  lemma {:induction false} FlatHasNoBare(lines: seq<string>)
    requires forall i :: 0 <= i < |lines| ==> NoLineBreak(lines[i])
    ensures NoBareBreak(Flat(lines))
  {
    if lines != [] {
      FlatHasNoBare(lines[1..]);
      NoBareStep(lines[0], Flat(lines[1..]));
    }
  }
}
