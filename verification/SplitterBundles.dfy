/** What a migration bundle's common and dialect SQL come to once they are joined and split. */
module SplitterBundles {
  import opened PyText
  import opened PostgresSplitter
  import opened SplitterLaws

  /** The text a bundle runs on one dialect: the non-empty parts joined by a blank line. */
  function SqlFor(common: string, dialect: string): string {
    if common == [] then dialect else if dialect == [] then common else common + "\n\n" + dialect
  }

  function FirstSegment(script: string): string { Segments(Normal, [], script)[0] }

  function LastSegment(script: string): string {
    var s := Segments(Normal, [], script); s[|s| - 1]
  }

  function Init(script: string): seq<string> {
    var s := Segments(Normal, [], script); s[..|s| - 1]
  }

  function Tail(script: string): seq<string> { Segments(Normal, [], script)[1..] }

  lemma {:induction false} CurrentIsAPrefix(m: Mode, current: string, r: string)
    requires Reachable(m)
    ensures var s := Segments(m, [], r); Segments(m, current, r) == [current + s[0]] + s[1..]
    decreases |r|
  {
    hide Step, Reachable;
    if r == [] {
      assert current + [] == current;
    } else {
      var mv := Step(m, r);
      if !mv.cut {
        CurrentIsAPrefix(mv.mode, current + r[..mv.n], r[mv.n..]);
        CurrentIsAPrefix(mv.mode, [] + r[..mv.n], r[mv.n..]);
        var t := Segments(mv.mode, [], r[mv.n..])[0];
        assert current + r[..mv.n] + t == current + ([] + r[..mv.n] + t);
      } else {
        assert current + [] == current;
      }
    }
  }

  /** After plain SQL or a line comment, a blank line leads back to plain SQL. */
  lemma BlankLineIsRead(m: Mode, current: string, r: string)
    requires m == Normal || m == LineComment
    ensures Segments(m, current, "\n\n" + r) == Segments(Normal, current + "\n\n", r)
  {
    NewlineIsRead(m, "\n" + r);
    NewlineIsRead(Normal, r);
    hide Step, Segments;
    assert "\n\n" + r == "\n" + ("\n" + r);
    SegmentsUnfold(m, current, "\n" + ("\n" + r));
    SegmentsUnfold(Normal, current + "\n", "\n" + r);
    assert current + "\n" + "\n" == current + "\n\n";
  }

  lemma NewlineIsRead(m: Mode, r: string)
    requires m == Normal || m == LineComment
    ensures var t := "\n" + r; Step(m, t) == Move(1, Normal, false) && t[1..] == r && t[..1] == "\n"
  {
    var t := "\n" + r;
    assert t[0] == '\n' && t[1..] == r && t[..1] == "\n";
  }

  lemma SegmentsAcrossBlankLine(common: string, dialect: string)
    requires Final(Normal, common) == Normal || Final(Normal, common) == LineComment
    ensures Segments(Normal, [], common + "\n\n" + dialect)
         == Init(common) + [LastSegment(common) + "\n\n" + FirstSegment(dialect)] + Tail(dialect)
  {
    hide Step, Segments, Final;
    ReadsUpToNeutral(Normal, [], common, '\n', "\n" + dialect);
    assert common + ['\n'] + ("\n" + dialect) == common + "\n\n" + dialect;
    assert ['\n'] + ("\n" + dialect) == "\n\n" + dialect;
    BlankLineIsRead(Final(Normal, common), LastSegment(common), dialect);
    CurrentIsAPrefix(Normal, LastSegment(common) + "\n\n", dialect);
    var joined := LastSegment(common) + "\n\n" + FirstSegment(dialect);
    assert Init(common) + ([joined] + Tail(dialect)) == Init(common) + [joined] + Tail(dialect);
  }

  /** Blank parts add nothing around the joint; two parts with content would be fused into one statement. */
  lemma StatementsAcrossBlankLine(last: string, first: string)
    ensures Statements([last + "\n\n" + first]) == Statements([last]) + Statements([first])
       <==> AllSpace(last) || AllSpace(first)
  {
    var joined := last + "\n\n" + first;
    assert [joined][1..] == [] && [last][1..] == [] && [first][1..] == [];
    BlankStrips(last);
    BlankStrips(first);
    if AllSpace(last) {
      StripAround(last + "\n\n", first, []);
      assert joined + [] == joined;
    } else if AllSpace(first) {
      StripAround([], last, "\n\n" + first);
      assert [] + last + ("\n\n" + first) == joined;
    }
  }

  lemma SplitParts(script: string)
    ensures Split(script) == Statements(Init(script)) + Statements([LastSegment(script)])
    ensures Split(script) == Statements([FirstSegment(script)]) + Statements(Tail(script))
  {
    hide Statements, Segments;
    assert Segments(Normal, [], script) == Init(script) + [LastSegment(script)];
    assert Segments(Normal, [], script) == [FirstSegment(script)] + Tail(script);
    StatementsAppend(Init(script), [LastSegment(script)]);
    StatementsAppend([FirstSegment(script)], Tail(script));
  }

  lemma ClosedBundleRunsBoth(common: string, dialect: string)
    requires Final(Normal, common) == Normal || Final(Normal, common) == LineComment
    ensures Split(SqlFor(common, dialect)) == Split(common) + Split(dialect)
       <==> AllSpace(LastSegment(common)) || AllSpace(FirstSegment(dialect))
  {
    if common != [] && dialect != [] {
      hide Segments, Final, Statements, AllSpace, Init, Tail, FirstSegment, LastSegment;
      var joined := LastSegment(common) + "\n\n" + FirstSegment(dialect);
      SegmentsAcrossBlankLine(common, dialect);
      StatementsAcrossBlankLine(LastSegment(common), FirstSegment(dialect));
      StatementsAppend(Init(common) + [joined], Tail(dialect));
      StatementsAppend(Init(common), [joined]);
      SplitParts(common);
      SplitParts(dialect);
      Surrounded(Statements(Init(common)), Statements([joined]),
                 Statements([LastSegment(common)]), Statements([FirstSegment(dialect)]), Statements(Tail(dialect)));
    }
  }

  lemma Surrounded(before: seq<string>, middle: seq<string>, left: seq<string>, right: seq<string>, after: seq<string>)
    ensures before + middle + after == (before + left) + (right + after) <==> middle == left + right
  {
    assert (before + left) + (right + after) == before + (left + right) + after;
    if before + middle + after == before + (left + right) + after {
      assert |middle| == |left + right|;
      assert middle == (before + middle + after)[|before|..|before| + |middle|];
      assert left + right == (before + (left + right) + after)[|before|..|before| + |middle|];
    }
  }

  // ---------------------------------------------------------------- common SQL that is left open

  /** Inside quotes, a dollar quote or a block comment: no whitespace leads out of it. */
  predicate IsOpen(m: Mode) {
    m.Quoted? || m.Dollar? || m.BlockComment?
  }

  lemma SpaceStaysInside(m: Mode, r: string)
    requires Reachable(m) && IsOpen(m) && r != [] && IsSpace(r[0])
    ensures Step(m, r) == Move(1, m, false)
  {
    assert r[0] != '\\' && r[0] != '$' && r[0] != '/' && r[0] != '*';
  }

  /** A text that is left in quotes goes on in them after a newline, even one that a trailing backslash escapes. */
  lemma {:induction false} QuotesGoOn(m: Mode, current: string, a: string, b: string)
    requires Reachable(m) && Final(m, a).Quoted?
    ensures var s := Segments(m, current, a);
            Segments(m, current, a + "\n" + b) == s[..|s| - 1] + Segments(Final(m, a), s[|s| - 1] + "\n", b)
    decreases |a|
  {
    hide Step, Reachable, Neutral;
    var r := a + "\n" + b;
    var s := Segments(m, current, a);
    if a == [] {
      assert r[0] == '\n' && r[1..] == b && r[..1] == "\n";
      SpaceStaysInside(m, r);
    } else {
      var mv := Step(m, r);
      assert r == a + ("\n" + b);
      TokensStopInQuotes(m, a, b);
      if mv.n > |a| {
        LoneBackslashReads(m, current, b);
      } else {
        StepOnPrefix(m, a, "\n" + b);
        assert r[mv.n..] == a[mv.n..] + "\n" + b && r[..mv.n] == a[..mv.n];
        if mv.cut {
          QuotesGoOn(Normal, [], a[1..], b);
          var t := Segments(Normal, [], a[1..]);
          assert s == [current] + t && s[..|s| - 1] == [current] + t[..|t| - 1];
        } else {
          QuotesGoOn(mv.mode, current + a[..mv.n], a[mv.n..], b);
        }
      }
    }
  }

  lemma LoneBackslashReads(m: Mode, current: string, b: string)
    requires m.Quoted? && Reachable(m)
    ensures Segments(m, current, "\\") == [current + "\\"] && Final(m, "\\") == m
    ensures Segments(m, current, "\\" + "\n" + b) == Segments(m, current + "\\" + "\n", b)
  {
    var r := "\\" + "\n" + b;
    assert r[0] == '\\' && r[2..] == b && r[..2] == "\\" + "\n";
    assert Step(m, r) == Move(2, m, false);
    assert current + r[..2] == current + "\\" + "\n";
    assert "\\"[1..] == "" && "\\"[..1] == "\\";
    assert m.quote != '\\';
  }

  lemma TokensStopInQuotes(m: Mode, a: string, b: string)
    requires Reachable(m) && a != []
    ensures Step(m, a + ("\n" + b)).n <= |a| || (m.Quoted? && a == "\\")
  {
    var r := a + ("\n" + b);
    assert r == a + ['\n'] + b && r[|a|] == '\n' && r[0] == a[0];
    if m.Dollar? {
      if m.tag <= r {
        TagsStopAtNeutral(m.tag, a, '\n', b);
      }
    } else if m == Normal && TagLength(r) > 0 {
      TagsStopAtNeutral(r[..TagLength(r)], a, '\n', b);
    }
  }

  /** What is open at the end of the common SQL stays open across the blank line. */
  lemma OpenAcrossBlankLine(common: string, dialect: string)
    requires IsOpen(Final(Normal, common))
    ensures Segments(Normal, [], common + "\n\n" + dialect)
         == Init(common) + Segments(Final(Normal, common), LastSegment(common) + "\n\n", dialect)
  {
    hide Step, Segments, Final;
    var m, last := Final(Normal, common), LastSegment(common);
    var once := "\n" + dialect;
    assert common + "\n\n" + dialect == common + "\n" + once && last + "\n" + "\n" == last + "\n\n";
    if m.Quoted? {
      QuotesGoOn(Normal, [], common, once);
    } else {
      ReadsUpToNeutral(Normal, [], common, '\n', once);
      assert common + ['\n'] + once == common + "\n" + once && ['\n'] + once == "\n" + once;
      NewlineStaysInside(m, last, once);
    }
    NewlineStaysInside(m, last + "\n", dialect);
  }

  lemma NewlineStaysInside(m: Mode, current: string, r: string)
    requires Reachable(m) && IsOpen(m)
    ensures Segments(m, current, "\n" + r) == Segments(m, current + "\n", r)
  {
    hide Step;
    var t := "\n" + r;
    assert t[0] == '\n' && t[1..] == r && t[..1] == "\n";
    SpaceStaysInside(m, t);
  }

  /** Whitespace read inside of something open stays in its segment, and anything else becomes part of it. */
  lemma {:induction false} OpenSegment(m: Mode, current: string, r: string) returns (w: string)
    requires Reachable(m) && IsOpen(m)
    ensures AllSpace(r) ==> Segments(m, current, r) == [current + r]
    ensures !AllSpace(r) ==> Segments(m, current, r)[0] == current + w && !AllSpace(w)
    decreases |r|
  {
    hide Step;
    if r == [] {
      w := [];
      assert current + r == current;
    } else if IsSpace(r[0]) {
      SpaceStaysInside(m, r);
      var rest := OpenSegment(m, current + r[..1], r[1..]);
      w := r[..1] + rest;
      assert r == r[..1] + r[1..];
      assert current + r[..1] + r[1..] == current + r;
      assert current + r[..1] + rest == current + w;
      assert AllSpace(r) <==> AllSpace(r[1..]) by { SpaceFirst(r); }
      if !AllSpace(rest) {
        assert w[1..] == rest;
        SpaceFirst(w);
      }
    } else {
      var mv := Step(m, r);
      SegmentsDecompose(mv.mode, current + r[..mv.n], r[mv.n..]);
      var first := Segments(m, current, r)[0];
      w := first[|current|..];
      assert current + w == first;
      assert w[0] == first[|current|] == (current + r[..mv.n])[|current|] == r[0];
    }
  }

  lemma SpaceFirst(r: string)
    requires r != [] && IsSpace(r[0])
    ensures AllSpace(r) <==> AllSpace(r[1..])
  {
    assert forall i :: 1 <= i < |r| ==> r[1..][i - 1] == r[i];
  }

  /** The text of the last segment ends where the whole text ends. */
  lemma {:induction false} FinalOfLast(m: Mode, current: string, r: string)
    requires Reachable(m)
    ensures var s := Segments(m, current, r);
            |s| > 1 ==> Final(Normal, s[|s| - 1]) == Final(m, r)
    decreases |r|
  {
    hide Step;
    if r != [] {
      var mv := Step(m, r);
      if mv.cut {
        FinalOfLast(Normal, [], r[1..]);
        JoinSegments(Normal, [], r[1..]);
        assert [] + r[1..] == r[1..];
        var t := Segments(Normal, [], r[1..]);
        if |t| == 1 {
          assert t[0] == r[1..];
        }
      } else {
        FinalOfLast(mv.mode, current + r[..mv.n], r[mv.n..]);
      }
    }
  }

  lemma OpenSegmentIsNotBlank(common: string)
    requires IsOpen(Final(Normal, common))
    ensures Strip(LastSegment(common)) != []
  {
    hide Step, Strip;
    var last := LastSegment(common);
    FinalOfLast(Normal, [], common);
    if |Segments(Normal, [], common)| == 1 {
      JoinSegments(Normal, [], common);
      assert last == [] + common == common;
    }
    BlankStrips(last);
    assert last + [] == last;
    if AllSpace(last) {
      SpaceIsSkipped(last, []);
    }
  }

  lemma EdgesAreKept(s: string)
    requires s != []
    ensures !IsSpace(s[0]) ==> Lstrip(s) == s
    ensures !IsSpace(s[|s| - 1]) ==> Rstrip(s) == s
  {
  }

  lemma NothingStripped()
    ensures Rstrip([]) == []
  {
  }

  /** Text appended to a non-blank text changes its stripped form unless it is blank. */
  lemma StripGrows(x: string, w: string)
    requires Strip(x) != [] && !AllSpace(w)
    ensures |Strip(x + w)| > |Strip(x)|
  {
    hide Lstrip, Rstrip;
    NothingStripped();
    var lead := LstripCuts(x);
    var core := Lstrip(x);
    var trail := RstripCuts(w);
    var cut := RstripCuts(core);
    assert Rstrip(w) == [] ==> w == trail;
    assert x + w == lead + (core + w);
    LstripSkips(lead, core + w);
    EdgesAreKept(core + w);
    assert core + w == core + Rstrip(w) + trail;
    RstripSkips(core + Rstrip(w), trail);
    EdgesAreKept(core + Rstrip(w));
  }

  /** Where the common SQL is left open, only a blank dialect part leaves its statements alone. */
  lemma OpenBundleRunsBoth(common: string, dialect: string)
    requires IsOpen(Final(Normal, common))
    ensures Split(SqlFor(common, dialect)) == Split(common) + Split(dialect) <==> AllSpace(dialect)
  {
    hide Step, Segments, Final, Statements, Strip, AllSpace;
    OpenIsNotEmpty(common);
    var m, last := Final(Normal, common), LastSegment(common);
    OpenSegmentIsNotBlank(common);
    if dialect == [] {
      NothingSplits();
      assert Split(common) + [] == Split(common);
    } else {
      var whole := Segments(m, last + "\n\n", dialect);
      OpenAcrossBlankLine(common, dialect);
      StatementsAppend(Init(common), whole);
      assert Segments(Normal, [], common) == Init(common) + [last];
      StatementsAppend(Init(common), [last]);
      OneStatement(last);
      var w := OpenSegment(m, last + "\n\n", dialect);
      if AllSpace(dialect) {
        BlankSplits(dialect);
        BlankAppended(last, dialect);
        OneStatement(last + "\n\n" + dialect);
      } else {
        NewlinesStripped(last);
        StripGrows(last + "\n\n", w);
        FirstStatement(whole);
        DifferBehind(Statements(Init(common)), Statements(whole), Strip(last), Split(dialect));
      }
    }
  }

  lemma DifferBehind(before: seq<string>, x: seq<string>, y: string, after: seq<string>)
    requires x != [] && x[0] != y
    ensures before + x != before + [y] + after
  {
    assert (before + x)[|before|] == x[0] && (before + [y] + after)[|before|] == y;
  }

  lemma OpenIsNotEmpty(common: string)
    requires IsOpen(Final(Normal, common))
    ensures common != []
  {
  }

  lemma BlankSplits(r: string)
    requires AllSpace(r)
    ensures Split(r) == []
  {
    hide Step;
    SpaceIsSkipped(r, []);
    assert r + [] == r;
    UncutIsOneSegment(Normal, [], r);
    assert [] + r == r;
    BlankStrips(r);
  }

  lemma NothingSplits()
    ensures Split([]) == [] && AllSpace([])
  {
  }

  lemma OneStatement(r: string)
    requires Strip(r) != []
    ensures Statements([r]) == [Strip(r)]
  {
    assert [r][1..] == [];
  }

  lemma FirstStatement(segments: seq<string>)
    requires segments != [] && Strip(segments[0]) != []
    ensures Statements(segments) != [] && Statements(segments)[0] == Strip(segments[0])
  {
  }

  lemma NewlinesStripped(last: string)
    ensures Strip(last + "\n\n") == Strip(last)
  {
    StripAround([], last, "\n\n");
    assert [] + last + "\n\n" == last + "\n\n";
  }

  lemma BlankAppended(last: string, dialect: string)
    requires AllSpace(dialect)
    ensures Strip(last + "\n\n" + dialect) == Strip(last)
  {
    StripAround([], last, "\n\n" + dialect);
    assert [] + last + ("\n\n" + dialect) == last + "\n\n" + dialect;
  }

  /**
   * When a bundle runs its common statements and then its dialect's. Common SQL that ends in plain SQL or a line
   * comment must end at a top-level `;` (only whitespace follows it), or the dialect SQL start at one; otherwise the
   * two meeting statements fuse. Common SQL that leaves a quote or a block comment open swallows any dialect SQL.
   */
  lemma BundleRunsCommonThenDialect(common: string, dialect: string)
    ensures Split(SqlFor(common, dialect)) == Split(common) + Split(dialect)
       <==> if IsOpen(Final(Normal, common)) then AllSpace(dialect)
            else AllSpace(LastSegment(common)) || AllSpace(FirstSegment(dialect))
  {
    if IsOpen(Final(Normal, common)) {
      OpenBundleRunsBoth(common, dialect);
    } else {
      ClosedBundleRunsBoth(common, dialect);
    }
  }
}
