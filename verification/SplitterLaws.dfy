/** What the Postgres splitter promises: nothing lost, a fixed point on its output, and compositionality. */
module SplitterLaws {
  import opened PyText
  import opened PostgresSplitter

  /** Reading `r` from mode `m` meets no statement-ending `;`. */
  ghost predicate Uncut(m: Mode, r: string)
    requires Reachable(m)
    decreases |r|
  {
    r == [] || (var mv := Step(m, r); !mv.cut && Uncut(mv.mode, r[mv.n..]))
  }

  /** Characters that belong to no multi-character token. */
  predicate Neutral(c: char) {
    !TagChar(c) && !IsQuote(c) && c != '-' && c != '/' && c != '*' && c != '\\'
  }

  // ---------------------------------------------------------------- lossless, and characterized

  lemma JoinCons(head: string, rest: seq<string>)
    requires rest != []
    ensures JoinSemicolons([head] + rest) == head + ";" + JoinSemicolons(rest)
  {
  }

  lemma SegmentsUnfold(m: Mode, current: string, r: string)
    requires Reachable(m)
    ensures Segments(m, current, r)
         == if r == [] then [current]
            else
              var mv := Step(m, r);
              if mv.cut then [current] + Segments(Normal, [], r[1..])
              else Segments(mv.mode, current + r[..mv.n], r[mv.n..])
  {
  }

  /** Joining the raw segments with `;` gives the script back. */
  lemma {:induction false} JoinSegments(m: Mode, current: string, r: string)
    requires Reachable(m)
    ensures JoinSemicolons(Segments(m, current, r)) == current + r
    decreases |r|
  {
    hide Step, JoinSemicolons, Reachable, Segments;
    SegmentsUnfold(m, current, r);
    if r == [] {
      JoinOne(current);
      assert current + r == current;
    } else {
      var mv := Step(m, r);
      if mv.cut {
        JoinSegments(Normal, [], r[1..]);
        JoinCons(current, Segments(Normal, [], r[1..]));
        assert r == ";" + r[1..] && [] + r[1..] == r[1..];
        assert current + ";" + r[1..] == current + (";" + r[1..]);
      } else {
        JoinSegments(mv.mode, current + r[..mv.n], r[mv.n..]);
        assert current + r[..mv.n] + r[mv.n..] == current + r;
      }
    }
  }

  lemma JoinOne(s: string)
    ensures JoinSemicolons([s]) == s
  {
  }

  /** Segments of an uncut text: the text itself; and only uncut texts have one segment. */
  lemma {:induction false} UncutIsOneSegment(m: Mode, current: string, r: string)
    requires Reachable(m)
    ensures Uncut(m, r) <==> |Segments(m, current, r)| == 1
    ensures Uncut(m, r) ==> Segments(m, current, r) == [current + r]
    decreases |r|
  {
    hide Step;
    JoinSegments(m, current, r);
    if r != [] {
      var mv := Step(m, r);
      if !mv.cut {
        UncutIsOneSegment(mv.mode, current + r[..mv.n], r[mv.n..]);
      }
    }
  }

  lemma {:induction false} IdentRunAppend(a: string, b: string)
    ensures IdentRun(a + b) == if IdentRun(a) < |a| then IdentRun(a) else |a| + IdentRun(b)
  {
    if a == [] {
      assert a + b == b;
    } else {
      assert (a + b)[1..] == a[1..] + b;
      IdentRunAppend(a[1..], b);
    }
  }

  /** A dollar tag is recognised in a text exactly when it is recognised in any prefix that holds it. */
  lemma TagLengthPrefix(p: string, q: string)
    requires p != [] && TagLength(p + q) <= |p|
    ensures TagLength(p) == TagLength(p + q)
  {
    assert (p + q)[1..] == p[1..] + q;
    IdentRunAppend(p[1..], q);
  }

  /** A move that fits into a prefix is the move made on the prefix alone. */
  lemma StepOnPrefix(m: Mode, p: string, q: string)
    requires Reachable(m) && p != [] && Step(m, p + q).n <= |p|
    ensures Step(m, p) == Step(m, p + q)
  {
    if m == Normal && p[0] == '$' {
      TagLengthPrefix(p, q);
      assert p[..TagLength(p)] == (p + q)[..TagLength(p)];
    }
  }

  lemma {:induction false} IdentifiersAreUncut(w: string)
    requires forall i :: 0 <= i < |w| ==> IdentChar(w[i])
    ensures Uncut(Normal, w)
  {
    if w != [] {
      IdentifiersAreUncut(w[1..]);
    }
  }

  lemma {:induction false} ShorterThanTagIsUncut(tag: string, p: string)
    requires Reachable(Dollar(tag)) && |p| < |tag|
    ensures Uncut(Dollar(tag), p)
  {
    if p != [] {
      ShorterThanTagIsUncut(tag, p[1..]);
    }
  }

  /** A text that stops inside a token is read without a cut. */
  lemma TornTokenIsUncut(m: Mode, p: string, q: string)
    requires Reachable(m) && p != [] && |p| < Step(m, p + q).n
    ensures Uncut(m, p)
  {
    if m.Dollar? {
      ShorterThanTagIsUncut(m.tag, p);
    } else if m == Normal && p[0] == '$' {
      TornTagIsUncut(p, q);
    } else {
      assert |p| == 1 && p[1..] == [];
    }
  }

  lemma {:induction false} TornTagIsUncut(p: string, q: string)
    requires p != [] && p[0] == '$' && |p| < TagLength(p + q)
    ensures Uncut(Normal, p)
  {
    assert (p + q)[1..] == p[1..] + q;
    IdentRunAppend(p[1..], q);
    assert TagLength(p) == 0 && Step(Normal, p) == Move(1, Normal, false);
    IdentifiersAreUncut(p[1..]);
  }

  /** Every prefix of an uncut text is uncut, wherever it stops. */
  lemma {:induction false} UncutPrefix(m: Mode, p: string, q: string)
    requires Reachable(m) && Uncut(m, p + q)
    ensures Uncut(m, p)
    decreases |p|
  {
    if p != [] {
      var mv := Step(m, p + q);
      if mv.n <= |p| {
        StepOnPrefix(m, p, q);
        assert (p + q)[mv.n..] == p[mv.n..] + q;
        UncutPrefix(mv.mode, p[mv.n..], q);
      } else {
        TornTokenIsUncut(m, p, q);
      }
    }
  }

  /** Whitespace in normal mode is passed over one character at a time. */
  lemma {:induction false} SpaceIsSkipped(lead: string, r: string)
    requires AllSpace(lead)
    ensures Uncut(Normal, lead + r) <==> Uncut(Normal, r)
    ensures Final(Normal, lead + r) == Final(Normal, r)
  {
    if lead == [] {
      assert lead + r == r;
    } else {
      assert (lead + r)[1..] == lead[1..] + r;
      var rest := lead + r;
      assert IsSpace(rest[0]) && rest[0] != '-' && rest[0] != '/' && rest[0] != '$' && rest[0] != ';';
      assert Step(Normal, rest) == Move(1, Normal, false);
      SpaceIsSkipped(lead[1..], r);
    }
  }

  /** Every raw segment is uncut, and every one but the last was left in normal mode. */
  ghost predicate Decomposes(segments: seq<string>, script: string) {
    && segments != []
    && JoinSemicolons(segments) == script
    && (forall i :: 0 <= i < |segments| ==> Uncut(Normal, segments[i]))
    && (forall i :: 0 <= i < |segments| - 1 ==> Final(Normal, segments[i]) == Normal)
  }

  /** Up to a neutral character, a text is read as if nothing followed it, unless it stops inside quotes. */
  lemma {:induction false} ReadsUpToNeutral(m: Mode, current: string, a: string, c: char, b: string)
    requires Reachable(m) && Neutral(c) && !Final(m, a).Quoted?
    ensures var s := Segments(m, current, a);
            Segments(m, current, a + [c] + b) == s[..|s| - 1] + Segments(Final(m, a), s[|s| - 1], [c] + b)
    decreases |a|
  {
    hide Step, Reachable, Neutral;
    var r := a + [c] + b;
    var s := Segments(m, current, a);
    if a == [] {
      assert r == [c] + b && s[..0] + Segments(m, current, [c] + b) == Segments(m, current, [c] + b);
    } else {
      var mv := Step(m, r);
      TokensStopAtNeutral(m, a, c, b);
      assert r == a + ([c] + b);
      StepOnPrefix(m, a, [c] + b);
      assert r[mv.n..] == a[mv.n..] + [c] + b && r[..mv.n] == a[..mv.n];
      if mv.cut {
        ReadsUpToNeutral(Normal, [], a[1..], c, b);
        PrependSegment(current, Segments(Normal, [], a[1..]), Final(m, a), [c] + b);
      } else {
        ReadsUpToNeutral(mv.mode, current + a[..mv.n], a[mv.n..], c, b);
      }
    }
  }

  lemma PrependSegment(current: string, t: seq<string>, m: Mode, r: string)
    requires t != [] && Reachable(m)
    ensures var s := [current] + t;
            [current] + (t[..|t| - 1] + Segments(m, t[|t| - 1], r)) == s[..|s| - 1] + Segments(m, s[|s| - 1], r)
  {
  }

  /** Outside of a trailing backslash in quotes, no token reaches over a neutral character. */
  lemma {:induction false} TokensStopAtNeutral(m: Mode, a: string, c: char, b: string)
    requires Reachable(m) && Neutral(c) && a != [] && !Final(m, a).Quoted?
    ensures Step(m, a + [c] + b).n <= |a|
  {
    var r := a + [c] + b;
    if m.Quoted? {
      LoneBackslash(m.quote);
    } else if m.Dollar? {
      if m.tag <= r {
        TagsStopAtNeutral(m.tag, a, c, b);
      }
    } else if m == Normal && TagLength(r) > 0 {
      TagsStopAtNeutral(r[..TagLength(r)], a, c, b);
    } else if |a| == 1 {
      assert r[1] == c;
    }
  }

  lemma TagsStopAtNeutral(tag: string, a: string, c: char, b: string)
    requires Reachable(Dollar(tag)) && !TagChar(c) && tag <= a + [c] + b
    ensures |tag| <= |a|
  {
    var r := a + [c] + b;
    assert !TagChar(r[|a|]);
    assert forall i :: 0 <= i < |tag| ==> tag[i] == r[i];
  }

  lemma LoneBackslash(q: char)
    requires IsQuote(q)
    ensures Final(Quoted(q), "\\") == Quoted(q)
  {
  }

  lemma SemicolonCuts(b: string)
    ensures Step(Normal, ";" + b) == Move(1, Normal, true)
  {
    assert (";" + b)[0] == ';';
  }

  /** Compositionality: a top-level `;` splits the work in two. */
  lemma SegmentsCompose(a: string, b: string)
    requires Final(Normal, a) == Normal
    ensures Segments(Normal, [], a + ";" + b) == Segments(Normal, [], a) + Segments(Normal, [], b)
  {
    hide Step;
    ReadsUpToNeutral(Normal, [], a, ';', b);
    SemicolonCuts(b);
    var s := Segments(Normal, [], a);
    assert (";" + b)[1..] == b;
    assert s == s[..|s| - 1] + [s[|s| - 1]];
    assert s[..|s| - 1] + ([s[|s| - 1]] + Segments(Normal, [], b)) == s + Segments(Normal, [], b);
  }

  lemma {:induction false} StatementsAppend(s: seq<string>, t: seq<string>)
    ensures Statements(s + t) == Statements(s) + Statements(t)
  {
    if s == [] {
      assert s + t == t;
    } else {
      assert (s + t)[1..] == s[1..] + t;
      StatementsAppend(s[1..], t);
    }
  }

  /** If scanning `a` ends in normal mode, the statements of `a;b` are those of `a` and then those of `b`. */
  lemma SplitComposes(a: string, b: string)
    requires Final(Normal, a) == Normal
    ensures Split(a + ";" + b) == Split(a) + Split(b)
  {
    SegmentsCompose(a, b);
    StatementsAppend(Segments(Normal, [], a), Segments(Normal, [], b));
  }

  /** Only one list of texts decomposes a script, and the splitter finds it. */
  lemma {:induction false} SegmentsAreTheDecomposition(segments: seq<string>, script: string)
    ensures Decomposes(segments, script) <==> segments == Segments(Normal, [], script)
  {
    if Decomposes(segments, script) {
      DecompositionIsUnique(segments, script);
    }
    SegmentsDecompose(Normal, [], script);
    JoinSegments(Normal, [], script);
    assert [] + script == script;
    var s := Segments(Normal, [], script);
    assert s[0][0..] == s[0];
  }

  lemma {:induction false} DecompositionIsUnique(segments: seq<string>, script: string)
    requires Decomposes(segments, script)
    ensures segments == Segments(Normal, [], script)
  {
    if |segments| == 1 {
      UncutIsOneSegment(Normal, [], script);
      assert [] + script == script;
    } else {
      var rest := JoinSemicolons(segments[1..]);
      SegmentsCompose(segments[0], rest);
      UncutIsOneSegment(Normal, [], segments[0]);
      assert [] + segments[0] == segments[0];
      DecompositionIsUnique(segments[1..], rest);
    }
  }

  /** The segment the scanner is in continues `current` with an uncut text; the later ones are uncut. */
  lemma {:induction false} SegmentsDecompose(m: Mode, current: string, r: string)
    requires Reachable(m)
    ensures var s := Segments(m, current, r);
            && current <= s[0] <= current + r
            && Uncut(m, s[0][|current|..])
            && (|s| > 1 ==> Final(m, s[0][|current|..]) == Normal)
            && (forall i :: 1 <= i < |s| ==> Uncut(Normal, s[i]))
            && (forall i :: 1 <= i < |s| - 1 ==> Final(Normal, s[i]) == Normal)
    decreases |r|
  {
    hide Step;
    var s := Segments(m, current, r);
    if r != [] {
      var mv := Step(m, r);
      if mv.cut {
        SegmentsDecompose(Normal, [], r[1..]);
        var t := Segments(Normal, [], r[1..]);
        assert t[0][0..] == t[0] && current[|current|..] == [];
      } else {
        var next := current + r[..mv.n];
        SegmentsDecompose(mv.mode, next, r[mv.n..]);
        var w := s[0][|current|..];
        assert next + r[mv.n..] == current + r;
        WithinText(current, r, s[0], mv.n);
        StepOnPrefix(m, w, r[|w|..]);
      }
    }
  }

  lemma WithinText(current: string, r: string, segment: string, n: nat)
    requires n <= |r| && current + r[..n] <= segment <= current + r
    ensures current <= segment
    ensures var w := segment[|current|..]; n <= |w| <= |r| && r == w + r[|w|..] && w[n..] == segment[|current| + n..]
  {
  }

  /** Splitting is a fixed point on its own output: a statement is its own one statement. */
  lemma StatementIsFixed(r: string)
    requires Uncut(Normal, r) && Strip(r) != []
    ensures Split(Strip(r)) == [Strip(r)]
  {
    var t := Strip(r);
    var lead := LstripCuts(r);
    var trail := RstripCuts(Lstrip(r));
    SpaceIsSkipped(lead, Lstrip(r));
    UncutPrefix(Normal, t, trail);
    UncutIsOneSegment(Normal, [], t);
    assert [] + t == t;
    StripAround(lead, t, trail);
    assert lead + t + trail == r;
    assert Statements([t]) == [Strip(t)] + Statements([t][1..]);
  }

  /** Every statement comes from a raw segment. */
  lemma {:induction false} StatementOrigin(segments: seq<string>, k: nat) returns (i: nat)
    requires k < |Statements(segments)|
    ensures i < |segments| && Strip(segments[i]) == Statements(segments)[k] && Strip(segments[i]) != []
  {
    var n := if Strip(segments[0]) == [] then 0 else 1;
    if k < n {
      i := 0;
    } else {
      var j := StatementOrigin(segments[1..], k - n);
      i := j + 1;
    }
  }

  /** Whatever the script, each statement the splitter returns splits into itself alone. */
  lemma SplitIsFixedPoint(script: string, k: nat)
    requires k < |Split(script)|
    ensures Split(Split(script)[k]) == [Split(script)[k]]
  {
    var segments := Segments(Normal, [], script);
    var i := StatementOrigin(segments, k);
    SegmentsAreTheDecomposition(segments, script);
    StatementIsFixed(segments[i]);
  }
}
