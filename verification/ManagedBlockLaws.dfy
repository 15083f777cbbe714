/** What the managed-block operations undo, repeat and restore. */
module ManagedBlockLaws {
  import opened PyText
  import opened ManagedBlocks

  // ---------------------------------------------------------------- whitespace around the block

  lemma RstripIs(core: string, trail: string)
    requires AllSpace(trail) && (core == "" || !IsSpace(core[|core| - 1]))
    ensures Rstrip(core + trail) == core
  {
    RstripSkips(core, trail);
  }

  lemma BlankIsStripped(s: string)
    ensures AllSpace(s) <==> Rstrip(s) == ""
    ensures AllSpace(s) <==> Strip(s) == ""
  {
    BlankStrips(s);
    var trail := RstripCuts(s);
    if AllSpace(s) {
      RstripSkips("", s);
      assert "" + s == s;
    }
  }

  lemma MarkedStrips(body: string)
    ensures Rstrip(Block(body)) == Marked(body) && Marked(body) != ""
    ensures Block(body) == Marked(body) + "\n"
  {
  }

  lemma EndIsText()
    ensures END != "" && !IsSpace(END[|END| - 1])
  {
  }

  /** Padding ends the last line, adds nothing but newlines and leaves an empty text empty. */
  lemma PaddedIs(c: string) returns (pad: string)
    ensures Padded(c) == c + pad && pad in {"", "\n", "\n\n"}
    ensures WholeLines(Padded(c)) && Rstrip(Padded(c)) == Rstrip(c)
    ensures Padded(c) == "" <==> c == ""
  {
    hide Rstrip, Strip;
    var ended := if c != "" && c[|c| - 1] != '\n' then c + "\n" else c;
    pad := Padded(c)[|c|..];
    assert c + "\n" + "\n" == c + "\n\n";
    RstripSkips(c, pad);
    BlankIsStripped("");
  }

  /** Padding leaves exactly one blank line after text that ends without one. */
  lemma {:induction false} PaddedLeavesBlankLine(c: string)
    requires Rstrip(c) != ""
    ensures Padded(c) == Rstrip(c) + "\n\n" <==> c == Rstrip(c) || c == Rstrip(c) + "\n"
  {
    hide Rstrip, Strip;
    var ended := if c != "" && c[|c| - 1] != '\n' then c + "\n" else c;
    RstripSkips(c, "\n");
    BlankIsStripped(ended);
    var trail := RstripCuts(c);
    if c == Rstrip(c) + "\n" {
      assert c[|c| - 1] == '\n';
    }
    assert c + "\n" + "\n" == c + "\n\n";
    assert Rstrip(c) + "\n" + "\n" == Rstrip(c) + "\n\n";
    if Padded(c) == Rstrip(c) + "\n\n" && ended == c {
      assert c == Padded(c)[..|c|];
    }
  }

  lemma ContainsThroughPadding(c: string, needle: string)
    requires needle != [] && '\n' !in needle
    ensures Contains(Padded(c), needle) <==> Contains(c, needle)
  {
    hide Find, Padded, Rstrip;
    var pad := PaddedIs(c);
    NothingIsIn(needle);
    assert c + "" == c;
    assert "" + ['\n'] + "" == "\n";
    if pad == "\n" {
      ContainsOnOneSide(c, '\n', "", needle);
      assert c + ['\n'] + "" == Padded(c);
    } else if pad == "\n\n" {
      ContainsOnOneSide(c, '\n', "\n", needle);
      ContainsOnOneSide("", '\n', "", needle);
      assert c + ['\n'] + "\n" == Padded(c);
    }
  }

  lemma NothingIsIn(needle: string)
    requires needle != []
    ensures !Contains("", needle)
  {
  }

  // ---------------------------------------------------------------- what the operations do to a text with a block in

  lemma {:induction false} RemoveCuts(head: string, body: string, tail: string)
    requires WholeLines(head) && !Contains(head, BEGIN) && MarkerFree(body)
    ensures var content := head + (Marked(body) + tail);
            var prefix, suffix := Rstrip(head), LstripNewlines(tail);
            && Managed(content) && BlockEnd(content).Some?
            && Remove(content) == Ok(if prefix == "" && suffix == "" then ""
                                     else if prefix == "" then suffix + "\n"
                                     else if suffix == "" then prefix + "\n"
                                     else prefix + "\n\n" + suffix + "\n")
            && Extract(content) == Ok(Some(Block(body)))
  {
    hide Find, Occurs, BEGIN, END, WholeLines, MarkerFree, Rstrip, LstripNewlines, Marked;
    MarkedStrips(body);
    BlockIsFound(head, body, tail);
    Slices(head, Marked(body), tail);
    FoundIsContained(head + (Marked(body) + tail), END, |head|);
  }

  lemma FoundIsContained(s: string, needle: string, from: nat)
    requires Find(s, needle, from).Some?
    ensures Contains(s, needle)
  {
    hide Find;
    FindIsFirst(s, needle, 0);
  }

  lemma {:induction false} UpsertReplaces(head: string, body: string, tail: string, block: string)
    requires WholeLines(head) && MarkerFree(head) && MarkerFree(body)
    ensures var content := head + (Marked(body) + tail);
            var front, new_, back := Rstrip(head), Rstrip(block), LstripNewlines(tail);
            Upsert(content, block)
            == Ok((if front == "" || new_ + back == "" then front else front + "\n\n")
                  + (if new_ == "" || back == "" then new_ else new_ + "\n\n") + back + "\n")
  {
    hide Find, Occurs, BEGIN, END, WholeLines, Rstrip, LstripNewlines, Marked;
    MarkersAreApart();
    BlockIsFound(head, body, tail);
    Slices(head, Marked(body), tail);
    FindSkipsLines(head, Marked(body) + tail, END);
    GluedTwice(Rstrip(head), Rstrip(block), LstripNewlines(tail));
  }

  lemma GluedTwice(front: string, new_: string, back: string)
    ensures Glue(front, Glue(new_, back))
         == (if front == "" || new_ + back == "" then front else front + "\n\n")
            + (if new_ == "" || back == "" then new_ else new_ + "\n\n") + back
  {
    if front == "" {
      if new_ == "" || back == "" {
        assert Glue(new_, back) == new_ + back;
      }
    } else if new_ + back == "" {
      assert Glue(new_, back) == "";
    } else {
      assert Glue(front, Glue(new_, back)) == front + "\n\n" + Glue(new_, back);
      if new_ == "" || back == "" {
        assert Glue(new_, back) == new_ + back;
      }
    }
  }

  /** What is stripped of leading newlines begins behind them. */
  lemma {:induction false} NewlinesCut(s: string) returns (i: nat)
    ensures i <= |s| && LstripNewlines(s) == s[i..] && (forall k :: 0 <= k < i ==> s[k] == '\n')
    ensures i < |s| ==> s[i] != '\n'
  {
    if s != "" && s[0] == '\n' {
      var j := NewlinesCut(s[1..]);
      i := j + 1;
    } else {
      i := 0;
    }
  }

  /**
   * Without a block in it, a text is refused exactly if it defines the server's table itself; else the block is written
   * behind it, on a line of its own, and behind text after a blank line.
   */
  lemma UpsertWithoutBlock(c: string, block: string)
    requires !Managed(c)
    ensures Upsert(c, block).Ok? <==> !Contains(c, "[mcp_servers.researchRegistry]")
    ensures Upsert(c, block).Ok? ==>
              var ended := c == "" || c[|c| - 1] == '\n';
              Upsert(c, block).value
              == c + (if ended then "" else "\n") + (if AllSpace(c) then "" else "\n") + block
  {
    hide Find, BEGIN, END, Strip;
    var ended := if c != "" && c[|c| - 1] != '\n' then c + "\n" else c;
    assert UNMANAGED == "[mcp_servers.researchRegistry]";
    assert IsSpace('\n');
    BlankIsStripped(ended);
  }

  // ---------------------------------------------------------------- round trips

  /** Text that uninstalling gives back unchanged: nothing, or text that ends in exactly one newline. */
  predicate Tidy(c: string) {
    c == "" || (Rstrip(c) != "" && c == Rstrip(c) + "\n")
  }

  /** Removing the block just added gives the text back exactly when it is tidy and holds no stray begin marker. */
  lemma {:induction false} RemoveUndoesUpsert(c: string, body: string)
    requires !Managed(c) && !Contains(c, UNMANAGED) && MarkerFree(body)
    ensures Upsert(c, Block(body)).Ok?
    ensures Remove(Upsert(c, Block(body)).value) == Ok(c) <==> Tidy(c) && !Contains(c, BEGIN)
  {
    hide Find, Occurs, BEGIN, END, UNMANAGED, MarkerFree, Padded, Rstrip, Marked, Block, Remove;
    MarkersAreApart();
    MarkedStrips(body);
    var pad := PaddedIs(c);
    var written := Padded(c) + (Marked(body) + "\n");
    ContainsThroughPadding(c, BEGIN);
    if Contains(c, BEGIN) {
      StrayBeginLosesText(c, body);
    } else {
      RemoveCuts(Padded(c), body, "\n");
      NewlineStrips();
      var trail := RstripCuts(c);
      if c != "" && Rstrip(c) == "" {
        assert Glue("", "") == "";
      }
    }
  }

  /** The rendered block is one of the blocks the round trips speak of, for any URL and key without markers. */
  lemma {:induction false} RenderedBlockIsUndone(c: string, url: string, key: string)
    requires !Managed(c) && !Contains(c, UNMANAGED) && MarkerFree(url) && MarkerFree(key)
    ensures UpsertConfig(c, url, key).Ok? <==> key != ""
    ensures key != "" ==> (Remove(UpsertConfig(c, url, key).value) == Ok(c) <==> Tidy(c) && !Contains(c, BEGIN))
  {
    hide Find, Upsert, Remove, Managed, MarkerFree, RenderTable, Block, UNMANAGED, BEGIN, END, Tidy;
    RenderedTableIsMarkerFree(url, key);
    RemoveUndoesUpsert(c, RenderTable(url, key));
  }

  lemma NewlineStrips()
    ensures LstripNewlines("\n") == ""
  {
  }

  /** With a stray begin marker in the text, removal cuts from there and loses what follows it. */
  lemma StrayBeginLosesText(c: string, body: string)
    requires !Managed(c) && Contains(c, BEGIN) && MarkerFree(body)
    ensures var left := Remove(Padded(c) + (Marked(body) + "\n"));
            left.Ok? && |left.value| < |c|
  {
    hide Find, Occurs, BEGIN, END, Rstrip, Padded, Marked, MarkerFree, LstripNewlines, WholeLines, Remove;
    MarkersAreApart();
    var pad := PaddedIs(c);
    var head, rest := Padded(c), Marked(body) + "\n";
    var content := head + rest;
    ContainsThroughPadding(c, END);
    FindSkipsLines(head, rest, END);
    MarkedSearch(body, "\n");
    FindShifts(head, rest, END);
    assert content == c + (pad + rest);
    FirstStaysFirst(c, pad + rest, BEGIN);
    FindBetween(content, END, Find(c, BEGIN, 0).value, |head|);
    FoundIsContained(content, END, 0);
    Slices(head, Marked(body), "\n");
    RemoveToTheEnd(content);
  }

  lemma RemoveToTheEnd(c: string)
    requires Managed(c) && BlockEnd(c).Some? && c[BlockEnd(c).value..] == "\n"
    ensures Remove(c).Ok? && |Remove(c).value| <= Find(c, BEGIN, 0).value + 1
  {
    hide Find, Rstrip, BEGIN, END;
    NewlineStrips();
    var trail := RstripCuts(c[..Find(c, BEGIN, 0).value]);
  }

  lemma {:induction false} FirstStaysFirst(c: string, rest: string, needle: string)
    requires Contains(c, needle)
    ensures Find(c + rest, needle, 0) == Find(c, needle, 0)
    ensures Find(c, needle, 0).value + |needle| <= |c|
  {
    hide Find, Occurs;
    var first := Find(c, needle, 0).value;
    FoundFits(c, needle);
    FindIsFirst(c, needle, 0);
    FindIsFirst(c + rest, needle, 0);
    OccursInPrefix(c, rest, needle, first);
    forall at: nat | at < first
      ensures !Occurs(c + rest, needle, at)
    {
      OccursInPrefix(c, rest, needle, at);
    }
  }

  lemma FoundFits(s: string, needle: string)
    requires Contains(s, needle)
    ensures Find(s, needle, 0).value + |needle| <= |s|
  {
    hide Find;
  }

  lemma CancelRight(a: string, b: string, rest: string)
    requires a + rest == b + rest
    ensures a == b
  {
    assert a == (a + rest)[..|a + rest| - |rest|];
    assert b == (b + rest)[..|b + rest| - |rest|];
  }

  lemma FindBetween(s: string, needle: string, from: nat, to: nat)
    requires from <= to && Find(s, needle, 0) == Find(s, needle, to)
    ensures Find(s, needle, from) == Find(s, needle, to)
  {
    hide Find, Occurs;
    FindIsFirst(s, needle, 0);
    FindIsFirst(s, needle, from);
  }

  lemma FindFromFound(s: string, needle: string)
    requires Contains(s, needle)
    ensures Find(s, needle, Find(s, needle, 0).value) == Find(s, needle, 0)
  {
    hide Find, Occurs;
    FindIsFirst(s, needle, 0);
    FindIsFirst(s, needle, Find(s, needle, 0).value);
  }

  /** A second upsert replaces the first one's block, as if only it had been made, exactly on normalized text. */
  lemma {:induction false} SecondUpsertReplaces(c: string, x: string, y: string)
    requires MarkerFree(c) && !Contains(c, UNMANAGED) && MarkerFree(x)
    ensures Upsert(c, Block(x)).Ok?
    ensures Upsert(Upsert(c, Block(x)).value, Block(y)) == Upsert(c, Block(y))
       <==> c == "" || (Rstrip(c) != "" && (c == Rstrip(c) || c == Rstrip(c) + "\n"))
  {
    hide Find, Occurs, BEGIN, END, UNMANAGED, Padded, Rstrip, Marked, Block;
    MarkersAreApart();
    MarkedStrips(x);
    MarkedStrips(y);
    var pad := PaddedIs(c);
    ContainsThroughPadding(c, BEGIN);
    ContainsThroughPadding(c, END);
    UpsertReplaces(Padded(c), x, "\n", Block(y));
    NewlineStrips();
    BlankIsStripped("");
    if Rstrip(c) != "" {
      PaddedLeavesBlankLine(c);
    }
    var again, once := Upsert(Upsert(c, Block(x)).value, Block(y)).value, Upsert(c, Block(y)).value;
    assert again == Glue(Rstrip(c), Marked(y)) + "\n" && once == Padded(c) + Marked(y) + "\n";
    if again == once {
      var gap := if Rstrip(c) == "" then "" else Rstrip(c) + "\n\n";
      assert gap + (Marked(y) + "\n") == Padded(c) + (Marked(y) + "\n");
      CancelRight(gap, Padded(c), Marked(y) + "\n");
    }
  }

  /** The block's end marker does not precede its begin marker. */
  predicate InOrder(c: string) {
    Managed(c) && Find(c, BEGIN, 0).value <= Find(c, END, 0).value
  }

  /** What follows the first end marker. */
  function After(c: string): string
    requires Managed(c)
  {
    c[Find(c, END, 0).value + |END|..]
  }

  lemma HeadIsMarkerFree(c: string)
    requires InOrder(c)
    ensures MarkerFree(c[..Find(c, BEGIN, 0).value])
  {
    hide Find, BEGIN, END;
    var head := c[..Find(c, BEGIN, 0).value];
    assert head + c[|head|..] == c;
    MarkersAreApart();
    if Contains(head, BEGIN) {
      FirstStaysFirst(head, c[|head|..], BEGIN);
    }
    if Contains(head, END) {
      FirstStaysFirst(head, c[|head|..], END);
    }
  }

  lemma RstripIsMarkerFree(s: string)
    requires MarkerFree(s)
    ensures MarkerFree(Rstrip(s))
  {
    hide MarkerFree;
    var trail := RstripCuts(s);
    assert Rstrip(s) == s[..|Rstrip(s)|];
    PartIsMarkerFree(s, 0, |Rstrip(s)|);
  }

  lemma {:induction false} UpsertOverOrdered(c: string, x: string, block: string)
    requires InOrder(c) && MarkerFree(x)
    ensures Upsert(c, Block(x)).Ok? && Upsert(c, block).Ok?
    ensures Upsert(Upsert(c, Block(x)).value, block)
         == Ok(if LstripNewlines(After(c)) == "" then Upsert(c, block).value else Upsert(c, block).value + "\n")
  {
    hide Find, BEGIN, END, Marked, Block, Rstrip, LstripNewlines, Upsert, MarkerFree, WholeLines;
    var before := c[..Find(c, BEGIN, 0).value];
    var prefix, suffix := Rstrip(before), LstripNewlines(After(c));
    UpsertManaged(c, Block(x));
    UpsertManaged(c, block);
    HeadIsMarkerFree(c);
    RstripIsMarkerFree(before);
    var trail := RstripCuts(before);
    MarkedStrips(x);
    var head := if prefix == "" then "" else prefix + "\n\n";
    var tail := if suffix == "" then "\n" else "\n\n" + suffix + "\n";
    BlankLineAfter(prefix);
    GlueAround(prefix, Marked(x), suffix);
    UpsertReplaces(head, x, tail, block);
    GluedTwice(Rstrip(head), Rstrip(block), LstripNewlines(tail));
    NewlinesStrip(After(c));
    if suffix != "" {
      GlueNewline(prefix, Rstrip(block), suffix);
    }
  }

  lemma UpsertManaged(c: string, block: string)
    requires Managed(c)
    ensures Find(c, BEGIN, 0).value <= |c|
    ensures Upsert(c, block)
         == Ok(Glue(Rstrip(c[..Find(c, BEGIN, 0).value]), Glue(Rstrip(block), LstripNewlines(After(c)))) + "\n")
  {
  }

  lemma EndBeforeBegin(c: string, end: nat, begin: nat)
    requires Occurs(c, END, end) && Occurs(c, BEGIN, begin) && end < begin
    ensures end + |END| <= begin
  {
    var written := c[end..end + |END|];
    assert forall k :: 0 <= k < |END| ==> c[end + k] == written[k] == END[k];
    assert forall k :: 0 < k < |END| ==> END[k] != '#';
    assert c[begin] == c[begin..begin + |BEGIN|][0] == '#';
  }

  lemma RstripStopsAt(s: string, at: nat)
    requires at < |s| && !IsSpace(s[at])
    ensures at < |Rstrip(s)| <= |s| && Rstrip(s) == s[..|Rstrip(s)|]
  {
    hide Rstrip;
    var trail := RstripCuts(s);
    assert |s| == |Rstrip(s)| + |trail|;
    assert forall i :: |Rstrip(s)| <= i < |s| ==> s[i] == trail[i - |Rstrip(s)|];
    assert Rstrip(s) == s[..|Rstrip(s)|];
  }

  lemma EndEndsInText(c: string, end: nat)
    requires Occurs(c, END, end)
    ensures |END| > 0 && !IsSpace(c[end + |END| - 1])
  {
    EndIsText();
    hide BEGIN, END;
    assert c[end + |END| - 1] == c[end..end + |END|][|END| - 1];
  }

  /** Trimming the text before the begin marker does not reach into an end marker that stands there. */
  lemma EndStaysInPrefix(c: string)
    requires Managed(c) && !InOrder(c)
    ensures var prefix, end := Rstrip(c[..Find(c, BEGIN, 0).value]), Find(c, END, 0).value;
            && prefix <= c && end + |END| <= |prefix| && prefix != "" && !Contains(prefix, BEGIN)
            && Find(prefix, END, 0) == Some(end)
  {
    hide Find, BEGIN, END, Rstrip;
    MarkersAreApart();
    var start, end := Find(c, BEGIN, 0).value, Find(c, END, 0).value;
    EndBeforeBegin(c, end, start);
    EndEndsInText(c, end);
    RstripStopsAt(c[..start], end + |END| - 1);
    var prefix := Rstrip(c[..start]);
    assert prefix == c[..start][..|prefix|] == c[..|prefix|];
    assert c == prefix + c[|prefix|..];
    OccursInPrefix(prefix, c[|prefix|..], END, end);
    FindIsFirst(prefix, END, 0);
    FirstStaysFirst(prefix, c[|prefix|..], END);
    if Contains(prefix, BEGIN) {
      FirstStaysFirst(prefix, c[|prefix|..], BEGIN);
    }
  }

  /** What follows the end marker holds the begin marker, so it is more than newlines. */
  lemma BeginStaysInSuffix(c: string)
    requires Managed(c) && !InOrder(c)
    ensures LstripNewlines(After(c)) != ""
  {
    hide Find, BEGIN, END, LstripNewlines;
    MarkersAreApart();
    BeginIsNoNewline();
    var start, end := Find(c, BEGIN, 0).value, Find(c, END, 0).value;
    EndBeforeBegin(c, end, start);
    var gap, rest := c[end + |END|..start], c[start..];
    assert rest[0] == c[start] == c[start..start + |BEGIN|][0] == BEGIN[0];
    assert After(c) == gap + rest;
    TextIsKept(gap, rest);
  }

  lemma BeginIsNoNewline()
    ensures BEGIN[0] != '\n'
  {
  }

  lemma {:induction false} TextIsKept(a: string, b: string)
    requires b != "" && b[0] != '\n'
    ensures |LstripNewlines(a + b)| >= |b|
  {
    if a == "" {
      assert a + b == b;
    } else if a[0] == '\n' {
      assert (a + b)[1..] == a[1..] + b;
      TextIsKept(a[1..], b);
    }
  }

  /** Where an end marker precedes the begin marker, the text from it on is kept twice, and the old block with it. */
  lemma UpsertOverMisordered(c: string, x: string, block: string)
    requires Managed(c) && !InOrder(c) && MarkerFree(x)
    ensures Upsert(c, Block(x)).Ok? && Upsert(c, block).Ok? && Upsert(Upsert(c, Block(x)).value, block).Ok?
    ensures var once, again := Upsert(c, block).value, Upsert(Upsert(c, Block(x)).value, block).value;
            |again| >= |once| + |Block(x)| + 2
  {
    hide Find, BEGIN, END, Marked, Block, Rstrip, LstripNewlines, Upsert, MarkerFree, WholeLines, Glue;
    var prefix, suffix := Rstrip(c[..Find(c, BEGIN, 0).value]), LstripNewlines(After(c));
    EndStaysInPrefix(c);
    BeginStaysInSuffix(c);
    UpsertManaged(c, Block(x));
    UpsertManaged(c, block);
    MarkedStrips(x);
    var head, tail := prefix + "\n\n", "\n\n" + suffix + "\n";
    GlueAround(prefix, Marked(x), suffix);
    var r := head + (Marked(x) + tail);
    assert Upsert(c, Block(x)) == Ok(r);
    MisorderedAgain(c, x, tail);
    UpsertManaged(r, block);
    GlueLengths(prefix, Rstrip(block), suffix, LstripNewlines(After(r)));
  }

  lemma GlueLengths(a: string, b: string, c: string, d: string)
    requires a != "" && c != "" && d != ""
    ensures |Glue(a, Glue(b, d))| - |d| == |Glue(a, Glue(b, c))| - |c|
  {
  }

  /** The text after the upsert still has the old end marker first, and the new block behind it. */
  lemma MisorderedAgain(c: string, x: string, tail: string)
    requires Managed(c) && !InOrder(c) && MarkerFree(x)
    ensures var prefix := Rstrip(c[..Find(c, BEGIN, 0).value]);
            var r := prefix + "\n\n" + (Marked(x) + tail);
            && Managed(r) && Find(r, BEGIN, 0) == Some(|prefix| + 2) && Rstrip(r[..|prefix| + 2]) == prefix
            && |LstripNewlines(After(r))| >= |Marked(x)| + |tail|
  {
    hide Find, BEGIN, END, Marked, Rstrip, LstripNewlines, MarkerFree, WholeLines;
    var end := Find(c, END, 0).value;
    var prefix := Rstrip(c[..Find(c, BEGIN, 0).value]);
    EndStaysInPrefix(c);
    var trail := RstripCuts(c[..Find(c, BEGIN, 0).value]);
    var head := prefix + "\n\n";
    HeadOfMisordered(prefix);
    BlockIsFound(head, x, tail);
    Slices(head, Marked(x), tail);
    var r := head + (Marked(x) + tail);
    assert r == prefix + ("\n\n" + (Marked(x) + tail));
    FirstStaysFirst(prefix, "\n\n" + (Marked(x) + tail), END);
    MarkedStarts(x, tail);
    var between := prefix[end + |END|..] + "\n\n";
    assert After(r) == between + (Marked(x) + tail);
    TextIsKept(between, Marked(x) + tail);
  }

  lemma MarkedStarts(x: string, tail: string)
    ensures Marked(x) + tail != "" && (Marked(x) + tail)[0] != '\n'
  {
    BeginIsNoNewline();
    MarkersAreApart();
    hide BEGIN, END;
    assert (Marked(x) + tail)[0] == BEGIN[0];
  }

  lemma HeadOfMisordered(prefix: string)
    requires prefix != "" && !IsSpace(prefix[|prefix| - 1]) && !Contains(prefix, BEGIN)
    ensures var head := prefix + "\n\n";
            WholeLines(head) && !Contains(head, BEGIN) && Rstrip(head) == prefix
  {
    hide Find, BEGIN;
    MarkersAreApart();
    NothingIsIn(BEGIN);
    RstripIs(prefix, "\n\n");
    ContainsOnOneSide("", '\n', "", BEGIN);
    assert "" + ['\n'] + "" == "\n";
    ContainsOnOneSide(prefix, '\n', "\n", BEGIN);
    assert prefix + ['\n'] + "\n" == prefix + "\n\n";
  }

  /**
   * Upserting over a managed config again. Where the block's markers are in order it is as if the first upsert had
   * not been made, but for the end of the file, where text after the block gains a newline; otherwise the first
   * block stays.
   */
  lemma UpsertOverBlock(c: string, x: string, block: string)
    requires Managed(c) && MarkerFree(x)
    ensures Upsert(c, Block(x)).Ok? && Upsert(c, block).Ok? && Upsert(Upsert(c, Block(x)).value, block).Ok?
    ensures var once, again := Upsert(c, block).value, Upsert(Upsert(c, Block(x)).value, block).value;
            if InOrder(c) then again == if LstripNewlines(After(c)) == "" then once else once + "\n"
            else |again| >= |once| + |Block(x)| + 2
  {
    hide Find, Upsert, BEGIN, END, Block, LstripNewlines, MarkerFree, Managed;
    if InOrder(c) {
      UpsertOverOrdered(c, x, block);
    } else {
      UpsertOverMisordered(c, x, block);
    }
  }

  lemma GlueNewline(a: string, b: string, c: string)
    requires c != ""
    ensures Glue(a, Glue(b, c + "\n")) == Glue(a, Glue(b, c)) + "\n"
  {
  }

  lemma BlankLineAfter(prefix: string)
    requires MarkerFree(prefix) && (prefix != "" ==> !IsSpace(prefix[|prefix| - 1]))
    ensures var head := if prefix == "" then "" else prefix + "\n\n";
            WholeLines(head) && MarkerFree(head) && Rstrip(head) == prefix
  {
    hide MarkerFree, Find;
    if prefix != "" {
      RstripIs(prefix, "\n\n");
      HashFreeIsMarkerFree("\n");
      MarkerFreeLines(prefix, "\n");
      assert prefix + "\n" + "\n" == prefix + "\n\n";
    }
  }

  lemma GlueAround(prefix: string, block: string, suffix: string)
    requires block != ""
    ensures var head := if prefix == "" then "" else prefix + "\n\n";
            var tail := if suffix == "" then "\n" else "\n\n" + suffix + "\n";
            Glue(prefix, Glue(block, suffix)) + "\n" == head + (block + tail)
  {
  }

  lemma NewlinesStrip(after: string)
    ensures var suffix := LstripNewlines(after);
            var tail := if suffix == "" then "\n" else "\n\n" + suffix + "\n";
            LstripNewlines(tail) == if suffix == "" then "" else suffix + "\n"
  {
    NewlineStrips();
    StrippedStarts(after);
    var suffix := LstripNewlines(after);
    if suffix != "" {
      var tail := "\n\n" + suffix + "\n";
      assert tail[1..][1..] == suffix + "\n";
      assert LstripNewlines(tail) == LstripNewlines(tail[1..]) == LstripNewlines(suffix + "\n");
    }
  }

  lemma {:induction false} StrippedStarts(s: string)
    ensures LstripNewlines(s) != "" ==> LstripNewlines(s)[0] != '\n'
    ensures |LstripNewlines(s)| <= |s| && LstripNewlines(s) == s[|s| - |LstripNewlines(s)|..]
  {
    if s != "" && s[0] == '\n' {
      StrippedStarts(s[1..]);
    }
  }

  // ---------------------------------------------------------------- install, then uninstall

  /** What installation saves: a text that starts with a begin marker and ends with the first end marker after it. */
  predicate IsExtracted(block: string) {
    && Find(block, BEGIN, 0) == Some(0)
    && |block| > |END| && Find(block, END, 0) == Some(|block| - 1 - |END|)
    && block[|block| - 1] == '\n'
  }

  lemma ExtractIsExtracted(c: string)
    requires Managed(c) && BlockEnd(c).Some?
    ensures Extract(c).Ok? && Extract(c).value.Some? && IsExtracted(Extract(c).value.value)
  {
    hide Find, BEGIN, END;
    MarkersAreApart();
    var start, end := Find(c, BEGIN, 0).value, BlockEnd(c).value;
    var rest := c[start..];
    assert c == c[..start] + rest;
    MarkersDoNotOverlap(c, start, end - |END|);
    FindFromFound(c, BEGIN);
    FindShifts(c[..start], rest, BEGIN);
    FindShifts(c[..start], rest, END);
    FindInPrefix(rest, end - start, BEGIN, 0);
    FindInPrefix(rest, end - start, END, end - start - |END|);
    assert rest[..end - start] == c[start..end];
  }

  lemma {:induction false} FindInPrefix(s: string, n: nat, needle: string, at: nat)
    requires Find(s, needle, 0) == Some(at) && at + |needle| <= n <= |s|
    ensures Find(s[..n] + "\n", needle, 0) == Some(at)
  {
    hide Find;
    var part := s[..n];
    FindIsFirst(part, needle, 0);
    assert part[at..at + |needle|] == s[at..at + |needle|];
    assert Occurs(part, needle, at);
    assert part + s[n..] == s;
    FirstStaysFirst(part, s[n..], needle);
    FirstStaysFirst(part, "\n", needle);
  }

  lemma MarkersDoNotOverlap(c: string, begin: nat, end: nat)
    requires Occurs(c, BEGIN, begin) && Occurs(c, END, end) && begin <= end
    ensures begin + |BEGIN| <= end
  {
    var written := c[begin..begin + |BEGIN|];
    assert forall k :: 0 <= k < |BEGIN| ==> c[begin + k] == written[k] == BEGIN[k];
    assert BEGIN[2] == 'B' && forall k :: 0 < k < |BEGIN| ==> BEGIN[k] != '#';
    assert c[begin + 2] == 'B';
    assert c[end] == c[end..end + |END|][0] == '#' && c[end + 2] == c[end..end + |END|][2] == 'E';
  }

  lemma RstripHolds(s: string, needle: string)
    requires !Contains(s, needle)
    ensures !Contains(Rstrip(s), needle)
  {
    hide Find, Rstrip;
    var trail := RstripCuts(s);
    assert Rstrip(s) == s[..|Rstrip(s)|];
    if Contains(Rstrip(s), needle) {
      ContainsInPart(s, 0, |Rstrip(s)|, needle);
    }
  }

  /** The text that restoration puts before the block. */
  function Before(content: string): (r: string)
    ensures r == "" || r[|r| - 1] == '\n'
  {
    if Rstrip(content) == "" then "" else Rstrip(content) + "\n\n"
  }

  lemma BeforeHoldsNoBegin(content: string)
    requires !Contains(content, BEGIN)
    ensures !Contains(Before(content), BEGIN)
  {
    hide Find, Rstrip, BEGIN;
    MarkersAreApart();
    RstripHolds(content, BEGIN);
    NothingIsIn(BEGIN);
    ContainsOnOneSide("", '\n', "", BEGIN);
    ContainsOnOneSide(Rstrip(content), '\n', "\n", BEGIN);
    assert "" + ['\n'] + "" == "\n";
    assert Rstrip(content) + ['\n'] + "\n" == Rstrip(content) + "\n\n";
  }

  /** A restored block is the config's managed block, so installing again saves the same text. */
  lemma AppendedBlockIsExtracted(content: string, block: string)
    requires !Contains(content, BEGIN) && IsExtracted(block)
    ensures Append(content, block) == Before(content) + block
    ensures var restored := Append(content, block);
            && Find(restored, BEGIN, 0) == Some(|Before(content)|)
            && Managed(restored) && BlockEnd(restored) == Some(|restored| - 1)
            && Extract(restored) == Ok(Some(block))
  {
    hide Find, Occurs, BEGIN, END, Rstrip;
    MarkersAreApart();
    BeforeHoldsNoBegin(content);
    var head, restored := Before(content), Append(content, block);
    assert restored == head + block;
    FindSkipsLines(head, block, BEGIN);
    FindShifts(head, block, BEGIN);
    FindShifts(head, block, END);
    FoundIsContained(restored, END, |head|);
    assert restored[|head|..|restored| - 1] + "\n" == block;
  }

  /** The config ends in the block, alone or after exactly one blank line. */
  predicate EndsInBlock(c: string)
    requires Managed(c) && BlockEnd(c).Some?
  {
    var head := c[..Find(c, BEGIN, 0).value];
    c[BlockEnd(c).value..] == "\n" && (head == "" || (Rstrip(head) != "" && head == Rstrip(head) + "\n\n"))
  }

  /** Taking the one block out on install and putting it back on uninstall keeps the block,
    * and gives back the exact file exactly when it ended in the block. */
  lemma {:induction false} UninstallRestores(c: string)
    requires Managed(c) && BlockEnd(c).Some? && !Contains(c[BlockEnd(c).value..], BEGIN)
    ensures var restored := Append(Remove(c).value, Extract(c).value.value);
            Extract(restored) == Extract(c) && (restored == c <==> EndsInBlock(c))
  {
    hide Find, BEGIN, END, Rstrip, Before, Remove, Append;
    RemovedHoldsNoBegin(c);
    var start, end := Find(c, BEGIN, 0).value, BlockEnd(c).value;
    var left, block := Remove(c).value, Extract(c).value.value;
    ExtractIsExtracted(c);
    AppendedBlockIsExtracted(left, block);
    var head, tail, mark := c[..start], c[end..], c[start..end];
    assert c == head + (mark + tail);
    if tail == "\n" {
      RemovedEnd(c);
    }
    if Before(left) + block == c {
      SamePlace(Before(left), head, mark, tail);
    }
  }

  lemma SamePlace(a: string, b: string, middle: string, tail: string)
    requires |a| == |b| && a + (middle + "\n") == b + (middle + tail)
    ensures a == b && tail == "\n"
  {
    Slices(a, middle, "\n");
    Slices(b, middle, tail);
  }

  lemma {:induction false} RemovedEnd(c: string)
    requires Managed(c) && BlockEnd(c).Some? && c[BlockEnd(c).value..] == "\n"
    ensures var head := c[..Find(c, BEGIN, 0).value];
            && Before(Remove(c).value) == Before(head)
            && (Before(head) == head <==> EndsInBlock(c))
  {
    hide Find, BEGIN, END, Rstrip;
    var head := c[..Find(c, BEGIN, 0).value];
    NewlineStrips();
    BlankIsStripped("");
    var trail := RstripCuts(head);
    RstripIs(Rstrip(head), "\n");
  }

  lemma {:induction false} RemovedHoldsNoBegin(c: string)
    requires Managed(c) && BlockEnd(c).Some? && !Contains(c[BlockEnd(c).value..], BEGIN)
    ensures Remove(c).Ok? && !Contains(Remove(c).value, BEGIN)
  {
    hide Find, BEGIN, Rstrip, LstripNewlines;
    MarkersAreApart();
    NothingIsIn(BEGIN);
    var head, tail := c[..Find(c, BEGIN, 0).value], c[BlockEnd(c).value..];
    assert head + c[|head|..] == c;
    if Contains(head, BEGIN) {
      FirstStaysFirst(head, c[|head|..], BEGIN);
    }
    RstripHolds(head, BEGIN);
    StrippedStarts(tail);
    var prefix, suffix := Rstrip(head), LstripNewlines(tail);
    if Contains(suffix, BEGIN) {
      assert tail[|tail| - |suffix|..|tail|] == suffix;
      ContainsInPart(tail, |tail| - |suffix|, |tail|, BEGIN);
    }
    LinesHoldNoBegin(prefix, suffix);
  }

  lemma LinesHoldNoBegin(a: string, b: string)
    requires !Contains(a, BEGIN) && !Contains(b, BEGIN)
    ensures !Contains(Glue(a, b) + "\n", BEGIN)
  {
    hide Find, BEGIN;
    MarkersAreApart();
    NothingIsIn(BEGIN);
    ContainsOnOneSide("", '\n', b, BEGIN);
    ContainsOnOneSide(a, '\n', "\n" + b, BEGIN);
    assert "" + ['\n'] + b == "\n" + b;
    assert a + ['\n'] + ("\n" + b) == a + "\n\n" + b;
    ContainsOnOneSide(Glue(a, b), '\n', "", BEGIN);
    assert Glue(a, b) + ['\n'] + "" == Glue(a, b) + "\n";
  }
}
