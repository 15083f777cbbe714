/**
 * Whole scripts as lists of lexical elements, given by literal characters: what the Postgres splitter returns for any
 * such list, and that every script is one.
 */
module SplitterScripts {
  import opened PyText
  import opened PostgresSplitter
  import opened SplitterLaws
  import opened SplitterTokens

  datatype Element =
    | Plain(c: char)
    | Line(text: string)
    | Block(inside: Comment)
    | DollarQuoted(name: string, body: string)
    | QuotedText(quote: char, items: seq<Item>)
    | Semicolon

  /** The inside of a block comment that the script ends in: closed comments and openers without a closer. */
  datatype Inside = Stop | Letter(c: char, next: Inside) | Closed(inner: Comment, next: Inside) | Opener(next: Inside)

  /** How a script ends: in plain SQL, or inside a construct that is never closed. */
  datatype Ending =
    | InPlain
    | InLine(text: string)
    | InBlock(inside: Inside)
    | InDollar(name: string, body: string)
    | InQuotes(quote: char, items: seq<Item>, backslash: bool)

  function PrintElement(e: Element): string {
    match e
    case Plain(c) => [c]
    case Line(text) => "--" + text + "\n"
    case Block(inside) => "/*" + Print(inside) + "*/"
    case DollarQuoted(name, body) => "$" + name + "$" + body + "$" + name + "$"
    case QuotedText(quote, items) => [quote] + PrintItems(quote, items) + [quote]
    case Semicolon => ";"
  }

  function PrintInside(o: Inside): string {
    match o
    case Stop => ""
    case Letter(c, next) => [c] + PrintInside(next)
    case Closed(inner, next) => "/*" + Print(inner) + "*/" + PrintInside(next)
    case Opener(next) => "/*" + PrintInside(next)
  }

  function PrintEnding(end: Ending): string {
    match end
    case InPlain => ""
    case InLine(text) => "--" + text
    case InBlock(inside) => "/*" + PrintInside(inside)
    case InDollar(name, body) => "$" + name + "$" + body
    case InQuotes(quote, items, backslash) => [quote] + PrintItems(quote, items) + if backslash then "\\" else ""
  }

  function PrintScript(elements: seq<Element>, end: Ending): string {
    if elements == [] then PrintEnding(end) else PrintElement(elements[0]) + PrintScript(elements[1..], end)
  }

  // ---------------------------------------------------------------- what is an element, in front of `rest`

  /** A character that begins no element but itself. */
  ghost predicate StandsAlone(c: char, rest: string) {
    && c != ';' && c != '\'' && c != '\"'
    && !("--" <= [c] + rest) && !("/*" <= [c] + rest)
    && !exists name :: IsTagName(name) && "$" + name + "$" <= [c] + rest
  }

  ghost predicate Lexical(e: Element, rest: string) {
    match e
    case Plain(c) => StandsAlone(c, rest)
    case Line(text) => '\n' !in text
    case Block(inside) => Printable(inside)
    case DollarQuoted(name, body) => IsTagName(name) && Closes("$" + name + "$", body)
    case QuotedText(quote, items) =>
      (quote == '\'' || quote == '\"') && PrintableItems(quote, items) && (rest == "" || rest[0] != quote)
    case Semicolon => true
  }

  predicate PrintableInside(o: Inside) {
    match o
    case Stop => true
    case Letter(c, next) => !("/*" <= [c] + PrintInside(next)) && !("*/" <= [c] + PrintInside(next))
                            && PrintableInside(next)
    case Closed(inner, next) => Printable(inner) && PrintableInside(next)
    case Opener(next) => PrintableInside(next)
  }

  ghost predicate LexicalEnd(end: Ending) {
    match end
    case InPlain => true
    case InLine(text) => '\n' !in text
    case InBlock(inside) => PrintableInside(inside)
    case InDollar(name, body) => IsTagName(name) && forall i :: 0 <= i <= |body| ==> !("$" + name + "$" <= body[i..])
    case InQuotes(quote, items, _) => (quote == '\'' || quote == '\"') && PrintableItems(quote, items)
  }

  ghost predicate LexicalScript(elements: seq<Element>, end: Ending) {
    if elements == [] then LexicalEnd(end)
    else Lexical(elements[0], PrintScript(elements[1..], end)) && LexicalScript(elements[1..], end)
  }

  /** The script cut at its semicolons, the first piece continuing `current`. */
  function Pieces(current: string, elements: seq<Element>, end: Ending): seq<string>
    decreases |elements|
  {
    if elements == [] then [current + PrintEnding(end)]
    else if elements[0].Semicolon? then [current] + Pieces("", elements[1..], end)
    else Pieces(current + PrintElement(elements[0]), elements[1..], end)
  }

  // ---------------------------------------------------------------- elements are read as such

  lemma NoTag(r: string)
    requires !exists name :: IsTagName(name) && "$" + name + "$" <= r
    ensures TagLength(r) == 0
  {
    hide TagLength, IsTagName;
    TagIsRecognised(r);
  }

  lemma PlainMove(c: char, rest: string)
    requires StandsAlone(c, rest)
    ensures Step(Normal, [c] + rest) == Move(1, Normal, false)
  {
    var r := [c] + rest;
    NoTag(r);
    assert r[0] == c && !("--" <= r) && !("/*" <= r) && c != ';' && c != '\'' && c != '\"';
    hide TagLength, IsTagName, StandsAlone;
  }

  lemma PlainIsRead(c: char, rest: string)
    requires StandsAlone(c, rest)
    ensures LeadsTo(Normal, [c], Normal, rest)
  {
    hide Final, Uncut, Segments, LeadsTo, Step, StandsAlone;
    PlainMove(c, rest);
    LeadsNowhere(Normal, rest);
    assert [c][1..] == "" && ([c] + rest)[0] == c;
    LeadsOn(Normal, [c], Normal, rest, Move(1, Normal, false));
  }

  lemma ElementIsRead(e: Element, rest: string)
    requires Lexical(e, rest) && !e.Semicolon?
    ensures LeadsTo(Normal, PrintElement(e), Normal, rest)
  {
    hide LeadsTo, IsTagName, Closes, PrintableItems, Printable, StandsAlone;
    match e
    case Plain(c) => PlainIsRead(c, rest);
    case Line(text) => LineCommentHidesSemicolons(text, rest);
    case Block(inside) => BlockCommentHidesSemicolons(inside, rest);
    case DollarQuoted(name, body) => DollarQuoteHidesSemicolons(name, body, rest);
    case QuotedText(quote, items) => QuotedTextHidesSemicolons(quote, items, rest);
  }

  lemma {:induction false} InsideIsRead(o: Inside, depth: nat) returns (m: Mode)
    requires PrintableInside(o) && depth > 0
    ensures Reachable(m) && LeadsTo(BlockComment(depth), PrintInside(o), m, "")
    decreases o
  {
    hide LeadsTo, Print, Printable;
    m := BlockComment(depth);
    match o
    case Stop => LeadsNowhere(m, "");
    case Letter(c, next) =>
      Padded(PrintInside(next));
      CharacterIsRead(c, depth, PrintInside(next));
      var m' := InsideIsRead(next, depth);
      LeadsThrough(m, [c], m, PrintInside(next), m', "");
      m := m';
    case Closed(inner, next) =>
      Padded(PrintInside(next));
      WholeCommentIsRead(inner, depth, PrintInside(next));
      var m' := InsideIsRead(next, depth);
      LeadsThrough(m, "/*" + Print(inner) + "*/", m, PrintInside(next), m', "");
      m := m';
    case Opener(next) =>
      Padded(PrintInside(next));
      OpensAndCloses(depth, PrintInside(next), "");
      var m' := InsideIsRead(next, depth + 1);
      LeadsThrough(m, "/*", BlockComment(depth + 1), PrintInside(next), m', "");
      m := m';
  }

  lemma Padded(s: string)
    ensures s + "" == s
  {
  }

  lemma WholeCommentIsRead(inner: Comment, depth: nat, rest: string)
    requires Printable(inner) && depth > 0
    ensures LeadsTo(BlockComment(depth), "/*" + Print(inner) + "*/", BlockComment(depth), rest)
  {
    hide LeadsTo, Print, Printable;
    var m, deeper := BlockComment(depth), BlockComment(depth + 1);
    OpensAndCloses(depth, Print(inner) + ("*/" + rest), rest);
    assert "*/" <= "*/" + rest;
    CommentIsRead(inner, depth + 1, "*/" + rest);
    LeadsThrough(m, "/*", deeper, Print(inner), deeper, "*/" + rest);
    LeadsThrough(m, "/*" + Print(inner), deeper, "*/", m, rest);
  }

  lemma {:induction false} OpenBodyIsRead(tag: string, body: string)
    requires Reachable(Dollar(tag)) && forall i :: 0 <= i <= |body| ==> !(tag <= body[i..])
    ensures LeadsTo(Dollar(tag), body, Dollar(tag), "")
  {
    hide LeadsTo, Reachable;
    var m := Dollar(tag);
    if body == [] {
      LeadsNowhere(m, "");
    } else {
      assert body[0..] == body && [body[0]] + body[1..] == body;
      Padded(body[1..]);
      DollarCharacterIsRead(tag, body[0], body[1..]);
      assert forall i :: 0 <= i <= |body[1..]| ==> body[1..][i..] == body[i + 1..];
      OpenBodyIsRead(tag, body[1..]);
      LeadsThrough(m, [body[0]], m, body[1..], m, "");
    }
  }

  lemma LoneBackslashIsRead(q: char)
    requires q == '\'' || q == '\"'
    ensures LeadsTo(Quoted(q), "\\", Quoted(q), "")
  {
    hide Final, Uncut, Segments, LeadsTo;
    LeadsNowhere(Quoted(q), "");
    Padded("\\");
    assert "\\"[1..] == "";
    LeadsOn(Quoted(q), "\\", Quoted(q), "", Move(1, Quoted(q), false));
  }

  lemma EndingIsRead(end: Ending) returns (m: Mode)
    requires LexicalEnd(end)
    ensures Reachable(m) && LeadsTo(Normal, PrintEnding(end), m, "")
  {
    hide LeadsTo, IsTagName, PrintableItems, PrintableInside, PrintItems, PrintInside;
    match end
    case InPlain =>
      m := Normal;
      LeadsNowhere(Normal, "");
    case InLine(text) =>
      m := LineComment;
      Padded(text);
      DashesOpen(text);
      LineIsRead(text, "");
      LeadsThrough(Normal, "--", LineComment, text, LineComment, "");
    case InBlock(inside) =>
      Padded(PrintInside(inside));
      CommentOpens(PrintInside(inside));
      m := InsideIsRead(inside, 1);
      LeadsThrough(Normal, "/*", BlockComment(1), PrintInside(inside), m, "");
    case InDollar(name, body) =>
      m := Dollar(Tag(name));
      Padded(body);
      TagOpens(name, body);
      OpenBodyIsRead(Tag(name), body);
      LeadsThrough(Normal, Tag(name), m, body, m, "");
    case InQuotes(quote, items, backslash) =>
      m := Quoted(quote);
      OpenQuotesAreRead(quote, items, if backslash then "\\" else "");
  }

  lemma OpenQuotesAreRead(quote: char, items: seq<Item>, last: string)
    requires (quote == '\'' || quote == '\"') && PrintableItems(quote, items) && (last == "" || last == "\\")
    ensures LeadsTo(Normal, [quote] + PrintItems(quote, items) + last, Quoted(quote), "")
  {
    hide LeadsTo, PrintableItems, PrintItems;
    var m := Quoted(quote);
    Padded(last);
    QuoteOpens(quote, PrintItems(quote, items) + last);
    ItemsAreRead(quote, items, last);
    LeadsThrough(Normal, [quote], m, PrintItems(quote, items), m, last);
    if last == "" {
      LeadsNowhere(m, "");
    } else {
      LoneBackslashIsRead(quote);
    }
    LeadsThrough(Normal, [quote] + PrintItems(quote, items), m, last, m, "");
  }

  /** Elements before the rest of the script collect in the current piece; a semicolon ends it. */
  lemma {:induction false} SegmentsArePieces(current: string, elements: seq<Element>, end: Ending)
    requires LexicalScript(elements, end)
    ensures Segments(Normal, current, PrintScript(elements, end)) == Pieces(current, elements, end)
    decreases |elements|
  {
    hide Step, Lexical, LexicalEnd, PrintElement, PrintEnding, Final, Uncut, Segments;
    if elements == [] {
      var m := EndingIsRead(end);
      Padded(PrintEnding(end));
      NothingLeft(m, current + PrintEnding(end));
    } else {
      var e, rest := elements[0], PrintScript(elements[1..], end);
      if e.Semicolon? {
        SemicolonEnds(current, rest);
        SegmentsArePieces("", elements[1..], end);
      } else {
        ElementIsRead(e, rest);
        SegmentsArePieces(current + PrintElement(e), elements[1..], end);
      }
    }
  }

  lemma NothingLeft(m: Mode, current: string)
    requires Reachable(m)
    ensures Segments(m, current, "") == [current]
  {
  }

  lemma SemicolonEnds(current: string, rest: string)
    ensures PrintElement(Semicolon) == ";"
    ensures Segments(Normal, current, ";" + rest) == [current] + Segments(Normal, [], rest)
  {
    hide Step;
    SemicolonCuts(rest);
    SegmentsUnfold(Normal, current, ";" + rest);
    assert (";" + rest)[1..] == rest;
  }

  // ---------------------------------------------------------------- every script is a list of elements

  /** The inside of a block comment is closed somewhere, or the script ends in it. */
  lemma {:induction false} ReadInside(r: string) returns (closed: Option<Comment>, open: Inside, rest: string)
    ensures match closed
            case Some(b) => Printable(b) && r == Print(b) + ("*/" + rest)
            case None => PrintableInside(open) && r == PrintInside(open)
    ensures closed.Some? ==> |rest| < |r|
    decreases |r|
  {
    closed, open, rest := None, Stop, "";
    if r == "" {
    } else if "*/" <= r {
      closed, rest := Some(End), r[2..];
      assert r == "" + ("*/" + rest);
    } else if "/*" <= r {
      var inner, deeper, after := ReadInside(r[2..]);
      assert r == "/*" + r[2..];
      if inner.None? {
        open := Opener(deeper);
      } else {
        var next, unclosed, behind := ReadInside(after);
        hide Print, PrintInside, Printable, PrintableInside;
        closed, open, rest := ReadNested(r, inner.value, next, unclosed, after, behind);
      }
    } else {
      var next, unclosed, behind := ReadInside(r[1..]);
      hide Print, PrintInside, Printable, PrintableInside;
      closed, open, rest := ReadText(r, next, unclosed, behind);
    }
  }

  lemma ReadNested(r: string, inner: Comment, next: Option<Comment>, unclosed: Inside, after: string, behind: string)
    returns (closed: Option<Comment>, open: Inside, rest: string)
    requires Printable(inner) && "/*" <= r && r[2..] == Print(inner) + ("*/" + after)
    requires match next
             case Some(b) => Printable(b) && after == Print(b) + ("*/" + behind)
             case None => PrintableInside(unclosed) && after == PrintInside(unclosed)
    ensures match closed
            case Some(b) => Printable(b) && r == Print(b) + ("*/" + rest)
            case None => PrintableInside(open) && r == PrintInside(open)
    ensures rest == behind && (closed.Some? <==> next.Some?)
  {
    closed, open, rest := None, Stop, behind;
    assert r == "/*" + r[2..];
    if next.None? {
      open := Closed(inner, unclosed);
      assert r == "/*" + Print(inner) + "*/" + PrintInside(unclosed);
    } else {
      closed := Some(Nested(inner, next.value));
      assert r == "/*" + Print(inner) + "*/" + Print(next.value) + ("*/" + rest);
    }
  }

  lemma ReadText(r: string, next: Option<Comment>, unclosed: Inside, behind: string)
    returns (closed: Option<Comment>, open: Inside, rest: string)
    requires r != "" && !("/*" <= r) && !("*/" <= r)
    requires match next
             case Some(b) => Printable(b) && r[1..] == Print(b) + ("*/" + behind)
             case None => PrintableInside(unclosed) && r[1..] == PrintInside(unclosed)
    ensures match closed
            case Some(b) => Printable(b) && r == Print(b) + ("*/" + rest)
            case None => PrintableInside(open) && r == PrintInside(open)
    ensures rest == behind && (closed.Some? <==> next.Some?)
  {
    closed, open, rest := None, Stop, behind;
    assert r == [r[0]] + r[1..];
    if next.None? {
      open := Letter(r[0], unclosed);
    } else {
      closed := Some(Text(r[0], next.value));
      TextPrintable(r, next.value, rest);
      assert r == [r[0]] + Print(next.value) + ("*/" + rest);
    }
  }

  lemma TextPrintable(r: string, next: Comment, rest: string)
    requires r != "" && !("/*" <= r) && !("*/" <= r) && r[1..] == Print(next) + ("*/" + rest) && Printable(next)
    ensures Printable(Text(r[0], next))
  {
    var tail := r[1..];
    assert tail[0] == (Print(next) + "*/")[0];
    assert r == [r[0]] + tail;
    TwoCharacters(r[0], tail);
  }

  lemma ReadItem(q: char, r: string) returns (first: Item)
    requires r != "" && r != "\\" && (r[0] != q || (|r| > 1 && r[1] == q))
    ensures var w := PrintItem(q, first); 0 < |w| <= |r| && r == w + r[|w|..]
    ensures first.Char? ==> first.c != q && first.c != '\\'
  {
    assert r[0] == '\\' && |r| == 1 ==> r == "\\";
    first := if r[0] == '\\' then Escaped(r[1]) else if r[0] == q then DoubledQuote else Char(r[0]);
  }

  /** What stands between quotes up to `rest`, which starts with the closing quote, or ends the script. */
  lemma {:induction false} ReadQuoted(q: char, r: string) returns (items: seq<Item>, rest: string)
    requires q == '\'' || q == '\"'
    ensures PrintableItems(q, items) && r == PrintItems(q, items) + rest
    ensures rest == "" || rest == "\\" || (rest[0] == q && (|rest| == 1 || rest[1] != q))
    decreases |r|
  {
    items, rest := [], r;
    if r != "" && r != "\\" && (r[0] != q || (|r| > 1 && r[1] == q)) {
      var first := ReadItem(q, r);
      var w := PrintItem(q, first);
      hide PrintItem, PrintItems, PrintableItems;
      var others;
      others, rest := ReadQuoted(q, r[|w|..]);
      items := [first] + others;
      FirstItem(q, first, others);
      assert w + (PrintItems(q, others) + rest) == (w + PrintItems(q, others)) + rest;
    }
  }

  lemma FirstItem(q: char, first: Item, others: seq<Item>)
    requires PrintableItems(q, others) && (first.Char? ==> first.c != q && first.c != '\\')
    ensures PrintableItems(q, [first] + others)
    ensures PrintItems(q, [first] + others) == PrintItem(q, first) + PrintItems(q, others)
  {
    assert ([first] + others)[1..] == others;
  }

  /** The tag closes a dollar quote where it is found first, or nowhere. */
  lemma ReadBody(tag: string, r: string) returns (at: Option<nat>)
    requires tag != ""
    ensures at.Some? ==> at.value + |tag| <= |r| && r == r[..at.value] + (tag + r[at.value + |tag|..])
    ensures at.Some? ==> Closes(tag, r[..at.value])
    ensures at.None? ==> forall i :: 0 <= i <= |r| ==> !(tag <= r[i..])
  {
    hide Find;
    at := Find(r, tag, 0);
    FindIsFirst(r, tag, 0);
    forall i: nat | i <= |r| ensures tag <= r[i..] ==> Occurs(r, tag, i) {
      if tag <= r[i..] {
        assert r[i..i + |tag|] == r[i..][..|tag|];
      }
    }
    if at.Some? {
      var body := r[..at.value];
      forall i: nat | i < |body| ensures !(tag <= (body + tag)[i..]) {
        assert (body + tag)[i..] + r[at.value + |tag|..] == r[i..];
        PrefixOfPrefix(tag, (body + tag)[i..], r[at.value + |tag|..]);
      }
    }
  }

  lemma {:induction false} ReadLine(r: string) returns (at: Option<nat>)
    ensures at.Some? ==> at.value < |r| && r == r[..at.value] + ("\n" + r[at.value + 1..]) && '\n' !in r[..at.value]
    ensures at.None? ==> '\n' !in r
  {
    hide Find;
    at := Find(r, "\n", 0);
    FindIsFirst(r, "\n", 0);
    forall i: nat | i < |r| ensures r[i] == '\n' ==> Occurs(r, "\n", i) {
      assert r[i..i + 1] == [r[i]];
    }
  }

  lemma Prepend(e: Element, elements: seq<Element>, end: Ending)
    requires LexicalScript(elements, end) && Lexical(e, PrintScript(elements, end))
    ensures LexicalScript([e] + elements, end)
    ensures PrintScript([e] + elements, end) == PrintElement(e) + PrintScript(elements, end)
  {
    hide Lexical, LexicalEnd, PrintElement, PrintEnding;
    assert ([e] + elements)[1..] == elements;
  }

  lemma ReadQuote(script: string) returns (e: Option<Element>, end: Ending, rest: string)
    requires script != "" && (script[0] == '\'' || script[0] == '\"')
    ensures e.Some? ==> script == PrintElement(e.value) + rest && |rest| < |script| && Lexical(e.value, rest)
    ensures e.None? ==> script == PrintEnding(end) && LexicalEnd(end)
  {
    hide PrintItems, PrintableItems;
    var q := script[0];
    var items, after := ReadQuoted(q, script[1..]);
    assert script == [q] + PrintItems(q, items) + after;
    e, end, rest := None, InQuotes(q, items, after == "\\"), "";
    if after != "" && after != "\\" {
      e, rest := Some(QuotedText(q, items)), after[1..];
      assert after == [q] + rest && (rest != "" ==> rest[0] == after[1]);
      assert script == [q] + PrintItems(q, items) + [q] + rest;
    }
  }

  lemma ReadLineComment(script: string) returns (e: Option<Element>, end: Ending, rest: string)
    requires "--" <= script
    ensures e.Some? ==> script == PrintElement(e.value) + rest && |rest| < |script| && Lexical(e.value, rest)
    ensures e.None? ==> script == PrintEnding(end) && LexicalEnd(end)
  {
    var tail := script[2..];
    var at := ReadLine(tail);
    assert script == "--" + tail;
    e, end, rest := None, InLine(tail), "";
    if at.Some? {
      e, rest := Some(Line(tail[..at.value])), tail[at.value + 1..];
      assert script == "--" + tail[..at.value] + "\n" + rest;
    }
  }

  lemma ReadBlockComment(script: string) returns (e: Option<Element>, end: Ending, rest: string)
    requires "/*" <= script
    ensures e.Some? ==> script == PrintElement(e.value) + rest && |rest| < |script| && Lexical(e.value, rest)
    ensures e.None? ==> script == PrintEnding(end) && LexicalEnd(end)
  {
    hide Print, PrintInside, Printable, PrintableInside;
    var closed, open, after := ReadInside(script[2..]);
    assert script == "/*" + script[2..];
    e, end, rest := None, InBlock(open), "";
    if closed.Some? {
      e, rest := Some(Block(closed.value)), after;
      assert script == "/*" + Print(closed.value) + "*/" + after;
    }
  }

  /** What a script begins with: an element, or the construct it ends in. */
  lemma ReadFirst(script: string) returns (e: Option<Element>, end: Ending, rest: string)
    requires script != ""
    ensures e.Some? ==> script == PrintElement(e.value) + rest && |rest| < |script| && Lexical(e.value, rest)
    ensures e.None? ==> script == PrintEnding(end) && LexicalEnd(end)
  {
    hide LexicalEnd, PrintEnding, IsTagName, PrintItems, Print, Printable, PrintableItems, Closes;
    e, end, rest := None, InPlain, "";
    var c, tail := script[0], script[1..];
    assert script == [c] + tail;
    if c == ';' {
      e, rest := Some(Semicolon), tail;
    } else if c == '\'' || c == '\"' {
      e, end, rest := ReadQuote(script);
    } else if "--" <= script {
      e, end, rest := ReadLineComment(script);
    } else if "/*" <= script {
      e, end, rest := ReadBlockComment(script);
    } else if name :| IsTagName(name) && "$" + name + "$" <= script {
      e, end, rest := ReadDollar(name, script);
    } else {
      e, rest := Some(Plain(c)), tail;
    }
  }

  lemma ReadDollar(name: string, script: string) returns (e: Option<Element>, end: Ending, rest: string)
    requires IsTagName(name) && "$" + name + "$" <= script
    ensures e.Some? ==> script == PrintElement(e.value) + rest && |rest| < |script| && Lexical(e.value, rest)
    ensures e.None? ==> script == PrintEnding(end) && LexicalEnd(end)
  {
    hide Closes, IsTagName;
    var tag := "$" + name + "$";
    var r := script[|tag|..];
    assert script == tag + r;
    var at := ReadBody(tag, r);
    e, end, rest := None, InDollar(name, r), "";
    if at.Some? {
      e, rest := Some(DollarQuoted(name, r[..at.value])), r[at.value + |tag|..];
      assert script == tag + r[..at.value] + tag + rest;
    }
  }

  /** Every script is a list of elements and an ending. */
  lemma {:induction false} EveryScriptIsLexical(script: string) returns (elements: seq<Element>, end: Ending)
    ensures LexicalScript(elements, end) && PrintScript(elements, end) == script
    decreases |script|
  {
    hide Lexical, LexicalEnd, PrintElement, PrintEnding;
    elements, end := [], InPlain;
    if script == "" {
      NothingIsLexical();
    } else {
      var e, tail, rest := ReadFirst(script);
      if e.None? {
        end := tail;
      } else {
        var others;
        others, end := EveryScriptIsLexical(rest);
        Prepend(e.value, others, end);
        elements := [e.value] + others;
      }
    }
  }

  lemma NothingIsLexical()
    ensures LexicalEnd(InPlain) && PrintEnding(InPlain) == ""
  {
  }

  // ---------------------------------------------------------------- the statements

  /** The characters that `str.strip()` removes. */
  const WHITE := "\t\n\U{B}\U{C}\r\U{1C}\U{1D}\U{1E}\U{1F} \U{85}\U{A0}\U{1680}"
    + "\U{2000}\U{2001}\U{2002}\U{2003}\U{2004}\U{2005}\U{2006}\U{2007}\U{2008}\U{2009}\U{200A}"
    + "\U{2028}\U{2029}\U{202F}\U{205F}\U{3000}"

  predicate Blank(s: string) {
    forall i :: 0 <= i < |s| ==> s[i] in WHITE
  }

  /** `t` is `s` between white borders. */
  ghost predicate Trims(s: string, t: string) {
    && t != "" && t[0] !in WHITE && t[|t| - 1] !in WHITE
    && exists i, j :: 0 <= i <= j <= |s| && Blank(s[..i]) && s[i..j] == t && Blank(s[j..])
  }

  /** The pieces that are not blank, trimmed, in order. */
  ghost predicate AreStatementsOf(pieces: seq<string>, statements: seq<string>) {
    if pieces == [] then statements == []
    else if Blank(pieces[0]) then AreStatementsOf(pieces[1..], statements)
    else statements != [] && Trims(pieces[0], statements[0]) && AreStatementsOf(pieces[1..], statements[1..])
  }

  lemma SpaceIsWhite(c: char)
    ensures IsSpace(c) <==> c in WHITE
  {
  }

  lemma AllSpaceIsBlank(s: string)
    ensures AllSpace(s) <==> Blank(s)
  {
    hide IsSpace, WHITE;
    forall c: char ensures IsSpace(c) <==> c in WHITE {
      SpaceIsWhite(c);
    }
  }

  lemma StripTrims(s: string)
    requires !Blank(s)
    ensures Trims(s, Strip(s))
  {
    hide WHITE, IsSpace;
    forall c: char ensures IsSpace(c) <==> c in WHITE {
      SpaceIsWhite(c);
    }
    AllSpaceIsBlank(s);
    BlankStrips(s);
    var lead := LstripCuts(s);
    var trail := RstripCuts(Lstrip(s));
    var t := Strip(s);
    assert s == lead + t + trail;
    AllSpaceIsBlank(lead);
    AllSpaceIsBlank(trail);
    assert s[..|lead|] == lead && s[|lead|..|lead| + |t|] == t && s[|lead| + |t|..] == trail;
    assert t[0] == Lstrip(s)[0];
  }

  lemma {:induction false} StatementsAreTrimmed(pieces: seq<string>)
    ensures AreStatementsOf(pieces, Statements(pieces))
  {
    hide WHITE, Blank, Trims, Strip;
    if pieces != [] {
      AllSpaceIsBlank(pieces[0]);
      BlankStrips(pieces[0]);
      StatementsAreTrimmed(pieces[1..]);
      if !Blank(pieces[0]) {
        StripTrims(pieces[0]);
        assert Statements(pieces)[1..] == Statements(pieces[1..]);
      } else {
        assert Statements(pieces) == Statements(pieces[1..]);
      }
    }
  }

  /** Whatever elements a script is made of, splitting it gives the trimmed texts between its semicolons. */
  lemma ScriptIsSplit(elements: seq<Element>, end: Ending)
    requires LexicalScript(elements, end)
    ensures AreStatementsOf(Pieces("", elements, end), Split(PrintScript(elements, end)))
  {
    hide AreStatementsOf, LexicalScript, Segments;
    SegmentsArePieces("", elements, end);
    StatementsAreTrimmed(Pieces("", elements, end));
  }
}
