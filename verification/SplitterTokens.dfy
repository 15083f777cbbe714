/**
 * An independent account of the constructs that hide a `;` from the Postgres splitter: each is given by a printer,
 * and reading the printed text leads from plain SQL back to plain SQL without a cut, whatever it contains.
 */
module SplitterTokens {
  import opened PostgresSplitter
  import opened SplitterLaws

  /** Reading `w` in mode `m` in front of `rest` has the effect of reading `rest` in mode `m'`, with `w` collected. */
  ghost predicate LeadsTo(m: Mode, w: string, m': Mode, rest: string)
    requires Reachable(m) && Reachable(m')
  {
    && Final(m, w + rest) == Final(m', rest)
    && (Uncut(m, w + rest) <==> Uncut(m', rest))
    && forall current :: Segments(m, current, w + rest) == Segments(m', current + w, rest)
  }

  lemma LeadsNowhere(m: Mode, rest: string)
    requires Reachable(m)
    ensures LeadsTo(m, "", m, rest)
  {
    hide Step;
    assert "" + rest == rest;
    assert forall current: string :: current + "" == current;
  }

  /** A move without a cut, and then what follows it. */
  lemma LeadsOn(m: Mode, w: string, m': Mode, rest: string, move: Move)
    requires Reachable(m) && Reachable(m') && w != "" && Step(m, w + rest) == move
    requires !move.cut && 1 <= move.n <= |w| && Reachable(move.mode) && LeadsTo(move.mode, w[move.n..], m', rest)
    ensures LeadsTo(m, w, m', rest)
  {
    hide Step, Reachable;
    assert (w + rest)[move.n..] == w[move.n..] + rest && (w + rest)[..move.n] == w[..move.n];
    forall current: string ensures Segments(m, current, w + rest) == Segments(m', current + w, rest) {
      SegmentsUnfold(m, current, w + rest);
      assert current + w[..move.n] + w[move.n..] == current + w;
    }
  }

  /** One reading after the other. */
  lemma LeadsThrough(m: Mode, a: string, m': Mode, b: string, m'': Mode, rest: string)
    requires Reachable(m) && Reachable(m') && Reachable(m'')
    requires LeadsTo(m, a, m', b + rest) && LeadsTo(m', b, m'', rest)
    ensures LeadsTo(m, a + b, m'', rest)
  {
    hide Reachable, Step, Final, Uncut, Segments;
    assert a + b + rest == a + (b + rest);
    forall current: string ensures Segments(m, current, a + b + rest) == Segments(m'', current + (a + b), rest) {
      assert current + a + b == current + (a + b);
    }
  }

  // ---------------------------------------------------------------- dollar tags

  /** An identifier without `$`, or nothing. */
  predicate IsTagName(w: string) {
    && (w != "" ==> 'A' <= w[0] <= 'Z' || 'a' <= w[0] <= 'z' || w[0] == '_')
    && forall i :: 0 <= i < |w| ==>
         'A' <= w[i] <= 'Z' || 'a' <= w[i] <= 'z' || '0' <= w[i] <= '9' || w[i] == '_'
  }

  lemma {:induction false} NameIsRun(w: string, rest: string)
    requires forall i :: 0 <= i < |w| ==>
               'A' <= w[i] <= 'Z' || 'a' <= w[i] <= 'z' || '0' <= w[i] <= '9' || w[i] == '_'
    requires rest != "" && rest[0] == '$'
    ensures IdentRun(w + rest) == |w|
  {
    if w == "" {
      assert w + rest == rest;
    } else {
      assert (w + rest)[1..] == w[1..] + rest;
      NameIsRun(w[1..], rest);
    }
  }

  /** A text begins with the dollar tag of a name exactly if a tag is recognised, and then it is that tag. */
  lemma TagIsRecognised(r: string)
    ensures TagLength(r) > 0 <==> exists w :: IsTagName(w) && "$" + w + "$" <= r
    ensures forall w :: IsTagName(w) && "$" + w + "$" <= r ==> TagLength(r) == |w| + 2
  {
    forall w | IsTagName(w) && "$" + w + "$" <= r ensures TagLength(r) == |w| + 2 {
      var rest := r[1 + |w|..];
      assert ("$" + w + "$")[|w| + 1] == '$' && rest[0] == r[|w| + 1] == '$';
      assert r[1..] == w + rest;
      NameIsRun(w, rest);
      assert w != "" ==> r[1] == w[0];
    }
    if TagLength(r) > 0 {
      var k := IdentRun(r[1..]);
      var w := r[1..][..k];
      assert r[..k + 2] == "$" + w + "$";
      assert IsTagName(w);
    }
  }

  // ---------------------------------------------------------------- quoted text

  /** What can stand between quotes: a character, a doubled quote, a backslash with any character. */
  datatype Item = Char(c: char) | DoubledQuote | Escaped(c: char)

  predicate PrintableItems(q: char, items: seq<Item>) {
    forall i :: 0 <= i < |items| ==> (items[i].Char? ==> items[i].c != q && items[i].c != '\\')
  }

  function PrintItem(q: char, item: Item): string {
    match item
    case Char(c) => [c]
    case DoubledQuote => [q, q]
    case Escaped(c) => ['\\', c]
  }

  function PrintItems(q: char, items: seq<Item>): string {
    if items == [] then "" else PrintItem(q, items[0]) + PrintItems(q, items[1..])
  }

  function PrintQuote(q: char, items: seq<Item>): string {
    [q] + PrintItems(q, items) + [q]
  }

  lemma ItemIsRead(q: char, item: Item, rest: string)
    requires (q == '\'' || q == '\"') && PrintableItems(q, [item])
    ensures LeadsTo(Quoted(q), PrintItem(q, item), Quoted(q), rest)
  {
    hide Final, Uncut, Segments, LeadsTo;
    var w := PrintItem(q, item);
    assert [item][0] == item;
    LeadsNowhere(Quoted(q), rest);
    assert w[|w|..] == "";
    assert Step(Quoted(q), w + rest) == Move(|w|, Quoted(q), false);
    LeadsOn(Quoted(q), w, Quoted(q), rest, Move(|w|, Quoted(q), false));
  }

  lemma {:induction false} ItemsAreRead(q: char, items: seq<Item>, rest: string)
    requires (q == '\'' || q == '\"') && PrintableItems(q, items)
    ensures LeadsTo(Quoted(q), PrintItems(q, items), Quoted(q), rest)
  {
    hide LeadsTo, PrintItem;
    if items == [] {
      LeadsNowhere(Quoted(q), rest);
    } else {
      ItemIsRead(q, items[0], PrintItems(q, items[1..]) + rest);
      ItemsAreRead(q, items[1..], rest);
      LeadsThrough(Quoted(q), PrintItem(q, items[0]), Quoted(q), PrintItems(q, items[1..]), Quoted(q), rest);
    }
  }

  /** Between quotes anything is hidden: `;`, comment openers, doubled quotes and escaped characters included. */
  lemma QuotedTextHidesSemicolons(q: char, items: seq<Item>, rest: string)
    requires (q == '\'' || q == '\"') && PrintableItems(q, items) && (rest == "" || rest[0] != q)
    ensures LeadsTo(Normal, PrintQuote(q, items), Normal, rest)
  {
    hide LeadsTo, PrintItems;
    var inside := PrintItems(q, items) + [q];
    QuoteOpens(q, inside + rest);
    QuoteCloses(q, rest);
    ItemsAreRead(q, items, [q] + rest);
    LeadsThrough(Quoted(q), PrintItems(q, items), Quoted(q), [q], Normal, rest);
    LeadsThrough(Normal, [q], Quoted(q), inside, Normal, rest);
    assert [q] + inside == PrintQuote(q, items);
  }

  lemma QuoteOpens(q: char, rest: string)
    requires q == '\'' || q == '\"'
    ensures LeadsTo(Normal, [q], Quoted(q), rest)
  {
    hide Final, Uncut, Segments, LeadsTo;
    LeadsNowhere(Quoted(q), rest);
    assert [q][1..] == "" && ([q] + rest)[0] == q;
    LeadsOn(Normal, [q], Quoted(q), rest, Move(1, Quoted(q), false));
  }

  lemma QuoteCloses(q: char, rest: string)
    requires (q == '\'' || q == '\"') && (rest == "" || rest[0] != q)
    ensures LeadsTo(Quoted(q), [q], Normal, rest)
  {
    hide Final, Uncut, Segments, LeadsTo;
    LeadsNowhere(Normal, rest);
    assert [q][1..] == "" && ([q] + rest)[0] == q;
    LeadsOn(Quoted(q), [q], Normal, rest, Move(1, Normal, false));
  }

  // ---------------------------------------------------------------- nested block comments

  /** The inside of a block comment: characters that begin no delimiter of it, and whole block comments. */
  datatype Comment = End | Text(c: char, next: Comment) | Nested(inner: Comment, next: Comment)

  function Print(b: Comment): string {
    match b
    case End => ""
    case Text(c, next) => [c] + Print(next)
    case Nested(inner, next) => "/*" + Print(inner) + "*/" + Print(next)
  }

  /** A `/` may not stand before a `*`, nor a `*` before a `/`; the inside is followed by the closing delimiter. */
  predicate Printable(b: Comment) {
    match b
    case End => true
    case Text(c, next) =>
      var after := (Print(next) + "*/")[0];
      (c == '/' ==> after != '*') && (c == '*' ==> after != '/') && Printable(next)
    case Nested(inner, next) => Printable(inner) && Printable(next)
  }

  lemma CharacterIsRead(c: char, depth: nat, rest: string)
    requires depth > 0 && !("/*" <= [c] + rest) && !("*/" <= [c] + rest)
    ensures LeadsTo(BlockComment(depth), [c], BlockComment(depth), rest)
  {
    hide Final, Uncut, Segments, LeadsTo;
    LeadsNowhere(BlockComment(depth), rest);
    assert [c][1..] == "";
    LeadsOn(BlockComment(depth), [c], BlockComment(depth), rest, Move(1, BlockComment(depth), false));
  }

  lemma TwoCharacters(c: char, rest: string)
    ensures "/*" <= [c] + rest <==> c == '/' && rest != "" && rest[0] == '*'
    ensures "*/" <= [c] + rest <==> c == '*' && rest != "" && rest[0] == '/'
  {
    var s := [c] + rest;
    assert s[0] == c && (rest != "" ==> s[1] == rest[0]);
  }

  lemma {:induction false} CommentIsRead(b: Comment, depth: nat, rest: string)
    requires Printable(b) && depth > 0 && "*/" <= rest
    ensures LeadsTo(BlockComment(depth), Print(b), BlockComment(depth), rest)
    decreases b
  {
    hide LeadsTo;
    var m := BlockComment(depth);
    match b
    case End => LeadsNowhere(m, rest);
    case Text(c, next) =>
      var after := Print(next) + rest;
      assert rest[0] == '*' && after[0] == (Print(next) + "*/")[0];
      TwoCharacters(c, after);
      CharacterIsRead(c, depth, after);
      CommentIsRead(next, depth, rest);
      LeadsThrough(m, [c], m, Print(next), m, rest);
    case Nested(inner, next) =>
      NestedIsRead(inner, next, depth, rest);
  }

  lemma {:induction false} NestedIsRead(inner: Comment, next: Comment, depth: nat, rest: string)
    requires Printable(inner) && Printable(next) && depth > 0 && "*/" <= rest
    ensures LeadsTo(BlockComment(depth), "/*" + Print(inner) + "*/" + Print(next), BlockComment(depth), rest)
    decreases Nested(inner, next), 0
  {
    hide LeadsTo, Print, Printable;
    var m, deeper := BlockComment(depth), BlockComment(depth + 1);
    var tail := Print(next) + rest;
    OpensAndCloses(depth, Print(inner) + "*/" + tail, tail);
    assert "*/" <= "*/" + tail;
    CommentIsRead(inner, depth + 1, "*/" + tail);
    CommentIsRead(next, depth, rest);
    assert Print(inner) + "*/" + tail == Print(inner) + ("*/" + tail);
    LeadsThrough(m, "/*", deeper, Print(inner), deeper, "*/" + tail);
    LeadsThrough(m, "/*" + Print(inner), deeper, "*/", m, tail);
    LeadsThrough(m, "/*" + Print(inner) + "*/", m, Print(next), m, rest);
  }

  lemma OpensAndCloses(depth: nat, inside: string, after: string)
    requires depth > 0
    ensures LeadsTo(BlockComment(depth), "/*", BlockComment(depth + 1), inside)
    ensures LeadsTo(BlockComment(depth + 1), "*/", BlockComment(depth), after)
  {
    hide Final, Uncut, Segments, LeadsTo;
    LeadsNowhere(BlockComment(depth + 1), inside);
    LeadsNowhere(BlockComment(depth), after);
    assert ("*/" + after)[0] == '*' && "*/" <= "*/" + after && "*/"[2..] == "";
    assert "/*" <= "/*" + inside && "/*"[2..] == "";
    LeadsOn(BlockComment(depth), "/*", BlockComment(depth + 1), inside, Move(2, BlockComment(depth + 1), false));
    LeadsOn(BlockComment(depth + 1), "*/", BlockComment(depth), after, Move(2, BlockComment(depth), false));
  }

  lemma CommentOpens(inside: string)
    ensures LeadsTo(Normal, "/*", BlockComment(1), inside)
  {
    hide Final, Uncut, Segments, LeadsTo;
    LeadsNowhere(BlockComment(1), inside);
    assert "/*" <= "/*" + inside && ("/*" + inside)[0] == '/' && "/*"[2..] == "";
    LeadsOn(Normal, "/*", BlockComment(1), inside, Move(2, BlockComment(1), false));
  }

  lemma CommentCloses(after: string)
    ensures LeadsTo(BlockComment(1), "*/", Normal, after)
  {
    hide Final, Uncut, Segments, LeadsTo;
    LeadsNowhere(Normal, after);
    assert ("*/" + after)[0] == '*' && "*/" <= "*/" + after && "*/"[2..] == "";
    LeadsOn(BlockComment(1), "*/", Normal, after, Move(2, Normal, false));
  }

  /** A block comment, however deeply nested, hides its `;`s and ends where its own opener is matched. */
  lemma BlockCommentHidesSemicolons(b: Comment, rest: string)
    requires Printable(b)
    ensures LeadsTo(Normal, "/*" + Print(b) + "*/", Normal, rest)
  {
    hide LeadsTo, Print, Printable;
    CommentOpens(Print(b) + ("*/" + rest));
    assert "*/" <= "*/" + rest;
    CommentIsRead(b, 1, "*/" + rest);
    CommentCloses(rest);
    LeadsThrough(Normal, "/*", BlockComment(1), Print(b), BlockComment(1), "*/" + rest);
    LeadsThrough(Normal, "/*" + Print(b), BlockComment(1), "*/", Normal, rest);
  }

  // ---------------------------------------------------------------- dollar quotes and line comments

  function Tag(w: string): string { "$" + w + "$" }

  /** The tag does not occur before the end of `body + tag`. */
  ghost predicate Closes(tag: string, body: string) {
    forall i :: 0 <= i < |body| ==> !(tag <= (body + tag)[i..])
  }

  lemma TagIsReachable(w: string)
    requires IsTagName(w)
    ensures Reachable(Dollar(Tag(w)))
  {
  }

  /** A move in plain SQL that begins with `$` is decided by whether a tag is recognised. */
  lemma DollarMove(r: string)
    requires r != "" && r[0] == '$'
    ensures Step(Normal, r)
         == if TagLength(r) > 0 then Move(TagLength(r), Dollar(r[..TagLength(r)]), false) else Move(1, Normal, false)
  {
    hide TagLength;
  }

  lemma TagOpens(w: string, rest: string)
    requires IsTagName(w)
    ensures Reachable(Dollar(Tag(w))) && LeadsTo(Normal, Tag(w), Dollar(Tag(w)), rest)
  {
    hide Final, Uncut, Segments, LeadsTo, Step, TagLength, IsTagName;
    var text := Tag(w) + rest;
    TagIsReachable(w);
    assert Tag(w) <= text && text[..|w| + 2] == Tag(w) && text[0] == '$' && Tag(w)[|w| + 2..] == "";
    TagIsRecognised(text);
    DollarMove(text);
    LeadsNowhere(Dollar(Tag(w)), rest);
    LeadsOn(Normal, Tag(w), Dollar(Tag(w)), rest, Move(|w| + 2, Dollar(Tag(w)), false));
  }

  lemma TagCloses(tag: string, rest: string)
    requires Reachable(Dollar(tag))
    ensures LeadsTo(Dollar(tag), tag, Normal, rest)
  {
    hide Final, Uncut, Segments, LeadsTo;
    assert tag <= tag + rest && tag[|tag|..] == "";
    LeadsNowhere(Normal, rest);
    LeadsOn(Dollar(tag), tag, Normal, rest, Move(|tag|, Normal, false));
  }

  lemma DollarCharacterIsRead(tag: string, c: char, rest: string)
    requires Reachable(Dollar(tag)) && !(tag <= [c] + rest)
    ensures LeadsTo(Dollar(tag), [c], Dollar(tag), rest)
  {
    hide Final, Uncut, Segments, LeadsTo;
    LeadsNowhere(Dollar(tag), rest);
    assert [c][1..] == "";
    LeadsOn(Dollar(tag), [c], Dollar(tag), rest, Move(1, Dollar(tag), false));
  }

  lemma {:induction false} DollarBodyIsRead(tag: string, body: string, rest: string)
    requires Reachable(Dollar(tag)) && Closes(tag, body)
    ensures LeadsTo(Dollar(tag), body, Dollar(tag), tag + rest)
  {
    hide LeadsTo, Reachable;
    var m := Dollar(tag);
    if body == [] {
      LeadsNowhere(m, tag + rest);
    } else {
      assert (body + tag)[0..] == body + tag;
      PrefixOfPrefix(tag, body + tag, rest);
      assert body + tag + rest == [body[0]] + (body[1..] + (tag + rest));
      DollarCharacterIsRead(tag, body[0], body[1..] + (tag + rest));
      assert Closes(tag, body[1..]) by {
        forall i | 0 <= i < |body[1..]| ensures !(tag <= (body[1..] + tag)[i..]) {
          assert (body[1..] + tag)[i..] == (body + tag)[i + 1..];
        }
      }
      DollarBodyIsRead(tag, body[1..], rest);
      LeadsThrough(m, [body[0]], m, body[1..], m, tag + rest);
      assert [body[0]] + body[1..] == body;
    }
  }

  lemma PrefixOfPrefix(tag: string, text: string, rest: string)
    requires |tag| <= |text|
    ensures tag <= text <==> tag <= text + rest
  {
  }

  /** A dollar-quoted body hides everything up to the first occurrence of its own tag. */
  lemma DollarQuoteHidesSemicolons(w: string, body: string, rest: string)
    requires IsTagName(w) && Closes("$" + w + "$", body)
    ensures LeadsTo(Normal, "$" + w + "$" + body + "$" + w + "$", Normal, rest)
  {
    hide LeadsTo, IsTagName, Closes;
    var tag := Tag(w);
    TagOpens(w, body + (tag + rest));
    DollarBodyIsRead(tag, body, rest);
    TagCloses(tag, rest);
    LeadsThrough(Normal, tag, Dollar(tag), body, Dollar(tag), tag + rest);
    LeadsThrough(Normal, tag + body, Dollar(tag), tag, Normal, rest);
    assert tag + body + tag == "$" + w + "$" + body + "$" + w + "$";
  }

  lemma LineCharacterIsRead(c: char, rest: string)
    ensures LeadsTo(LineComment, [c], if c == '\n' then Normal else LineComment, rest)
  {
    hide Final, Uncut, Segments, LeadsTo;
    var next := if c == '\n' then Normal else LineComment;
    LeadsNowhere(next, rest);
    assert [c][1..] == "" && ([c] + rest)[0] == c;
    LeadsOn(LineComment, [c], next, rest, Move(1, next, false));
  }

  lemma {:induction false} LineIsRead(line: string, rest: string)
    requires '\n' !in line
    ensures LeadsTo(LineComment, line, LineComment, rest)
  {
    hide LeadsTo;
    if line == [] {
      LeadsNowhere(LineComment, rest);
    } else {
      LineCharacterIsRead(line[0], line[1..] + rest);
      LineIsRead(line[1..], rest);
      LeadsThrough(LineComment, [line[0]], LineComment, line[1..], LineComment, rest);
      assert [line[0]] + line[1..] == line;
    }
  }

  lemma DashesOpen(rest: string)
    ensures LeadsTo(Normal, "--", LineComment, rest)
  {
    hide Final, Uncut, Segments, LeadsTo;
    LeadsNowhere(LineComment, rest);
    assert "--" <= "--" + rest && "--"[2..] == "";
    LeadsOn(Normal, "--", LineComment, rest, Move(2, LineComment, false));
  }

  /** A line comment hides everything up to its newline. */
  lemma LineCommentHidesSemicolons(line: string, rest: string)
    requires '\n' !in line
    ensures LeadsTo(Normal, "--" + line + "\n", Normal, rest)
  {
    hide LeadsTo;
    DashesOpen(line + ("\n" + rest));
    LineIsRead(line, "\n" + rest);
    LineCharacterIsRead('\n', rest);
    LeadsThrough(Normal, "--", LineComment, line, LineComment, "\n" + rest);
    LeadsThrough(Normal, "--" + line, LineComment, "\n", Normal, rest);
  }
}
