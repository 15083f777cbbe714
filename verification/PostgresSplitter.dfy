/** The Postgres script splitter of src/research_registry/db.py. */
module PostgresSplitter {
  import opened PyText

  /** What the splitter is inside of: plain SQL, or one of four constructs that hide a `;`. */
  datatype Mode = Normal | LineComment | BlockComment(depth: nat) | Dollar(tag: string) | Quoted(quote: char)

  /** One lexer move: how many characters it takes, the mode after it, and whether it ends a statement. */
  datatype Move = Move(n: nat, mode: Mode, cut: bool)

  /** The modes the lexer can be in: comments have depth, tags and quotes are real ones. */
  ghost predicate Reachable(m: Mode) {
    match m
    case BlockComment(depth) => depth > 0
    case Dollar(tag) => |tag| >= 2 && forall i :: 0 <= i < |tag| ==> TagChar(tag[i])
    case Quoted(q) => IsQuote(q)
    case _ => true
  }

  predicate IsQuote(c: char) { c == '\'' || c == '"' }

  predicate IdentStart(c: char) { 'A' <= c <= 'Z' || 'a' <= c <= 'z' || c == '_' }

  predicate IdentChar(c: char) { IdentStart(c) || '0' <= c <= '9' }

  predicate TagChar(c: char) { c == '$' || IdentChar(c) }

  /** The number of identifier characters `r` begins with. */
  function IdentRun(r: string): (n: nat)
    ensures n <= |r| && forall i :: 0 <= i < n ==> IdentChar(r[i])
    ensures n < |r| ==> !IdentChar(r[n])
  {
    if r != [] && IdentChar(r[0]) then 1 + IdentRun(r[1..]) else 0
  }

  /** Length of the match of `\$(?:[A-Za-z_][A-Za-z0-9_]*)?\$` at the start of `r`; 0 if there is none. */
  function TagLength(r: string): (n: nat)
    ensures n == 0 || (2 <= n <= |r| && r[0] == '$' == r[n - 1] && forall i :: 0 <= i < n ==> TagChar(r[i]))
  {
    if r == [] || r[0] != '$' then 0
    else
      var k := IdentRun(r[1..]);
      if 1 + k == |r| || r[1 + k] != '$' || (k > 0 && !IdentStart(r[1])) then 0 else k + 2
  }

  /** The pure mode automaton: the move made in mode `m` when `r` is the text still to be read. */
  function Step(m: Mode, r: string): (mv: Move)
    requires r != []
    ensures 1 <= mv.n
    ensures Reachable(m) ==> mv.n <= |r| && Reachable(mv.mode)
    ensures mv.cut ==> m == Normal && r[0] == ';' && mv == Move(1, Normal, true)
  {
    match m
    case LineComment => Move(1, if r[0] == '\n' then Normal else LineComment, false)
    case BlockComment(depth) =>
      if "/*" <= r then Move(2, BlockComment(depth + 1), false)
      else if "*/" <= r then Move(2, if depth <= 1 then Normal else BlockComment(depth - 1), false)
      else Move(1, m, false)
    case Dollar(tag) =>
      if tag <= r && tag != [] then Move(|tag|, Normal, false) else Move(1, m, false)
    case Quoted(q) =>
      if r[0] == '\\' && |r| > 1 then Move(2, m, false)
      else if r[0] != q then Move(1, m, false)
      else if |r| > 1 && r[1] == q then Move(2, m, false)
      else Move(1, Normal, false)
    case Normal =>
      if "--" <= r then Move(2, LineComment, false)
      else if "/*" <= r then Move(2, BlockComment(1), false)
      else if IsQuote(r[0]) then Move(1, Quoted(r[0]), false)
      else if TagLength(r) > 0 then Move(TagLength(r), Dollar(r[..TagLength(r)]), false)
      else Move(1, Normal, r[0] == ';')
  }

  /** The raw segments of `r` read from mode `m`, the first of which continues `current`. */
  function Segments(m: Mode, current: string, r: string): (segments: seq<string>)
    requires Reachable(m)
    ensures segments != []
    decreases |r|
  {
    if r == [] then [current]
    else
      var mv := Step(m, r);
      if mv.cut then [current] + Segments(Normal, [], r[1..])
      else Segments(mv.mode, current + r[..mv.n], r[mv.n..])
  }

  /** The mode the scan of `r` from `m` ends in. */
  function Final(m: Mode, r: string): (f: Mode)
    requires Reachable(m)
    ensures Reachable(f)
    decreases |r|
  {
    if r == [] then m else var mv := Step(m, r); Final(mv.mode, r[mv.n..])
  }

  /** The raw segments stripped, with the empty ones dropped. */
  function Statements(segments: seq<string>): seq<string> {
    if segments == [] then []
    else (if Strip(segments[0]) == [] then [] else [Strip(segments[0])]) + Statements(segments[1..])
  }

  function Split(script: string): seq<string> {
    Statements(Segments(Normal, [], script))
  }

  function JoinSemicolons(segments: seq<string>): string
    requires segments != []
  {
    if |segments| == 1 then segments[0] else segments[0] + ";" + JoinSemicolons(segments[1..])
  }

  // ---------------------------------------------------------------- the loop refines the automaton

  /** The splitter's four mode variables, read as one mode. */
  function ModeOf(quote: Option<char>, dollar: Option<string>, lineComment: bool, depth: nat): Mode {
    if lineComment then LineComment
    else if depth > 0 then BlockComment(depth)
    else if dollar.Some? then Dollar(dollar.value)
    else if quote.Some? then Quoted(quote.value)
    else Normal
  }

  predicate AtMostOne(quote: Option<char>, dollar: Option<string>, lineComment: bool, depth: nat) {
    (if quote.Some? then 1 else 0) + (if dollar.Some? then 1 else 0)
    + (if lineComment then 1 else 0) + (if depth > 0 then 1 else 0) <= 1
  }

  predicate StartsWithAt(script: string, token: string, index: nat) {
    index <= |script| && token <= script[index..]
  }

  /** The statements already produced, followed by those the unread text will produce, are the answer. */
  ghost predicate OnCourse(script: string, statements: seq<string>, m: Mode, current: string, index: nat)
    requires Reachable(m) && index <= |script|
  {
    Split(script) == statements + Statements(Segments(m, current, script[index..]))
  }

  lemma StaysOnCourse(script: string, emitted: seq<string>, m: Mode, read: string, at: nat)
    returns (move: Move, emitted': seq<string>, read': string)
    requires Reachable(m) && at < |script| && OnCourse(script, emitted, m, read, at)
    ensures move == Step(m, script[at..]) && Reachable(move.mode) && 1 <= move.n <= |script| - at
    ensures emitted' == if move.cut && Strip(read) != [] then emitted + [Strip(read)] else emitted
    ensures read' == if move.cut then [] else read + script[at..at + move.n]
    ensures OnCourse(script, emitted', move.mode, read', at + move.n)
  {
    hide Step, Strip;
    var r := script[at..];
    move := Step(m, r);
    emitted' := if move.cut && Strip(read) != [] then emitted + [Strip(read)] else emitted;
    read' := if move.cut then [] else read + script[at..at + move.n];
    assert r[move.n..] == script[at + move.n..] && r[..move.n] == script[at..at + move.n];
    if move.cut {
      var segments := Segments(Normal, [], r[1..]);
      assert ([read] + segments)[1..] == segments;
    }
  }

  // The move of each mode in the terms of the loop, which looks at the script through an index.

  lemma MoveInLineComment(script: string, at: nat)
    requires at < |script|
    ensures Step(LineComment, script[at..]) == Move(1, if script[at] == '\n' then Normal else LineComment, false)
  {
  }

  lemma MoveInDollar(script: string, tag: string, at: nat)
    requires at < |script| && Reachable(Dollar(tag))
    ensures Step(Dollar(tag), script[at..])
         == if StartsWithAt(script, tag, at) then Move(|tag|, Normal, false) else Move(1, Dollar(tag), false)
  {
  }

  lemma MoveInBlockComment(script: string, depth: nat, at: nat)
    requires at < |script|
    ensures Step(BlockComment(depth), script[at..])
         == if StartsWithAt(script, "/*", at) then Move(2, BlockComment(depth + 1), false)
            else if StartsWithAt(script, "*/", at) then
              Move(2, if depth <= 1 then Normal else BlockComment(depth - 1), false)
            else Move(1, BlockComment(depth), false)
  {
  }

  lemma MoveInQuotes(script: string, q: char, at: nat)
    requires at < |script| && Reachable(Quoted(q))
    ensures Step(Quoted(q), script[at..])
         == if at + 1 < |script| && (script[at] == '\\' || script[at] == q == script[at + 1]) then
              Move(2, Quoted(q), false)
            else
              Move(1, if script[at] == q then Normal else Quoted(q), false)
  {
  }

  lemma MoveInNormal(script: string, at: nat)
    requires at < |script|
    ensures Step(Normal, script[at..])
         == if StartsWithAt(script, "--", at) then Move(2, LineComment, false)
            else if StartsWithAt(script, "/*", at) then Move(2, BlockComment(1), false)
            else if IsQuote(script[at]) then Move(1, Quoted(script[at]), false)
            else if script[at] == '$' && TagLength(script[at..]) > 0 then
              Move(TagLength(script[at..]), Dollar(script[at..at + TagLength(script[at..])]), false)
            else Move(1, Normal, script[at] == ';')
  {
  }

  /** A token found at an index is what the script holds there. */
  lemma TokenRead(script: string, token: string, at: nat)
    requires StartsWithAt(script, token, at)
    ensures at + |token| <= |script| && script[at..at + |token|] == token
  {
  }

  lemma CharsRead(script: string, read: string, at: nat)
    requires at < |script|
    ensures script[at..at + 1] == [script[at]]
    ensures at + 1 < |script| ==> read + script[at..at + 2] == read + [script[at]] + [script[at + 1]]
  {
  }

  lemma StartsOnCourse(script: string)
    ensures Reachable(Normal) && OnCourse(script, [], Normal, [], 0)
  {
  }

  lemma EndsOnCourse(script: string, statements: seq<string>, m: Mode, current: string)
    requires Reachable(m) && OnCourse(script, statements, m, current, |script|)
    ensures Split(script) == if Strip(current) == [] then statements else statements + [Strip(current)]
  {
    assert script[|script|..] == [];
    assert [current][1..] == [];
    assert Statements([current]) == (if Strip(current) == [] then [] else [Strip(current)]) + [];
  }

  method SplitPostgresScript(script: string) returns (statements: seq<string>)
    ensures statements == Split(script)
  {
    hide OnCourse, Reachable, Step, TagLength, IsQuote, Strip, StartsWithAt;
    statements := [];
    var current := "";
    var quoteChar: Option<char> := None;
    var dollarQuote: Option<string> := None;
    var lineComment := false;
    var blockCommentDepth := 0;
    var index := 0;
    // the state of the automaton, one move ahead of the variables above inside the loop body
    ghost var mode, emitted, read, at := Normal, statements, current, index;
    StartsOnCourse(script);
    while index < |script|
      invariant 0 <= index <= |script| && 0 <= blockCommentDepth
      invariant AtMostOne(quoteChar, dollarQuote, lineComment, blockCommentDepth)
      invariant mode == ModeOf(quoteChar, dollarQuote, lineComment, blockCommentDepth) && Reachable(mode)
      invariant emitted == statements && read == current && at == index
      invariant OnCourse(script, emitted, mode, read, at)
      decreases |script| - index
    {
      var c := script[index];
      ghost var move: Move;
      CharsRead(script, read, at);
      move, emitted, read := StaysOnCourse(script, emitted, mode, read, at);
      mode, at := move.mode, at + move.n;
      if lineComment {
        MoveInLineComment(script, index);
        current := current + [c];
        index := index + 1;
        if c == '\n' {
          lineComment := false;
        }
        continue;
      }
      if blockCommentDepth > 0 {
        MoveInBlockComment(script, blockCommentDepth, index);
        if StartsWithAt(script, "/*", index) {
          TokenRead(script, "/*", index);
          current := current + "/*";
          blockCommentDepth := blockCommentDepth + 1;
          index := index + 2;
          continue;
        }
        if StartsWithAt(script, "*/", index) {
          TokenRead(script, "*/", index);
          current := current + "*/";
          blockCommentDepth := blockCommentDepth - 1;
          index := index + 2;
          continue;
        }
        current := current + [c];
        index := index + 1;
        continue;
      }
      if dollarQuote.Some? {
        MoveInDollar(script, dollarQuote.value, index);
        if StartsWithAt(script, dollarQuote.value, index) {
          TokenRead(script, dollarQuote.value, index);
          current := current + dollarQuote.value;
          index := index + |dollarQuote.value|;
          dollarQuote := None;
        } else {
          current := current + [c];
          index := index + 1;
        }
        continue;
      }
      if quoteChar.Some? {
        MoveInQuotes(script, quoteChar.value, index);
        current := current + [c];
        index := index + 1;
        if c == '\\' && index < |script| {
          current := current + [script[index]];
          index := index + 1;
          continue;
        }
        if c != quoteChar.value {
          continue;
        }
        if index < |script| && script[index] == quoteChar.value {
          current := current + [script[index]];
          index := index + 1;
        } else {
          quoteChar := None;
        }
        continue;
      }
      MoveInNormal(script, index);
      if StartsWithAt(script, "--", index) {
        TokenRead(script, "--", index);
        current := current + "--";
        lineComment := true;
        index := index + 2;
        continue;
      }
      if StartsWithAt(script, "/*", index) {
        TokenRead(script, "/*", index);
        current := current + "/*";
        blockCommentDepth := 1;
        index := index + 2;
        continue;
      }
      if IsQuote(c) {
        current := current + [c];
        quoteChar := Some(c);
        index := index + 1;
        continue;
      }
      if c == '$' {
        var n := TagLength(script[index..]);
        if n > 0 {
          dollarQuote := Some(script[index..index + n]);
          current := current + dollarQuote.value;
          index := index + n;
          continue;
        }
      }
      if c == ';' {
        var statement := Strip(current);
        if statement != [] {
          statements := statements + [statement];
        }
        current := "";
        index := index + 1;
        continue;
      }
      current := current + [c];
      index := index + 1;
    }
    EndsOnCourse(script, statements, mode, current);
    var tail := Strip(current);
    if tail != [] {
      statements := statements + [tail];
    }
  }
}
