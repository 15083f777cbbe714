/** The BibTeX reader inverts a printer, for every way of delimiting a value. */
module BibtexRoundTrip {
  import opened PyText
  import opened Bibtex

  // ---------------------------------------------------------------- the printer

  datatype Style = Braced | Quoted | Bare

  /** A field with the separators before it and the signs between its name and its value. */
  datatype Field = Field(lead: string, name: string, gap: string, value: string, style: Style)

  /**
   * An entry, preceded by text that is not part of it; `trail` and `junk`, in which no field is, stand before its
   * closing brace.
   */
  datatype Entry = Entry(before: string, kind: string, key: string, fields: seq<Field>, trail: string, junk: string)

  function PrintValue(f: Field): string {
    match f.style
    case Braced => "{" + f.value + "}"
    case Quoted => "\"" + f.value + "\""
    case Bare => f.value
  }

  function PrintField(f: Field): string {
    f.lead + f.name + f.gap + PrintValue(f)
  }

  function PrintFields(fs: seq<Field>, trail: string): string {
    if fs == [] then trail else PrintField(fs[0]) + PrintFields(fs[1..], trail)
  }

  function PrintBody(e: Entry): string {
    if e.fields == [] && e.trail + e.junk == "" then e.key else e.key + ("," + PrintFields(e.fields, e.trail + e.junk))
  }

  function Print(es: seq<Entry>, after: string): string {
    if es == [] then after
    else es[0].before + ("@" + (es[0].kind + ("{" + (PrintBody(es[0]) + ("}" + Print(es[1..], after))))))
  }

  // ---------------------------------------------------------------- what can be printed

  /** The brace depth after `s`, when no closing brace in it goes below the depth where it started. */
  function Level(s: string, depth: nat): Option<nat>
    requires depth > 0
  {
    if s == "" then Some(depth)
    else if s[0] == '{' then Level(s[1..], depth + 1)
    else if s[0] == '}' then if depth == 1 then None else Level(s[1..], depth - 1)
    else Level(s[1..], depth)
  }

  predicate Balanced(s: string) {
    Level(s, 1) == Some(1)
  }

  /** What separates fields: blanks, line breaks and commas. */
  predicate IsLead(s: string) {
    forall i :: 0 <= i < |s| ==> s[i] in " \t\r\n,"
  }

  predicate NameChar(c: char) {
    'A' <= c <= 'Z' || 'a' <= c <= 'z' || '0' <= c <= '9' || c == '_' || c == '-'
  }

  predicate IsName(s: string) {
    s != "" && forall i :: 0 <= i < |s| ==> NameChar(s[i])
  }

  /** What stands between a name and its value: blanks, line breaks and equals signs. */
  predicate IsGap(s: string) {
    forall i :: 0 <= i < |s| ==> s[i] in " \t\r\n="
  }

  predicate PrintableValue(f: Field) {
    && Balanced(f.value)
    && match f.style
       case Braced => true
       case Quoted => (forall i :: 0 <= i < |f.value| && f.value[i] == '\"' ==> i > 0 && f.value[i - 1] == '\\')
                      && (f.value != "" ==> f.value[|f.value| - 1] != '\\')
       case Bare => f.value != "" && f.value[0] !in " \t\r\n={\"" && ',' !in f.value && '\n' !in f.value
  }

  predicate PrintableField(f: Field) {
    IsLead(f.lead) && IsName(f.name) && IsGap(f.gap) && (f.style == Bare ==> f.gap != "") && PrintableValue(f)
  }

  /** A bare value ends at a comma, a newline or the end of the entry; the others end themselves. */
  predicate EndsBefore(f: Field, rest: string) {
    f.style == Bare ==> rest == "" || rest[0] == ',' || rest[0] == '\n'
  }

  predicate PrintableFields(fs: seq<Field>, trail: string) {
    fs != [] ==>
      PrintableField(fs[0]) && EndsBefore(fs[0], PrintFields(fs[1..], trail)) && PrintableFields(fs[1..], trail)
  }

  /** Where no field begins, reading stops: at the end, at a strange character, or at a name without a value. */
  predicate IsJunk(s: string) {
    || s == ""
    || (s[0] !in " \t\r\n," && !NameChar(s[0]))
    || exists k :: 0 < k <= |s| && IsName(s[..k]) && IsGap(s[k..])
  }

  predicate IsTrail(trail: string, junk: string) {
    IsLead(trail) && IsJunk(junk) && Balanced(junk)
  }

  predicate Printable(e: Entry) {
    && '@' !in e.before && '{' !in e.kind
    && ',' !in e.key && Balanced(e.key)
    && IsTrail(e.trail, e.junk) && PrintableFields(e.fields, e.trail + e.junk)
  }

  /** A name in lower case: capital letters stand 32 places before the small ones. */
  function SmallLetters(s: string): string {
    seq(|s|, i requires 0 <= i < |s| => if 'A' <= s[i] <= 'Z' then (s[i] as int + 32) as char else s[i])
  }

  /**
   * What reading should give: the cleaned values by lower-case name, where a repeated name keeps its last value and an
   * empty value counts for nothing.
   */
  function Meant(fs: seq<Field>, clean: string -> string): Fields {
    if fs == [] then map[]
    else
      var k := |fs| - 1;
      var before := Meant(fs[..k], clean);
      if fs[k].value == "" then before else before[SmallLetters(fs[k].name) := clean(fs[k].value)]
  }

  /** An entry without fields is not an entry. */
  function MeantEntries(es: seq<Entry>, clean: string -> string): seq<Fields> {
    if es == [] then []
    else
      var fields := Meant(es[0].fields, clean);
      (if fields == map[] then [] else [fields]) + MeantEntries(es[1..], clean)
  }

  // ---------------------------------------------------------------- literal characters and the reader's

  predicate AllIn(s: string, chars: char -> bool) {
    forall i :: 0 <= i < |s| ==> chars(s[i])
  }

  lemma ReadersCharacters()
    ensures forall c :: SEPARATOR(c) <==> c in " \t\r\n,"
    ensures forall c :: EQUALS(c) <==> c in " \t\r\n="
    ensures forall c :: KEY(c) <==> NameChar(c)
    ensures forall c :: BARE(c) <==> c != ',' && c != '\n'
    ensures forall c, depth: nat :: depth > 0 ==>
              Deeper(c, depth) == if c == '{' then depth + 1 else if c == '}' then depth - 1 else depth
  {
  }

  lemma ReadersParts(f: Field)
    ensures IsLead(f.lead) <==> AllIn(f.lead, SEPARATOR)
    ensures IsName(f.name) <==> f.name != "" && AllIn(f.name, KEY)
    ensures IsGap(f.gap) <==> AllIn(f.gap, EQUALS)
  {
    ReadersCharacters();
    hide SEPARATOR, EQUALS, KEY, BARE;
  }

  lemma ReadersLetters(s: string)
    ensures Lower(s) == SmallLetters(s)
  {
  }

  // ---------------------------------------------------------------- brace depth

  lemma {:induction false} LevelAppends(a: string, b: string, depth: nat)
    requires depth > 0 && Level(a, depth).Some?
    ensures Level(a, depth).value > 0 && Level(a + b, depth) == Level(b, Level(a, depth).value)
    decreases |a|
  {
    if a == "" {
      assert a + b == b;
    } else {
      assert (a + b)[1..] == a[1..] + b;
      LevelAppends(a[1..], b, Deeper(a[0], depth));
    }
  }

  lemma {:induction false} LevelLifts(s: string, depth: nat)
    requires depth > 0 && Level(s, depth).Some?
    ensures Level(s, depth + 1) == Some(Level(s, depth).value + 1)
    decreases |s|
  {
    if s != "" {
      LevelLifts(s[1..], Deeper(s[0], depth));
    }
  }

  lemma {:induction false} LevelOfPlain(s: string, depth: nat)
    requires depth > 0 && '{' !in s && '}' !in s
    ensures Level(s, depth) == Some(depth)
  {
    if s != "" {
      LevelOfPlain(s[1..], depth);
    }
  }

  /** The brace loop reads through balanced text and stops after the brace that closes it. */
  lemma {:induction false} CloseBraceReads(s: string, rest: string, depth: nat)
    requires depth > 0 && Level(s, depth).Some?
    ensures CloseBrace(s + rest, depth) == |s| + CloseBrace(rest, Level(s, depth).value)
    decreases |s|
  {
    if s == "" {
      assert s + rest == rest;
    } else {
      assert (s + rest)[1..] == s[1..] + rest;
      CloseBraceReads(s[1..], rest, Deeper(s[0], depth));
    }
  }

  lemma BalancedCloses(s: string, rest: string)
    requires Balanced(s)
    ensures CloseBrace(s + ("}" + rest), 1) == |s| + 1
  {
    CloseBraceReads(s, "}" + rest, 1);
    assert ("}" + rest)[1..] == rest;
  }

  lemma BalancedAppends(a: string, b: string)
    requires Balanced(a) && Balanced(b)
    ensures Balanced(a + b)
  {
    LevelAppends(a, b, 1);
  }

  lemma BracedIsBalanced(s: string)
    requires Balanced(s)
    ensures Balanced("{" + s + "}")
  {
    LevelLifts(s, 1);
    LevelAppends(s, "}", 2);
    assert "{" + s + "}" == "{" + (s + "}");
    assert ("{" + (s + "}"))[1..] == s + "}";
    assert "}"[1..] == "";
  }

  lemma {:induction false} NoBraceIn(s: string, chars: char -> bool)
    requires AllIn(s, chars) && !chars('{') && !chars('}')
    ensures Balanced(s)
  {
    LevelOfPlain(s, 1);
  }

  lemma PrintedFieldIsBalanced(f: Field)
    requires PrintableField(f)
    ensures Balanced(PrintField(f))
  {
    hide Level;
    ReadersParts(f);
    NoBraceIn(f.lead, SEPARATOR);
    NoBraceIn(f.name, KEY);
    NoBraceIn(f.gap, EQUALS);
    LevelOfPlain("\"", 1);
    BracedIsBalanced(f.value);
    BalancedAppends("\"", f.value);
    BalancedAppends("\"" + f.value, "\"");
    BalancedAppends(f.lead, f.name);
    BalancedAppends(f.lead + f.name, f.gap);
    BalancedAppends(f.lead + f.name + f.gap, PrintValue(f));
  }

  lemma {:induction false} PrintedFieldsAreBalanced(fs: seq<Field>, trail: string)
    requires PrintableFields(fs, trail) && Balanced(trail)
    ensures Balanced(PrintFields(fs, trail))
  {
    hide Level;
    if fs != [] {
      PrintedFieldIsBalanced(fs[0]);
      PrintedFieldsAreBalanced(fs[1..], trail);
      BalancedAppends(PrintField(fs[0]), PrintFields(fs[1..], trail));
    }
  }

  // ---------------------------------------------------------------- one value

  lemma {:induction false} QuoteReads(value: string, rest: string, at: nat)
    requires 0 < at <= |value| + 1
    requires forall i :: 0 <= i < |value| && value[i] == '\"' ==> i > 0 && value[i - 1] == '\\'
    requires value != "" ==> value[|value| - 1] != '\\'
    ensures CloseQuote("\"" + value + "\"" + rest, at) == |value| + 1
    decreases |value| + 1 - at
  {
    var s := "\"" + value + "\"" + rest;
    if at <= |value| {
      assert s[at] == value[at - 1];
      QuoteReads(value, rest, at + 1);
    } else {
      assert s[at] == '\"' && s[at - 1] == if value == "" then '\"' else value[|value| - 1];
    }
  }

  lemma {:induction false} SpanReads(s: string, rest: string, chars: char -> bool)
    requires AllIn(s, chars) && (rest == "" || !chars(rest[0]))
    ensures Span(s + rest, chars) == |s|
  {
    if s == "" {
      assert s + rest == rest;
    } else {
      assert (s + rest)[1..] == s[1..] + rest;
      SpanReads(s[1..], rest, chars);
    }
  }

  lemma BareCharacters(s: string, rest: string)
    requires ',' !in s && '\n' !in s && (rest == "" || rest[0] == ',' || rest[0] == '\n')
    ensures AllIn(s, BARE) && (rest == "" || !BARE(rest[0]))
  {
    ReadersCharacters();
    hide SEPARATOR, EQUALS, KEY, BARE;
  }

  /** A printed value is read back, and the cursor ends right behind it. */
  lemma ValueReads(f: Field, rest: string)
    requires PrintableValue(f) && EndsBefore(f, rest)
    ensures Value(PrintValue(f) + rest) == (f.value, |PrintValue(f)|)
  {
    hide CloseBrace, CloseQuote, Span, Level;
    var s := PrintValue(f) + rest;
    match f.style
    case Braced =>
      assert s == "{" + (f.value + ("}" + rest)) && s[1..] == f.value + ("}" + rest);
      BalancedCloses(f.value, rest);
      assert s[1..|f.value| + 1] == f.value;
    case Quoted =>
      assert s == "\"" + f.value + "\"" + rest;
      QuoteReads(f.value, rest, 1);
      assert s[1..|f.value| + 1] == f.value;
    case Bare =>
      BareCharacters(f.value, rest);
      SpanReads(f.value, rest, BARE);
      assert s[..|f.value|] == f.value;
  }

  // ---------------------------------------------------------------- the fields

  lemma FieldSpans(f: Field, value: string)
    requires PrintableField(f) && value != "" && !EQUALS(value[0])
    requires f.gap == "" ==> !KEY(value[0])
    ensures var named := f.name + (f.gap + value);
            && Span(f.lead + named, SEPARATOR) == |f.lead|
            && Span(named, KEY) == |f.name| > 0
            && Span(f.gap + value, EQUALS) == |f.gap|
  {
    hide Span, PrintableValue;
    ReadersParts(f);
    StartOfName(f.name);
    var named := f.name + (f.gap + value);
    assert named[0] == f.name[0];
    assert (f.gap + value)[0] == if f.gap == "" then value[0] else f.gap[0];
    SpanReads(f.lead, named, SEPARATOR);
    SpanReads(f.name, f.gap + value, KEY);
    SpanReads(f.gap, value, EQUALS);
  }

  /** No character of a name separates fields or stands for an equals sign. */
  lemma StartOfName(name: string)
    requires IsName(name)
    ensures forall i :: 0 <= i < |name| ==> !SEPARATOR(name[i])
  {
    ReadersCharacters();
    hide SEPARATOR, EQUALS, KEY, BARE;
  }

  /** A field's parts, found at their places in the text. */
  lemma FieldAt(lead: string, name: string, gap: string, value: string, fields: Fields, clean: string -> string)
    requires var named := name + (gap + value);
             && Span(lead + named, SEPARATOR) == |lead| && Span(named, KEY) == |name| > 0
             && Span(gap + value, EQUALS) == |gap| && value != ""
    ensures FieldsOf(lead + (name + (gap + value)), fields, clean)
         == FieldsOf(Drop(value, Value(value).1), Put(fields, SmallLetters(name), Value(value).0, clean), clean)
  {
    ReadersLetters(name);
    hide Span, Value, Put, Drop, Lower, SmallLetters, SEPARATOR, KEY, EQUALS, FieldsOf;
    var body := lead + (name + (gap + value));
    var start := |lead|;
    var end := start + |name|;
    var at := end + |gap|;
    assert body[0..] == body;
    assert body[start..] == name + (gap + value) && body[start..end] == name;
    assert body[end..] == gap + value && body[at..] == value;
    FieldsAt(body, 0, fields, clean, start, end, at);
  }

  /** One printed field is read, whatever follows it. */
  lemma {:induction false} FieldReads(f: Field, rest: string, fields: Fields, clean: string -> string)
    requires PrintableField(f) && EndsBefore(f, rest)
    ensures FieldsOf(PrintField(f) + rest, fields, clean)
         == FieldsOf(rest, if f.value == "" then fields else fields[SmallLetters(f.name) := clean(f.value)], clean)
  {
    hide Span, Value, PrintValue, Balanced, SmallLetters, SEPARATOR, KEY, EQUALS, BARE, AllIn, FieldsOf, PrintableValue;
    var value := PrintValue(f) + rest;
    ValueStarts(f, rest);
    FieldSpans(f, value);
    ValueReads(f, rest);
    FieldAt(f.lead, f.name, f.gap, value, fields, clean);
    assert PrintField(f) + rest == f.lead + (f.name + (f.gap + value));
    assert Drop(value, |PrintValue(f)|) == rest;
  }

  lemma ValueStarts(f: Field, rest: string)
    requires PrintableField(f)
    ensures var value := PrintValue(f) + rest;
            PrintValue(f) != "" && !EQUALS(value[0]) && (f.gap == "" ==> !KEY(value[0]))
  {
    ReadersCharacters();
    hide SEPARATOR, EQUALS, KEY, BARE, Balanced;
    assert (PrintValue(f) + rest)[0] == PrintValue(f)[0];
  }

  /** Reading stops at what stands behind the last field. */
  lemma {:induction false} TrailReads(trail: string, junk: string, fields: Fields, clean: string -> string)
    requires IsLead(trail) && IsJunk(junk)
    ensures FieldsOf(trail + junk, fields, clean) == fields
  {
    hide Balanced, Span, Value, IsName, IsGap, SEPARATOR, KEY, EQUALS;
    LeadCharacters(trail);
    JunkReads(junk);
    SpanReads(trail, junk, SEPARATOR);
    assert (trail + junk)[|trail|..] == junk;
  }

  lemma LeadCharacters(trail: string)
    requires IsLead(trail)
    ensures AllIn(trail, SEPARATOR)
  {
    ReadersCharacters();
    hide SEPARATOR, EQUALS, KEY, BARE;
  }

  lemma JunkReads(junk: string)
    requires IsJunk(junk)
    ensures junk == "" || !SEPARATOR(junk[0])
    ensures var key := Span(junk, KEY); key == 0 || junk[key..][Span(junk[key..], EQUALS)..] == ""
  {
    ReadersCharacters();
    hide SEPARATOR, EQUALS, KEY, BARE;
    if k :| 0 < k <= |junk| && IsName(junk[..k]) && IsGap(junk[k..]) {
      var name, gap := junk[..k], junk[k..];
      assert junk == name + gap && junk[0] == name[0];
      assert gap != "" ==> gap[0] in " \t\r\n=" && !NameChar(gap[0]);
      SpanReads(name, gap, KEY);
      SpanReads(gap, "", EQUALS);
      assert gap + "" == gap;
    }
  }

  lemma MeantStep(done: seq<Field>, f: Field, clean: string -> string)
    ensures Meant(done + [f], clean)
         == if f.value == "" then Meant(done, clean) else Meant(done, clean)[SmallLetters(f.name) := clean(f.value)]
  {
  }

  lemma {:induction false} FieldsRead(done: seq<Field>, fs: seq<Field>, trail: string, junk: string,
                                      clean: string -> string)
    requires PrintableFields(fs, trail + junk) && IsLead(trail) && IsJunk(junk)
    ensures FieldsOf(PrintFields(fs, trail + junk), Meant(done, clean), clean) == Meant(done + fs, clean)
    decreases |fs|
  {
    hide FieldsOf, PrintableField, Meant, PrintField, EndsBefore, IsLead, IsJunk, SmallLetters;
    if fs == [] {
      assert done + fs == done;
      TrailReads(trail, junk, Meant(done, clean), clean);
    } else {
      FieldReads(fs[0], PrintFields(fs[1..], trail + junk), Meant(done, clean), clean);
      MeantStep(done, fs[0], clean);
      FieldsRead(done + [fs[0]], fs[1..], trail, junk, clean);
      assert done + [fs[0]] + fs[1..] == done + fs;
    }
  }

  // ---------------------------------------------------------------- the entries

  lemma {:induction false} FindsChar(before: string, c: char, rest: string)
    requires c !in before
    ensures Find(before + ([c] + rest), [c], 0) == Some(|before|)
  {
    hide Find;
    var s := before + ([c] + rest);
    FindIsFirst(s, [c], 0);
    assert s[|before|..|before| + 1] == [c] && Occurs(s, [c], |before|);
    forall at: nat | at < |before|
      ensures !Occurs(s, [c], at)
    {
      assert s[at..at + 1][0] == before[at];
    }
  }

  /** The reader finds the entry's opening brace and goes on behind it. */
  lemma {:induction false} EntryIsFound(before: string, kind: string, inside: string, clean: string -> string)
    requires '@' !in before && '{' !in kind
    ensures Entries(before + ("@" + (kind + ("{" + inside))), clean) == FromBrace(inside, clean)
  {
    hide Find, Occurs, Entries, FromBrace;
    var s := before + ("@" + (kind + ("{" + inside)));
    FindsChar(before, '@', kind + ("{" + inside));
    FindsChar("@" + kind, '{', inside);
    assert "@" + kind + ("{" + inside) == "@" + (kind + ("{" + inside));
    FindShifts(before, "@" + kind + ("{" + inside), "{");
    var brace := |before| + |"@" + kind|;
    assert s[brace + 1..] == inside;
    EntriesStep(s, |before|, brace, clean);
  }

  /** A printed entry is read as one, and reading goes on right behind its closing brace. */
  lemma {:induction false} EntryReads(e: Entry, rest: string, clean: string -> string)
    requires Printable(e)
    ensures Entries(e.before + ("@" + (e.kind + ("{" + (PrintBody(e) + ("}" + rest))))), clean)
         == EntryOf(PrintBody(e), clean) + Entries(rest, clean)
  {
    hide CloseBrace, EntryOf, Entries, PrintBody, Level;
    var inside := PrintBody(e) + ("}" + rest);
    EntryIsFound(e.before, e.kind, inside, clean);
    BodyIsBalanced(e);
    BalancedCloses(PrintBody(e), rest);
    assert inside[..|PrintBody(e)|] == PrintBody(e) && inside[|PrintBody(e)| + 1..] == rest;
  }

  lemma BodyIsBalanced(e: Entry)
    requires Printable(e)
    ensures Balanced(PrintBody(e))
  {
    hide Level;
    LevelOfPlain(",", 1);
    var trail := e.trail + e.junk;
    TrailIsBalanced(e.trail);
    BalancedAppends(e.trail, e.junk);
    PrintedFieldsAreBalanced(e.fields, trail);
    BalancedAppends(",", PrintFields(e.fields, trail));
    BalancedAppends(e.key, "," + PrintFields(e.fields, trail));
  }

  lemma TrailIsBalanced(trail: string)
    requires IsLead(trail)
    ensures Balanced(trail)
  {
    LevelOfPlain(trail, 1);
  }

  lemma {:induction false} CommaEndsKey(key: string, list: string, clean: string -> string)
    requires ',' !in key
    ensures EntryOf(key + ("," + list), clean)
         == if FieldsOf(list, map[], clean) == map[] then [] else [FieldsOf(list, map[], clean)]
  {
    hide Find, Occurs, FieldsOf;
    FindsChar(key, ',', list);
    assert (key + ("," + list))[|key| + 1..] == list;
  }

  lemma {:induction false} BodyReads(e: Entry, clean: string -> string)
    requires Printable(e)
    ensures EntryOf(PrintBody(e), clean) == if Meant(e.fields, clean) == map[] then [] else [Meant(e.fields, clean)]
  {
    hide Find, FieldsOf, PrintableFields, PrintFields, IsLead, IsJunk, Balanced;
    if e.fields == [] && e.trail + e.junk == "" {
      NoComma(e.key);
    } else {
      NothingMeant(clean);
      FieldsRead([], e.fields, e.trail, e.junk, clean);
      assert [] + e.fields == e.fields;
      CommaEndsKey(e.key, PrintFields(e.fields, e.trail + e.junk), clean);
    }
  }

  lemma NoComma(key: string)
    requires ',' !in key
    ensures Find(key, ",", 0) == None
  {
    hide Find;
    forall at: nat
      ensures !Occurs(key, ",", at)
    {
      assert at < |key| ==> key[at..at + 1][0] == key[at];
    }
  }

  lemma NothingReads(after: string, clean: string -> string)
    requires '@' !in after
    ensures Entries(after, clean) == []
  {
  }

  /** Reading what was printed gives every entry with its fields, in order, whatever stands between the entries. */
  lemma {:induction false} ParseInvertsPrint(es: seq<Entry>, after: string, clean: string -> string)
    requires (forall e :: e in es ==> Printable(e)) && '@' !in after
    ensures Entries(Print(es, after), clean) == MeantEntries(es, clean)
  {
    hide Entries, Printable, EntryOf, Meant;
    if es == [] {
      NothingReads(after, clean);
    } else {
      EntryReads(es[0], Print(es[1..], after), clean);
      BodyReads(es[0], clean);
      ParseInvertsPrint(es[1..], after, clean);
    }
  }

  lemma {:induction false} MeantNames(fs: seq<Field>, clean: string -> string)
    ensures Meant(fs, clean).Keys == set f | f in fs && f.value != "" :: SmallLetters(f.name)
  {
    if fs != [] {
      var k := |fs| - 1;
      MeantNames(fs[..k], clean);
      assert forall f :: f in fs <==> f in fs[..k] || f == fs[k];
    }
  }

  /** For distinct names and values that cleaning leaves alone, the fields come back exactly, but for empty ones. */
  lemma {:induction false} MeantIsTheFields(fs: seq<Field>, clean: string -> string)
    requires forall i, j :: 0 <= i < j < |fs| ==> SmallLetters(fs[i].name) != SmallLetters(fs[j].name)
    requires forall f :: f in fs ==> clean(f.value) == f.value
    ensures Meant(fs, clean).Keys == set f | f in fs && f.value != "" :: SmallLetters(f.name)
    ensures forall i :: 0 <= i < |fs| && fs[i].value != "" ==>
              SmallLetters(fs[i].name) in Meant(fs, clean) && Meant(fs, clean)[SmallLetters(fs[i].name)] == fs[i].value
  {
    hide SmallLetters;
    MeantNames(fs, clean);
    if fs != [] {
      var k := |fs| - 1;
      MeantIsTheFields(fs[..k], clean);
      assert fs[k] in fs;
      forall i | 0 <= i < k && fs[i].value != ""
        ensures SmallLetters(fs[i].name) in Meant(fs, clean)
        ensures Meant(fs, clean)[SmallLetters(fs[i].name)] == fs[i].value
      {
        assert fs[..k][i] == fs[i];
      }
    }
  }

  const CAPITALS := "ABCDEFGHIJKLMNOPQRSTUVWXYZ"
  const SMALL := "abcdefghijklmnopqrstuvwxyz"

  /** The same character, or a capital and its small letter. */
  predicate SameLetter(a: char, b: char) {
    a == b || exists k :: 0 <= k < 26 && ((a == CAPITALS[k] && b == SMALL[k]) || (a == SMALL[k] && b == CAPITALS[k]))
  }

  /** Two spellings of a name, up to the case of its letters. */
  predicate SameButForCase(a: string, b: string) {
    |a| == |b| && forall i :: 0 <= i < |a| ==> SameLetter(a[i], b[i])
  }

  lemma Alphabet(k: nat)
    requires k < 26
    ensures |CAPITALS| == |SMALL| == 26
    ensures CAPITALS[k] as int == 65 + k && SMALL[k] as int == 97 + k
  {
  }

  lemma SameLetterIsOneSmall(a: char, b: char)
    ensures SameLetter(a, b) <==> SmallLetters([a]) == SmallLetters([b])
  {
    var x, y := SmallLetters([a])[0], SmallLetters([b])[0];
    forall k: nat | k < 26 ensures CAPITALS[k] as int == 65 + k && SMALL[k] as int == 97 + k {
      Alphabet(k);
    }
    hide CAPITALS, SMALL;
    if x == y && a != b {
      var k := x as int - 97;
      assert (a == CAPITALS[k] && b == SMALL[k]) || (a == SMALL[k] && b == CAPITALS[k]);
    }
    assert [x] == SmallLetters([a]) && [y] == SmallLetters([b]);
  }

  /** Names are the same in small letters exactly if they are the same but for case. */
  lemma SameSmallLetters(a: string, b: string)
    ensures SameButForCase(a, b) <==> SmallLetters(a) == SmallLetters(b)
  {
    hide SameLetter;
    forall i | 0 <= i < |a| && i < |b|
      ensures SameLetter(a[i], b[i]) <==> SmallLetters(a)[i] == SmallLetters(b)[i]
    {
      SameLetterIsOneSmall(a[i], b[i]);
      assert SmallLetters([a[i]]) == [SmallLetters(a)[i]] && SmallLetters([b[i]]) == [SmallLetters(b)[i]];
    }
    if SmallLetters(a) == SmallLetters(b) {
      assert |a| == |SmallLetters(a)| && |b| == |SmallLetters(b)|;
    }
  }

  /** A later field that takes the place of `f`. */
  predicate Replaces(g: Field, f: Field) {
    g.value != "" && SmallLetters(g.name) == SmallLetters(f.name)
  }

  /** A field counts only if it is not empty and no later one takes its place. */
  lemma {:induction false} MeantWithout(front: seq<Field>, f: Field, back: seq<Field>, clean: string -> string)
    ensures Meant(front + [f] + back, clean)
         == if f.value == "" || exists g :: g in back && Replaces(g, f) then Meant(front + back, clean)
            else Meant(front + back, clean)[SmallLetters(f.name) := clean(f.value)]
    decreases |back|
  {
    hide SmallLetters, Meant;
    if back == [] {
      assert front + [f] + back == front + [f] && front + back == front;
      MeantStep(front, f, clean);
    } else {
      var k := |back| - 1;
      var g := back[k];
      MeantWithout(front, f, back[..k], clean);
      assert back == back[..k] + [g];
      OneReplaces(back, f);
      assert front + [f] + back == front + [f] + back[..k] + [g] && front + back == front + back[..k] + [g];
      MeantStep(front + [f] + back[..k], g, clean);
      MeantStep(front + back[..k], g, clean);
      TwoUpdates(Meant(front + back[..k], clean), SmallLetters(f.name), clean(f.value),
                 SmallLetters(g.name), clean(g.value));
    }
  }

  lemma OneReplaces(back: seq<Field>, f: Field)
    requires back != []
    ensures (exists g :: g in back && Replaces(g, f)) <==>
              (exists g :: g in back[..|back| - 1] && Replaces(g, f)) || Replaces(back[|back| - 1], f)
  {
    hide Replaces;
    var last := back[|back| - 1];
    assert last in back && forall g :: g in back <==> g in back[..|back| - 1] || g == last;
  }

  lemma TwoUpdates(fields: Fields, a: string, x: string, b: string, y: string)
    ensures a == b ==> fields[a := x][b := y] == fields[b := y]
    ensures a != b ==> fields[a := x][b := y] == fields[b := y][a := x]
  {
  }

  /**
   * Of two fields of an entry, wherever they stand, whose names differ only in case, reading keeps the later unless it
   * is empty: it gives what it would give without the earlier one, and holds the later one's value unless the name
   * comes a third time with a value.
   */
  lemma NameCaseDoesNotMatter(fs: seq<Field>, trail: string, junk: string, i: nat, j: nat, clean: string -> string)
    requires PrintableFields(fs, trail + junk) && IsLead(trail) && IsJunk(junk)
    requires i < j < |fs| && SameButForCase(fs[i].name, fs[j].name) && fs[j].value != ""
    ensures FieldsOf(PrintFields(fs, trail + junk), map[], clean) == Meant(fs[..i] + fs[i + 1..], clean)
    ensures (forall k :: j < k < |fs| && fs[k].value != "" ==> !SameButForCase(fs[k].name, fs[j].name)) ==>
              var read := FieldsOf(PrintFields(fs, trail + junk), map[], clean);
              SmallLetters(fs[i].name) in read && read[SmallLetters(fs[i].name)] == clean(fs[j].value)
  {
    hide FieldsOf, PrintFields, PrintableFields, SmallLetters, Meant, IsLead, IsJunk, SameButForCase;
    FieldsRead([], fs, trail, junk, clean);
    assert [] + fs == fs;
    NothingMeant(clean);
    SameSmallLetters(fs[i].name, fs[j].name);
    EarlierIsNotMeant(fs, i, j, clean);
    if forall k :: j < k < |fs| && fs[k].value != "" ==> !SameButForCase(fs[k].name, fs[j].name) {
      LastIsMeant(fs, j, clean);
    }
  }

  lemma EarlierIsNotMeant(fs: seq<Field>, i: nat, j: nat, clean: string -> string)
    requires i < j < |fs| && Replaces(fs[j], fs[i])
    ensures Meant(fs, clean) == Meant(fs[..i] + fs[i + 1..], clean)
  {
    hide Replaces, Meant;
    OneAfter(fs, i, j);
    MeantWithout(fs[..i], fs[i], fs[i + 1..], clean);
    Around(fs, i);
  }

  lemma OneAfter(fs: seq<Field>, i: nat, j: nat)
    requires i < j < |fs| && Replaces(fs[j], fs[i])
    ensures exists g :: g in fs[i + 1..] && Replaces(g, fs[i])
  {
    assert fs[i + 1..][j - i - 1] == fs[j];
  }

  lemma LastIsMeant(fs: seq<Field>, j: nat, clean: string -> string)
    requires j < |fs| && fs[j].value != ""
    requires forall k :: j < k < |fs| && fs[k].value != "" ==> !SameButForCase(fs[k].name, fs[j].name)
    ensures SmallLetters(fs[j].name) in Meant(fs, clean)
    ensures Meant(fs, clean)[SmallLetters(fs[j].name)] == clean(fs[j].value)
  {
    hide SmallLetters, Meant, Replaces, SameButForCase;
    MeantWithout(fs[..j], fs[j], fs[j + 1..], clean);
    NoneAfter(fs, j);
    Around(fs, j);
  }

  lemma Around(fs: seq<Field>, j: nat)
    requires j < |fs|
    ensures fs[..j] + [fs[j]] + fs[j + 1..] == fs
  {
  }

  lemma NoneAfter(fs: seq<Field>, j: nat)
    requires j < |fs|
    requires forall k :: j < k < |fs| && fs[k].value != "" ==> !SameButForCase(fs[k].name, fs[j].name)
    ensures !exists g :: g in fs[j + 1..] && Replaces(g, fs[j])
  {
    hide SmallLetters, SameButForCase;
    forall k | j < k < |fs| ensures !Replaces(fs[k], fs[j]) {
      SameSmallLetters(fs[k].name, fs[j].name);
    }
  }

  lemma NothingMeant(clean: string -> string)
    ensures Meant([], clean) == map[]
  {
  }

  // ---------------------------------------------------------------- text that stops early

  /** An entry or value whose brace is never closed is read to the end of the text, without its last character. */
  lemma {:induction false} UnclosedTextIsCut(before: string, kind: string, inside: string, clean: string -> string)
    requires '@' !in before && '{' !in kind && inside != "" && Level(inside, 1).Some?
    ensures Entries(before + ("@" + (kind + ("{" + inside))), clean) == EntryOf(inside[..|inside| - 1], clean)
    ensures Value("{" + inside) == (inside[..|inside| - 1], |inside| + 1)
  {
    hide CloseBrace, EntryOf, Entries, Level;
    EntryIsFound(before, kind, inside, clean);
    UnclosedIsReadToTheEnd(inside);
    NothingReads(inside[|inside|..], clean);
    assert ("{" + inside)[1..] == inside && ("{" + inside)[1..|inside|] == inside[..|inside| - 1];
  }

  lemma UnclosedIsReadToTheEnd(inside: string)
    requires Level(inside, 1).Some?
    ensures CloseBrace(inside, 1) == |inside|
  {
    CloseBraceReads(inside, "", 1);
    assert inside + "" == inside;
  }

  /** A quoted value whose quote is never closed is read to the end of the entry, whole. */
  lemma UnclosedQuoteIsRead(inside: string)
    requires forall i :: 0 <= i < |inside| && inside[i] == '\"' ==> i > 0 && inside[i - 1] == '\\'
    ensures Value("\"" + inside) == (inside, |inside| + 2)
  {
    var s := "\"" + inside;
    QuoteIsNotFound(s, 1);
    assert s[0] == '\"' && s[1..|s|] == inside;
  }

  lemma {:induction false} QuoteIsNotFound(s: string, at: nat)
    requires 0 < at <= |s| && forall i :: 1 <= i < |s| && s[i] == '\"' ==> s[i - 1] == '\\'
    ensures CloseQuote(s, at) == |s|
    decreases |s| - at
  {
    if at < |s| {
      QuoteIsNotFound(s, at + 1);
    }
  }
}
