/** The BibTeX reader of src/research_registry/external_ingest.py. */
module Bibtex {
  import opened PyText

  type Fields = map<string, string>

  /** `s[lo:hi]`, which is empty when the bounds cross. */
  function Slice(s: string, lo: nat, hi: int): string {
    if lo <= hi <= |s| then s[lo..hi] else ""
  }

  /** `s[n:]`, which is empty past the end. */
  function Drop(s: string, n: nat): (r: string)
    ensures |r| <= |s| && (n > 0 && s != "" ==> |r| < |s|)
  {
    if n <= |s| then s[n..] else ""
  }

  /** How many leading characters of `s` are in `chars`. */
  function Span(s: string, chars: char -> bool): (n: nat)
    ensures n <= |s|
  {
    if s != "" && chars(s[0]) then 1 + Span(s[1..], chars) else 0
  }

  const SEPARATOR := (c: char) => c in " \t\r\n,"
  const EQUALS := (c: char) => c in " \t\r\n="
  const KEY := (c: char) => 'A' <= c <= 'Z' || 'a' <= c <= 'z' || '0' <= c <= '9' || c == '_' || c == '-'
  const BARE := (c: char) => c !in ",\n"

  function LowerChar(c: char): char {
    if 'A' <= c <= 'Z' then c + ('a' - 'A') else c
  }

  function Lower(s: string): string {
    seq(|s|, i requires 0 <= i < |s| => LowerChar(s[i]))
  }

  function Deeper(c: char, depth: nat): nat
    requires depth > 0
  {
    if c == '{' then depth + 1 else if c == '}' then depth - 1 else depth
  }

  /** How many characters the brace loop reads: up to the one that brings the depth to zero, or all. */
  function CloseBrace(s: string, depth: nat): (n: nat)
    ensures n <= |s|
  {
    if s == "" || depth == 0 then 0 else 1 + CloseBrace(s[1..], Deeper(s[0], depth))
  }

  /** The first quote after position `at` that no backslash precedes, or the end. */
  function CloseQuote(s: string, at: nat): (n: nat)
    requires 0 < at <= |s|
    ensures at <= n <= |s|
    decreases |s| - at
  {
    if at == |s| || (s[at] == '\"' && s[at - 1] != '\\') then at else CloseQuote(s, at + 1)
  }

  /** The value at the front of `s`, and how far the cursor moves, possibly one past the end. */
  function Value(s: string): (r: (string, nat))
    requires s != ""
  {
    if s[0] == '{' then
      var n := 1 + CloseBrace(s[1..], 1);
      (Slice(s, 1, n - 1), n)
    else if s[0] == '\"' then
      var n := CloseQuote(s, 1);
      (s[1..n], n + 1)
    else
      (s[..Span(s, BARE)], Span(s, BARE))
  }

  function Put(fields: Fields, name: string, value: string, clean: string -> string): Fields {
    if value == "" then fields else fields[name := clean(value)]
  }

  /** The field list in `s`, added to `fields`. */
  function FieldsOf(s: string, fields: Fields, clean: string -> string): Fields
    decreases |s|
  {
    var named := s[Span(s, SEPARATOR)..];
    var key := Span(named, KEY);
    var valued := named[key..][Span(named[key..], EQUALS)..];
    if key == 0 || valued == "" then fields
    else FieldsOf(Drop(valued, Value(valued).1), Put(fields, Lower(named[..key]), Value(valued).0, clean), clean)
  }

  function EntryOf(body: string, clean: string -> string): seq<Fields> {
    var comma := Find(body, ",", 0);
    if comma == None then []
    else
      var fields := FieldsOf(body[comma.value + 1..], map[], clean);
      if fields == map[] then [] else [fields]
  }

  function Entries(s: string, clean: string -> string): seq<Fields>
    decreases |s|
  {
    var start := Find(s, "@", 0);
    if start == None then []
    else
      var brace := Find(s, "{", start.value);
      if brace == None then []
      else
        var rest := s[brace.value + 1..];
        var n := CloseBrace(rest, 1);
        EntryOf(Slice(rest, 0, n - 1), clean) + Entries(rest[n..], clean)
  }

  // ---------------------------------------------------------------- the code

  lemma {:induction false} SpanStep(s: string, chars: char -> bool, from: nat)
    requires from < |s|
    ensures Span(s[from..], chars) == if chars(s[from]) then 1 + Span(s[from + 1..], chars) else 0
  {
  }

  method ParseBibtexValue(body: string, index: nat) returns (value: string, next: nat)
    requires index < |body|
    ensures next >= index && (value, next - index) == Value(body[index..])
  {
    hide Span;
    if body[index] == '{' {
      var cursor := SkipBraces(body, index + 1);
      assert body[index..][1..] == body[index + 1..];
      assert Slice(body[index..], 1, cursor - 1 - index) == Slice(body, index + 1, cursor - 1);
      return Slice(body, index + 1, cursor - 1), cursor;
    }
    if body[index] == '\"' {
      var cursor := index + 1;
      while cursor < |body|
        invariant index < cursor <= |body|
        invariant CloseQuote(body[index..], 1) == CloseQuote(body[index..], cursor - index)
      {
        if body[cursor] == '\"' && body[cursor - 1] != '\\' {
          break;
        }
        cursor := cursor + 1;
      }
      assert body[index..][1..cursor - index] == body[index + 1..cursor];
      return body[index + 1..cursor], cursor + 1;
    }
    var cursor := index;
    while cursor < |body| && body[cursor] !in ",\n"
      invariant index <= cursor <= |body|
      invariant Span(body[index..], BARE) == cursor - index + Span(body[cursor..], BARE)
    {
      SpanStep(body, BARE, cursor);
      cursor := cursor + 1;
    }
    SpanEnds(body, BARE, cursor);
    assert body[index..][..cursor - index] == body[index..cursor];
    return body[index..cursor], cursor;
  }

  lemma SpanEnds(s: string, chars: char -> bool, from: nat)
    requires from <= |s| && (from < |s| ==> !chars(s[from]))
    ensures Span(s[from..], chars) == 0
  {
  }

  method Skip(body: string, from: nat, chars: char -> bool) returns (index: nat)
    requires from <= |body|
    ensures index == from + Span(body[from..], chars)
  {
    hide Span;
    index := from;
    while index < |body| && chars(body[index])
      invariant from <= index <= |body|
      invariant Span(body[from..], chars) == index - from + Span(body[index..], chars)
    {
      SpanStep(body, chars, index);
      index := index + 1;
    }
    SpanEnds(body, chars, index);
  }

  /** One field, read at an index of the body. */
  lemma {:induction false} FieldsAt(body: string, index: nat, fields: Fields, clean: string -> string, start: nat,
      end: nat, at: nat)
    requires index <= |body| && start == index + Span(body[index..], SEPARATOR)
    requires end == start + Span(body[start..], KEY) && at == end + Span(body[end..], EQUALS)
    ensures FieldsOf(body[index..], fields, clean)
         == if end == start || at >= |body| then fields
            else FieldsOf(Drop(body[at..], Value(body[at..]).1),
                          Put(fields, Lower(body[start..end]), Value(body[at..]).0, clean), clean)
  {
    hide Span, Value, Drop, Lower, Put, SEPARATOR, KEY, EQUALS;
    assert body[index..][start - index..] == body[start..];
    assert body[start..][end - start..] == body[end..] && body[start..][..end - start] == body[start..end];
    assert body[end..][at - end..] == body[at..];
  }

  lemma NoFields(fields: Fields, clean: string -> string)
    ensures FieldsOf("", fields, clean) == fields
  {
  }

  lemma DropAt(body: string, at: nat, n: nat)
    requires at <= |body|
    ensures Drop(body[at..], n) == Drop(body, at + n)
  {
  }

  /** Every round consumes a key character, so the loop ends on every text. */
  method ParseBibtexFields(body: string, clean: string -> string) returns (fields: Fields)
    ensures fields == FieldsOf(body, map[], clean)
  {
    hide Span, Value, CloseBrace, FieldsOf, SEPARATOR, KEY, EQUALS;
    fields := map[];
    var index: nat := 0;
    assert Drop(body, 0) == body;
    while index < |body|
      invariant FieldsOf(body, map[], clean) == FieldsOf(Drop(body, index), fields, clean)
      decreases |body| - index
    {
      var start := Skip(body, index, SEPARATOR);
      var end := Skip(body, start, KEY);
      var at := Skip(body, end, EQUALS);
      FieldsAt(body, index, fields, clean, start, end, at);
      if start >= |body| {
        return;
      }
      var key := Lower(body[start..end]);
      if key == "" || at >= |body| {
        return;
      }
      var value, next := ParseBibtexValue(body, at);
      DropAt(body, at, next - at);
      if value != "" {
        fields := fields[key := clean(value)];
      }
      index := next;
    }
    NoFields(fields, clean);
  }

  lemma FindFrom(s: string, from: nat, at: nat, needle: string)
    requires from <= at <= |s|
    ensures var found := Find(s, needle, at);
            Find(s[from..], needle, at - from) == if found == None then None else Some(found.value - from)
  {
    hide Find, Occurs;
    var rest := s[at..];
    assert s == s[..at] + rest && s[from..] == s[from..at] + rest;
    FindShifts(s[..at], rest, needle);
    FindShifts(s[from..at], rest, needle);
  }

  lemma SliceAt(s: string, lo: nat, hi: int)
    requires lo <= |s| && hi <= |s|
    ensures Slice(s[lo..], 0, hi - lo) == Slice(s, lo, hi)
  {
  }

  lemma FoundInside(s: string, needle: string, from: nat)
    requires Find(s, needle, from).Some? && needle != ""
    ensures Find(s, needle, from).value < |s|
  {
  }

  /** What the brace loop and the entry reader make of the text after an opening brace. */
  function FromBrace(rest: string, clean: string -> string): seq<Fields> {
    var n := CloseBrace(rest, 1);
    EntryOf(Slice(rest, 0, n - 1), clean) + Entries(rest[n..], clean)
  }

  lemma {:induction false} EntriesStep(s: string, start: nat, brace: nat, clean: string -> string)
    requires Find(s, "@", 0) == Some(start) && Find(s, "{", start) == Some(brace) && brace < |s|
    ensures Entries(s, clean) == FromBrace(s[brace + 1..], clean)
  {
    hide Find, Occurs, CloseBrace, EntryOf, Slice;
  }

  /** One entry, read at an index of the text; the brace loop stopped at `cursor`. */
  lemma {:induction false} EntriesAt(text: string, index: nat, start: nat, brace: nat, cursor: nat,
      clean: string -> string)
    requires index <= |text| && Find(text, "@", index) == Some(start) && Find(text, "{", start) == Some(brace)
    requires brace < cursor <= |text| && CloseBrace(text[brace + 1..], 1) == cursor - (brace + 1)
    ensures Entries(text[index..], clean) == EntryOf(Slice(text, brace + 1, cursor - 1), clean)
        + Entries(text[cursor..], clean)
  {
    hide Find, Occurs, CloseBrace, EntryOf, Entries, Slice;
    FindFrom(text, index, index, "@");
    FindFrom(text, index, start, "{");
    EntriesStep(text[index..], start - index, brace - index, clean);
    SliceAt(text, brace + 1, cursor - 1);
    assert text[index..][brace - index + 1..] == text[brace + 1..];
    assert text[brace + 1..][cursor - (brace + 1)..] == text[cursor..];
  }

  lemma {:induction false} NoEntries(text: string, index: nat, clean: string -> string)
    requires index <= |text|
    requires var start := Find(text, "@", index); start == None || Find(text, "{", start.value) == None
    ensures Entries(text[index..], clean) == []
  {
    hide Find, Occurs, CloseBrace, EntryOf;
    FindFrom(text, index, index, "@");
    var start := Find(text, "@", index);
    if start.Some? {
      FoundInside(text, "@", index);
      FindFrom(text, index, start.value, "{");
    }
  }

  method ParseBibtexEntries(text: string, clean: string -> string) returns (entries: seq<Fields>)
    ensures entries == Entries(text, clean)
  {
    hide Find, FieldsOf, Entries, CloseBrace;
    entries := [];
    var index: nat := 0;
    assert text[0..] == text;
    while true
      invariant index <= |text|
      invariant Entries(text, clean) == entries + Entries(text[index..], clean)
      decreases |text| - index
    {
      var start := Find(text, "@", index);
      if start == None {
        NoEntries(text, index, clean);
        break;
      }
      var brace := Find(text, "{", start.value);
      if brace == None {
        NoEntries(text, index, clean);
        break;
      }
      var cursor := SkipBraces(text, brace.value + 1);
      var body := Slice(text, brace.value + 1, cursor - 1);
      EntriesAt(text, index, start.value, brace.value, cursor, clean);
      index := cursor;
      var comma := Find(body, ",", 0);
      if comma == None {
        continue;
      }
      var fields := ParseBibtexFields(body[comma.value + 1..], clean);
      if fields != map[] {
        entries := entries + [fields];
      }
    }
  }

  /** The brace loop that both readers run. */
  method SkipBraces(text: string, from: nat) returns (cursor: nat)
    requires from <= |text|
    ensures from <= cursor <= |text| && cursor == from + CloseBrace(text[from..], 1)
  {
    var depth: nat := 1;
    cursor := from;
    while cursor < |text| && depth > 0
      invariant from <= cursor <= |text|
      invariant CloseBrace(text[from..], 1) == cursor - from + CloseBrace(text[cursor..], depth)
    {
      assert text[cursor..][1..] == text[cursor + 1..];
      if text[cursor] == '{' {
        depth := depth + 1;
      } else if text[cursor] == '}' {
        depth := depth - 1;
      }
      cursor := cursor + 1;
    }
  }
}
