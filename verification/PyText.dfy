/** Wrappers and the Python string operations the modelled code relies on. */
module PyText {

  datatype Option<+T> = None | Some(value: T)

  datatype Result<+T> = Ok(value: T) | Err(message: string)

  /** The characters `str.strip()` removes when it is called without an argument. */
  predicate IsSpace(c: char) {
    || '\t' <= c <= '\r'
    || '\U{1C}' <= c <= ' '
    || c == '\U{85}' || c == '\U{A0}' || c == '\U{1680}'
    || '\U{2000}' <= c <= '\U{200A}'
    || c == '\U{2028}' || c == '\U{2029}' || c == '\U{202F}' || c == '\U{205F}' || c == '\U{3000}'
  }

  predicate AllSpace(s: string) {
    forall i :: 0 <= i < |s| ==> IsSpace(s[i])
  }

  function Lstrip(s: string): string {
    if s != [] && IsSpace(s[0]) then Lstrip(s[1..]) else s
  }

  function Rstrip(s: string): string {
    if s != [] && IsSpace(s[|s| - 1]) then Rstrip(s[..|s| - 1]) else s
  }

  function Strip(s: string): string {
    Rstrip(Lstrip(s))
  }

  /** Removing leading whitespace cuts off a run of whitespace and nothing else. */
  lemma LstripCuts(s: string) returns (lead: string)
    ensures s == lead + Lstrip(s) && AllSpace(lead)
    ensures Lstrip(s) != [] ==> !IsSpace(Lstrip(s)[0])
  {
    if s != [] && IsSpace(s[0]) {
      var rest := LstripCuts(s[1..]);
      lead := [s[0]] + rest;
    } else {
      lead := [];
    }
  }

  /** Removing trailing whitespace cuts off a run of whitespace and nothing else. */
  lemma RstripCuts(s: string) returns (trail: string)
    ensures s == Rstrip(s) + trail && AllSpace(trail)
    ensures Rstrip(s) != [] ==> !IsSpace(Rstrip(s)[|Rstrip(s)| - 1])
  {
    if s != [] && IsSpace(s[|s| - 1]) {
      var rest := RstripCuts(s[..|s| - 1]);
      trail := rest + [s[|s| - 1]];
    } else {
      trail := [];
    }
  }

  lemma {:induction false} LstripSkips(lead: string, s: string)
    requires AllSpace(lead)
    ensures Lstrip(lead + s) == Lstrip(s)
  {
    if lead == [] {
      assert lead + s == s;
    } else {
      assert (lead + s)[1..] == lead[1..] + s;
      LstripSkips(lead[1..], s);
    }
  }

  lemma {:induction false} RstripSkips(s: string, trail: string)
    requires AllSpace(trail)
    ensures Rstrip(s + trail) == Rstrip(s)
  {
    if trail == [] {
      assert s + trail == s;
    } else {
      var k := |trail| - 1;
      assert (s + trail)[..|s + trail| - 1] == s + trail[..k];
      RstripSkips(s, trail[..k]);
    }
  }

  /** Stripping any text bordered by whitespace gives the text between, up to its own borders. */
  lemma StripAround(lead: string, s: string, trail: string)
    requires AllSpace(lead) && AllSpace(trail)
    ensures Strip(lead + s + trail) == Strip(s)
  {
    assert lead + s + trail == lead + (s + trail);
    LstripSkips(lead, s + trail);
    var ls := LstripCuts(s);
    if Lstrip(s) == [] {
      assert s + trail == ls + trail;
      LstripSkips(ls + trail, []);
      assert ls + trail + [] == ls + trail;
    } else {
      assert s + trail == ls + (Lstrip(s) + trail);
      LstripSkips(ls, Lstrip(s) + trail);
      RstripSkips(Lstrip(s), trail);
    }
  }

  lemma BlankStrips(s: string)
    ensures AllSpace(s) <==> Strip(s) == []
  {
    if AllSpace(s) {
      LstripSkips(s, []);
      assert s + [] == s;
    }
    if Strip(s) == [] {
      var lead := LstripCuts(s);
      var trail := RstripCuts(Lstrip(s));
      assert s == lead + trail;
    }
  }

  predicate Occurs(s: string, needle: string, at: nat) {
    at + |needle| <= |s| && s[at..at + |needle|] == needle
  }

  /** `s.index(needle, from)`: the first occurrence at or after `from`, or `None`. */
  function Find(s: string, needle: string, from: nat): (r: Option<nat>)
    ensures r.Some? ==> from <= r.value && Occurs(s, needle, r.value)
    decreases |s| - from
  {
    if from + |needle| > |s| then None
    else if s[from..from + |needle|] == needle then Some(from)
    else Find(s, needle, from + 1)
  }

  /** The search finds the first occurrence, and nothing only where there is none. */
  lemma {:induction false} FindIsFirst(s: string, needle: string, from: nat)
    ensures var found := Find(s, needle, from);
            && (found.Some? ==> forall at: nat :: from <= at < found.value ==> !Occurs(s, needle, at))
            && (found.None? ==> forall at: nat :: from <= at ==> !Occurs(s, needle, at))
    decreases |s| - from
  {
    if from + |needle| <= |s| && s[from..from + |needle|] != needle {
      FindIsFirst(s, needle, from + 1);
    }
  }

  /** `needle in s` */
  predicate Contains(s: string, needle: string) {
    Find(s, needle, 0).Some?
  }

  /** An occurrence cannot cross a character the needle does not hold. */
  lemma OccursOnOneSide(a: string, sep: char, b: string, needle: string, at: nat)
    requires needle != [] && sep !in needle
    ensures Occurs(a + [sep] + b, needle, at)
       <==> Occurs(a, needle, at) || (|a| < at && Occurs(b, needle, at - |a| - 1))
  {
    var s := a + [sep] + b;
    if at <= |a| < at + |needle| <= |s| {
      assert s[at..at + |needle|][|a| - at] == sep;
    } else if at + |needle| <= |a| {
      assert s[at..at + |needle|] == a[at..at + |needle|];
    } else if |a| < at && at + |needle| <= |s| {
      assert s[at..at + |needle|] == b[at - |a| - 1..at - |a| - 1 + |needle|];
    }
  }

  lemma ContainsOnOneSide(a: string, sep: char, b: string, needle: string)
    requires needle != [] && sep !in needle
    ensures Contains(a + [sep] + b, needle) <==> Contains(a, needle) || Contains(b, needle)
  {
    hide Find;
    var s := a + [sep] + b;
    FindIsFirst(s, needle, 0);
    FindIsFirst(a, needle, 0);
    FindIsFirst(b, needle, 0);
    if Contains(s, needle) {
      OccursOnOneSide(a, sep, b, needle, Find(s, needle, 0).value);
    }
    if Contains(a, needle) {
      OccursOnOneSide(a, sep, b, needle, Find(a, needle, 0).value);
    }
    if Contains(b, needle) {
      OccursOnOneSide(a, sep, b, needle, |a| + 1 + Find(b, needle, 0).value);
    }
  }

  lemma ContainsInPart(s: string, from: nat, to: nat, needle: string)
    requires from <= to <= |s| && Contains(s[from..to], needle)
    ensures Contains(s, needle)
  {
    hide Find;
    FindIsFirst(s, needle, 0);
    var part := s[from..to];
    var at := Find(part, needle, 0).value;
    assert forall k :: 0 <= k < |part| ==> part[k] == s[from + k];
    assert s[from + at..from + at + |needle|] == part[at..at + |needle|];
    assert Occurs(s, needle, from + at);
  }

  lemma OccursShifts(head: string, rest: string, needle: string, at: nat)
    ensures Occurs(head + rest, needle, |head| + at) <==> Occurs(rest, needle, at)
  {
  }

  lemma OccursInPrefix(s: string, rest: string, needle: string, at: nat)
    requires at + |needle| <= |s|
    ensures Occurs(s + rest, needle, at) <==> Occurs(s, needle, at)
  {
    assert (s + rest)[at..at + |needle|] == s[at..at + |needle|];
  }

  /** Searching from the end of a prefix is searching what follows it. */
  lemma {:induction false} FindShifts(head: string, rest: string, needle: string)
    ensures var found := Find(rest, needle, 0);
            Find(head + rest, needle, |head|) == if found == None then None else Some(|head| + found.value)
  {
    hide Find, Occurs;
    var found, shifted := Find(rest, needle, 0), Find(head + rest, needle, |head|);
    FindIsFirst(rest, needle, 0);
    FindIsFirst(head + rest, needle, |head|);
    if found.Some? {
      OccursShifts(head, rest, needle, found.value);
    }
    if shifted.Some? {
      OccursShifts(head, rest, needle, shifted.value - |head|);
    }
  }

  /** Text that can stand before a line: nothing, or whole lines. */
  predicate WholeLines(head: string) {
    head == "" || head[|head| - 1] == '\n'
  }

  /** A search that finds nothing in whole lines goes on in the line after them. */
  lemma FindSkipsLines(head: string, rest: string, needle: string)
    requires WholeLines(head) && needle != [] && '\n' !in needle && !Contains(head, needle)
    ensures Find(head + rest, needle, 0) == Find(head + rest, needle, |head|)
  {
    hide Find;
    FindIsFirst(head, needle, 0);
    FindIsFirst(head + rest, needle, 0);
    FindIsFirst(head + rest, needle, |head|);
    forall at: nat | at < |head|
      ensures !Occurs(head + rest, needle, at)
    {
      var line := head[..|head| - 1];
      assert head + rest == line + ['\n'] + rest;
      OccursOnOneSide(line, '\n', rest, needle, at);
      if at + |needle| <= |line| {
        assert head[at..at + |needle|] == line[at..at + |needle|];
        assert !Occurs(head, needle, at);
      }
    }
  }
}
