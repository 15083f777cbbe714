/** The managed text block in Codex's config.toml: src/research_registry/local_manager.py and codex_install.py. */
module ManagedBlocks {
  import opened PyText

  const BEGIN := "# BEGIN research-registry managed mcp"
  const END := "# END research-registry managed mcp"
  const UNMANAGED := "[mcp_servers.researchRegistry]"

  // ---------------------------------------------------------------- the operations

  /** Two non-empty pieces of a list joined by a blank line; an empty piece is left out. */
  function Glue(a: string, b: string): string {
    if a == "" then b else if b == "" then a else a + "\n\n" + b
  }

  /** `s.lstrip("\n")` */
  function LstripNewlines(s: string): string {
    if s != "" && s[0] == '\n' then LstripNewlines(s[1..]) else s
  }

  predicate Managed(content: string) {
    Contains(content, BEGIN) && Contains(content, END)
  }

  /** The lines between the URL and the API key. */
  function RenderSettings(): (r: string)
    ensures '#' !in r
  {
    "\nenabled = true\n" + "startup_timeout_sec = 20\n" + "tool_timeout_sec = 60\n" + "\n"
    + "[mcp_servers.researchRegistry" + ".http_headers]\n" + "\"x-api-key\" = "
  }

  /** What `render_codex_mcp_block` puts between the marker lines. */
  function RenderTable(url: string, key: string): string {
    "[mcp_servers.researchRegistry]\nurl = " + "\"" + (url + "\"" + (RenderSettings() + "\"" + (key + "\"")))
  }

  function Block(body: string): string {
    BEGIN + "\n" + body + "\n" + END + "\n"
  }

  function RenderBlock(url: string, key: string): Result<string> {
    if key == "" then Err("managed local config is missing api_key") else Ok(Block(RenderTable(url, key)))
  }

  function Upsert(content: string, block: string): Result<string> {
    if Managed(content) then
      var start := Find(content, BEGIN, 0).value;
      var end := Find(content, END, 0).value + |END|;
      Ok(Glue(Rstrip(content[..start]), Glue(Rstrip(block), LstripNewlines(content[end..]))) + "\n")
    else if Contains(content, UNMANAGED) then Err("already defines the server table")
    else Ok(Padded(content) + block)
  }

  /** `upsert_managed_codex_config`, with the URL and the key of the managed config. */
  function UpsertConfig(content: string, url: string, key: string): Result<string> {
    var block := RenderBlock(url, key);
    if block.Err? then block else Upsert(content, block.value)
  }

  /** Content ends its last line, and text is followed by a blank line. */
  function Padded(content: string): string {
    var ended := if content != "" && content[|content| - 1] != '\n' then content + "\n" else content;
    if Strip(ended) != "" then ended + "\n" else ended
  }

  /** The end of the block that starts at the first begin marker; its absence raises. */
  function BlockEnd(content: string): (r: Option<nat>)
    requires Managed(content)
    ensures r.Some? ==> r.value <= |content| && Find(content, BEGIN, 0).value <= r.value
  {
    var start := Find(content, BEGIN, 0).value;
    var end := Find(content, END, start);
    if end == None then None else Some(end.value + |END|)
  }

  function Remove(content: string): Result<string> {
    if !Managed(content) then Ok(content)
    else if BlockEnd(content) == None then Err("substring not found")
    else
      var prefix := Rstrip(content[..Find(content, BEGIN, 0).value]);
      var suffix := LstripNewlines(content[BlockEnd(content).value..]);
      Ok(if prefix == "" && suffix == "" then "" else Glue(prefix, suffix) + "\n")
  }

  function Extract(content: string): Result<Option<string>> {
    if !Managed(content) then Ok(None)
    else if BlockEnd(content) == None then Err("substring not found")
    else Ok(Some(content[Find(content, BEGIN, 0).value..BlockEnd(content).value] + "\n"))
  }

  function Append(content: string, block: string): string {
    var prefix := Rstrip(content);
    if prefix == "" then block else prefix + "\n\n" + block
  }

  // ---------------------------------------------------------------- texts without markers

  predicate MarkerFree(s: string) {
    !Contains(s, BEGIN) && !Contains(s, END)
  }

  lemma MarkerFreeLines(a: string, b: string)
    ensures MarkerFree(a + "\n" + b) <==> MarkerFree(a) && MarkerFree(b)
  {
    hide Find;
    ContainsOnOneSide(a, '\n', b, BEGIN);
    ContainsOnOneSide(a, '\n', b, END);
  }

  lemma HashFreeIsMarkerFree(s: string)
    requires '#' !in s
    ensures MarkerFree(s)
  {
    hide Find;
    forall at: nat
      ensures !Occurs(s, BEGIN, at) && !Occurs(s, END, at)
    {
      if at < |s| {
        assert BEGIN[0] == '#' && END[0] == '#';
        assert at + |BEGIN| <= |s| ==> s[at..at + |BEGIN|][0] != '#';
        assert at + |END| <= |s| ==> s[at..at + |END|][0] != '#';
      }
    }
  }

  lemma PartIsMarkerFree(s: string, from: nat, to: nat)
    requires from <= to <= |s| && MarkerFree(s)
    ensures MarkerFree(s[from..to])
  {
    hide Find;
    if Contains(s[from..to], BEGIN) {
      ContainsInPart(s, from, to, BEGIN);
    }
    if Contains(s[from..to], END) {
      ContainsInPart(s, from, to, END);
    }
  }

  /** A rendered block holds no marker between its marker lines when the URL and the key hold none. */
  lemma RenderedTableIsMarkerFree(url: string, key: string)
    requires MarkerFree(url) && MarkerFree(key)
    ensures MarkerFree(RenderTable(url, key))
  {
    hide Find, MarkerFree, RenderSettings;
    var start := "[mcp_servers.researchRegistry]\nurl = ";
    HashFreeIsMarkerFree(start);
    HashFreeIsMarkerFree(RenderSettings());
    HashFreeIsMarkerFree("");
    QuotedIsMarkerFree(key, "");
    assert key + "\"" + "" == key + "\"";
    QuotedIsMarkerFree(RenderSettings(), key + "\"");
    QuotedIsMarkerFree(url, RenderSettings() + "\"" + (key + "\""));
    QuotedIsMarkerFree(start, url + "\"" + (RenderSettings() + "\"" + (key + "\"")));
  }

  lemma QuotedIsMarkerFree(a: string, b: string)
    requires MarkerFree(a) && MarkerFree(b)
    ensures MarkerFree(a + "\"" + b)
  {
    hide Find;
    ContainsOnOneSide(a, '\"', b, BEGIN);
    ContainsOnOneSide(a, '\"', b, END);
  }

  // ---------------------------------------------------------------- where the block is

  lemma MarkersAreLines()
    ensures |BEGIN| > 1 && |END| > 1 && '\n' !in BEGIN && '\n' !in END
  {
  }

  lemma MarkersDiffer(at: nat)
    ensures !Occurs(BEGIN, END, at) && !Occurs(END, BEGIN, at)
  {
    assert END[0] == '#' && END[2] == 'E';
    if at + |END| <= |BEGIN| {
      assert at <= 2 && BEGIN[at..at + |END|][0] == BEGIN[at] && BEGIN[at..at + |END|][2] == BEGIN[at + 2];
    }
  }

  lemma MarkersAreApart()
    ensures |BEGIN| > 1 && |END| > 1 && '\n' !in BEGIN && '\n' !in END
    ensures !Contains(BEGIN, END) && !Contains(END, BEGIN)
  {
    hide Find, Occurs, BEGIN, END;
    MarkersAreLines();
    forall at: nat
      ensures !Occurs(BEGIN, END, at) && !Occurs(END, BEGIN, at)
    {
      MarkersDiffer(at);
    }
  }

  /** A block without the newline after it. */
  function Marked(body: string): string {
    BEGIN + "\n" + body + "\n" + END
  }

  lemma MarkedSearch(body: string, tail: string)
    requires MarkerFree(body)
    ensures |Marked(body)| > |END|
    ensures Find(Marked(body) + tail, BEGIN, 0) == Some(0)
    ensures Find(Marked(body) + tail, END, 0) == Some(|Marked(body)| - |END|)
  {
    hide Find, BEGIN, END;
    MarkersAreApart();
    var rest := body + ['\n'] + (END + tail);
    var text := Marked(body) + tail;
    FindIsFirst(text, BEGIN, 0);
    FindIsFirst(text, END, 0);
    FindIsFirst(BEGIN, END, 0);
    FindIsFirst(body, END, 0);
    assert text == BEGIN + ['\n'] + rest;
    assert text[..|BEGIN|] == BEGIN && Occurs(text, BEGIN, 0);
    var end := |Marked(body)| - |END|;
    assert text[end..end + |END|] == END && Occurs(text, END, end);
    forall at: nat | at < end
      ensures !Occurs(text, END, at)
    {
      OccursOnOneSide(BEGIN, '\n', rest, END, at);
      if |BEGIN| < at {
        OccursOnOneSide(body, '\n', END + tail, END, at - |BEGIN| - 1);
      }
    }
  }

  lemma Slices(head: string, middle: string, tail: string)
    ensures var s := head + (middle + tail);
            s[..|head|] == head && s[|head|..|head| + |middle|] == middle && s[|head| + |middle|..] == tail
  {
  }

  /** The searches of removal and extraction find exactly the block that follows text without a begin marker. */
  lemma {:induction false} BlockIsFound(head: string, body: string, tail: string)
    requires WholeLines(head) && !Contains(head, BEGIN) && MarkerFree(body)
    ensures |Marked(body)| > |END|
    ensures Find(head + (Marked(body) + tail), BEGIN, 0) == Some(|head|)
    ensures Find(head + (Marked(body) + tail), END, |head|) == Some(|head| + |Marked(body)| - |END|)
  {
    hide Find, BEGIN, END, Marked, MarkerFree, WholeLines, Occurs;
    MarkersAreApart();
    MarkedSearch(body, tail);
    FindShifts(head, Marked(body) + tail, BEGIN);
    FindShifts(head, Marked(body) + tail, END);
    FindSkipsLines(head, Marked(body) + tail, BEGIN);
  }
}
