/** The rendered block read line by line: the URL and the key stand where Codex looks for them. */
module ManagedBlockSettings {
  import opened PyText
  import opened ManagedBlocks

  /** `s.split("\n")` */
  function Lines(s: string): (lines: seq<string>)
    ensures lines != []
  {
    if s == "" then [""]
    else if s[0] == '\n' then [""] + Lines(s[1..])
    else var rest := Lines(s[1..]); [[s[0]] + rest[0]] + rest[1..]
  }

  lemma {:induction false} LastLine(a: string)
    requires '\n' !in a
    ensures Lines(a) == [a]
  {
    if a != "" {
      LastLine(a[1..]);
      assert [a[0]] + a[1..] == a && [a[1..]][1..] == [];
    }
  }

  lemma {:induction false} FirstLine(a: string, b: string)
    requires '\n' !in a
    ensures Lines(a + ("\n" + b)) == [a] + Lines(b)
  {
    var s := a + ("\n" + b);
    if a == "" {
      assert s == "\n" + b && s[1..] == b;
    } else {
      assert s[0] == a[0] && s[1..] == a[1..] + ("\n" + b);
      FirstLine(a[1..], b);
      assert [a[0]] + a[1..] == a && ([a[1..]] + Lines(b))[1..] == Lines(b);
    }
  }

  lemma LineOf(text: string, line: string, rest: string)
    requires text == line + "\n" && '\n' !in line
    ensures Lines(text + rest) == [line] + Lines(rest)
  {
    assert text + rest == line + ("\n" + rest);
    FirstLine(line, rest);
  }

  /** The value of the first line `name = "value"`. */
  function Setting(lines: seq<string>, name: string): Option<string> {
    if lines == [] then None
    else
      var line := lines[0];
      if name + " = \"" <= line && |name| + 4 < |line| && line[|line| - 1] == '\"' then
        Some(line[|name| + 4..|line| - 1])
      else Setting(lines[1..], name)
  }

  lemma SettingHere(rest: seq<string>, name: string, value: string)
    ensures Setting([name + " = \"" + value + "\""] + rest, name) == Some(value)
  {
    var line := name + " = \"" + value + "\"";
    assert line[|name| + 4..|line| - 1] == value;
  }

  lemma SettingLater(line: string, rest: seq<string>, name: string)
    requires !(name + " = \"" <= line)
    ensures Setting([line] + rest, name) == Setting(rest, name)
  {
    assert ([line] + rest)[1..] == rest;
  }

  // ---------------------------------------------------------------- the block

  const URL_NAME := "url"
  const KEY_NAME := "\"x-api-key\""

  function UrlLine(url: string): string { URL_NAME + " = \"" + url + "\"" }

  function KeyLine(key: string): string { KEY_NAME + " = \"" + key + "\"" }

  /** What follows the line of the URL. */
  function AfterUrl(key: string): string {
    "enabled = true\n" + ("startup_timeout_sec = 20\n" + ("tool_timeout_sec = 60\n" + ("\n"
    + ("[mcp_servers.researchRegistry.http_headers]\n" + (KeyLine(key) + ("\n" + (END + "\n")))))))
  }

  lemma SettingsAreLines(key: string, rest: string)
    ensures RenderSettings() + "\"" + (key + "\"") + rest
         == "\n" + ("enabled = true\n" + ("startup_timeout_sec = 20\n" + ("tool_timeout_sec = 60\n" + ("\n"
            + ("[mcp_servers.researchRegistry.http_headers]\n" + (KeyLine(key) + rest))))))
  {
    var a, b, c, d := "\nenabled = true\n", "startup_timeout_sec = 20\n", "tool_timeout_sec = 60\n", "\n";
    var e, f, g := "[mcp_servers.researchRegistry", ".http_headers]\n", "\"x-api-key\" = ";
    assert RenderSettings() == a + b + c + d + e + f + g;
    var first, table, name := "enabled = true\n", "[mcp_servers.researchRegistry.http_headers]\n", KEY_NAME + " = \"";
    assert a == "\n" + first && e + f == table && g + "\"" == name;
    assert KeyLine(key) == name + key + "\"";
    hide RenderSettings, KeyLine;
    RegroupSettings(a, b, c, d, e, f, g, key, rest, first, table, name);
  }

  lemma RegroupSettings(a: string, b: string, c: string, d: string, e: string, f: string, g: string, key: string,
                        rest: string, first: string, table: string, name: string)
    requires a == "\n" + first && e + f == table && g + "\"" == name
    ensures a + b + c + d + e + f + g + "\"" + (key + "\"") + rest
         == "\n" + (first + (b + (c + (d + (table + (name + key + "\"" + rest))))))
  {
    assert a + b + c + d + e + f + g + "\"" == a + b + c + d + (e + f) + (g + "\"");
  }

  lemma BlockIsLines(url: string, key: string)
    ensures Block(RenderTable(url, key))
         == BEGIN + ("\n" + ("[mcp_servers.researchRegistry]\n" + (UrlLine(url) + ("\n" + AfterUrl(key)))))
  {
    var start, table, name := "[mcp_servers.researchRegistry]\nurl = ", "[mcp_servers.researchRegistry]\n", "url = ";
    var rest := "\n" + (END + "\n");
    SettingsAreLines(key, rest);
    assert start == table + name;
    assert UrlLine(url) == name + "\"" + url + "\"";
    var body, settings := RenderTable(url, key), RenderSettings();
    assert body == start + "\"" + (url + "\"" + (settings + "\"" + (key + "\"")));
    assert Block(body) == BEGIN + "\n" + body + "\n" + END + "\n";
    assert "\n" + AfterUrl(key) == settings + "\"" + (key + "\"") + rest;
    hide RenderTable, RenderSettings, BEGIN, END, KeyLine, UrlLine, Block, AfterUrl;
    RegroupBlock(BEGIN, start, table, name, url, settings, key, END, body);
  }

  lemma RegroupBlock(begin: string, start: string, table: string, name: string, url: string, settings: string,
                     key: string, end: string, body: string)
    requires start == table + name && body == start + "\"" + (url + "\"" + (settings + "\"" + (key + "\"")))
    ensures begin + "\n" + body + "\n" + end + "\n"
         == begin + ("\n" + (table + (name + "\"" + url + "\""
                     + (settings + "\"" + (key + "\"") + ("\n" + (end + "\n"))))))
  {
    assert body == table + (name + "\"" + url + "\"" + (settings + "\"" + (key + "\"")));
  }

  /** A line that begins with another character than the name does not set it. */
  lemma SkipLine(text: string, line: string, rest: string, name: string)
    requires text == line + "\n" && '\n' !in line && name != "" && (line == "" || line[0] != name[0])
    ensures Setting(Lines(text + rest), name) == Setting(Lines(rest), name)
  {
    LineOf(text, line, rest);
    assert (name + " = \"")[0] == name[0];
    SettingLater(line, Lines(rest), name);
  }

  lemma FoundLine(name: string, value: string, rest: string)
    requires '\n' !in name && '\n' !in value
    ensures Setting(Lines(name + " = \"" + value + "\"" + ("\n" + rest)), name) == Some(value)
  {
    FirstLine(name + " = \"" + value + "\"", rest);
    SettingHere(Lines(rest), name, value);
  }

  /** A whole line, and its first character is not the one given. */
  predicate IsOther(text: string, line: string, c: char) {
    text == line + "\n" && '\n' !in line && (line == "" || line[0] != c)
  }

  lemma SkipLines(a: string, x: string, b: string, y: string, rest: string, name: string)
    requires name != "" && IsOther(a, x, name[0]) && IsOther(b, y, name[0])
    ensures Setting(Lines(a + (b + rest)), name) == Setting(Lines(rest), name)
  {
    SkipLine(a, x, b + rest, name);
    SkipLine(b, y, rest, name);
  }

  lemma KeyBehind(a: string, x: string, b: string, y: string, c: string, z: string, d: string, u: string, e: string,
                  v: string, name: string, key: string, last: string)
    requires name != "" && '\n' !in name && '\n' !in key
    requires IsOther(a, x, name[0]) && IsOther(b, y, name[0]) && IsOther(c, z, name[0]) && IsOther(d, u, name[0])
    requires IsOther(e, v, name[0])
    ensures Setting(Lines(a + (b + (c + (d + (e + (name + " = \"" + key + "\"" + ("\n" + last))))))), name) == Some(key)
  {
    hide Setting, Lines, IsOther;
    var found := name + " = \"" + key + "\"" + ("\n" + last);
    SkipLines(a, x, b, y, c + (d + (e + found)), name);
    SkipLines(c, z, d, u, e + found, name);
    LineSkipped(e, v, found, name);
    FoundLine(name, key, last);
  }

  lemma LineSkipped(e: string, v: string, rest: string, name: string)
    requires name != "" && IsOther(e, v, name[0])
    ensures Setting(Lines(e + rest), name) == Setting(Lines(rest), name)
  {
    SkipLine(e, v, rest, name);
  }

  lemma SettingLines()
    ensures IsOther("enabled = true\n", "enabled = true", '\"')
    ensures IsOther("startup_timeout_sec = 20\n", "startup_timeout_sec = 20", '\"')
    ensures IsOther("tool_timeout_sec = 60\n", "tool_timeout_sec = 60", '\"')
    ensures IsOther("\n", "", '\"')
  {
  }

  lemma TableLines()
    ensures IsOther("[mcp_servers.researchRegistry.http_headers]\n", "[mcp_servers.researchRegistry.http_headers]",
                    '\"')
    ensures forall c :: c != '[' ==>
              IsOther("[mcp_servers.researchRegistry]\n", "[mcp_servers.researchRegistry]", c)
  {
  }

  lemma KeyIsRead(key: string)
    requires '\n' !in key
    ensures Setting(Lines(AfterUrl(key)), KEY_NAME) == Some(key)
  {
    SettingLines();
    TableLines();
    assert KEY_NAME[0] == '\"' && '\n' !in KEY_NAME;
    KeyText(key);
    hide AfterUrl, KeyLine, KEY_NAME, Lines, Setting, IsOther, END;
    KeyBehind("enabled = true\n", "enabled = true", "startup_timeout_sec = 20\n", "startup_timeout_sec = 20",
              "tool_timeout_sec = 60\n", "tool_timeout_sec = 60", "\n", "",
              "[mcp_servers.researchRegistry.http_headers]\n", "[mcp_servers.researchRegistry.http_headers]",
              KEY_NAME, key, END + "\n");
  }

  lemma KeyText(key: string)
    ensures AfterUrl(key)
         == "enabled = true\n" + ("startup_timeout_sec = 20\n" + ("tool_timeout_sec = 60\n" + ("\n"
            + ("[mcp_servers.researchRegistry.http_headers]\n"
               + (KEY_NAME + " = \"" + key + "\"" + ("\n" + (END + "\n")))))))
  {
    hide KEY_NAME, END;
  }

  lemma BeginLine(c: char)
    requires c != '#'
    ensures IsOther(BEGIN + "\n", BEGIN, c)
  {
    MarkersAreLines();
    assert BEGIN[0] == '#';
    hide BEGIN;
  }

  /** The lines before the URL's set nothing. */
  lemma FrontIsSkipped(name: string, rest: string)
    requires name != "" && name[0] != '#' && name[0] != '['
    ensures Setting(Lines(BEGIN + ("\n" + ("[mcp_servers.researchRegistry]\n" + rest))), name)
        == Setting(Lines(rest), name)
  {
    BeginLine(name[0]);
    TableLines();
    hide BEGIN, Lines, Setting, IsOther;
    SkipLines(BEGIN + "\n", BEGIN, "[mcp_servers.researchRegistry]\n", "[mcp_servers.researchRegistry]", rest, name);
    assert BEGIN + ("\n" + ("[mcp_servers.researchRegistry]\n" + rest))
        == BEGIN + "\n" + ("[mcp_servers.researchRegistry]\n" + rest);
  }

  lemma UrlText(url: string)
    requires '\n' !in url
    ensures UrlLine(url) == URL_NAME + " = \"" + url + "\"" && '\n' !in URL_NAME && '\n' !in UrlLine(url)
    ensures URL_NAME == "url" && URL_NAME[0] == 'u' && UrlLine(url)[0] == 'u'
    ensures KEY_NAME == "\"x-api-key\"" && KEY_NAME[0] == '\"'
  {
  }

  /** The rendered block, up to and behind the line of the URL. */
  function Rendered(url: string, key: string): string {
    BEGIN + ("\n" + ("[mcp_servers.researchRegistry]\n" + (UrlLine(url) + ("\n" + AfterUrl(key)))))
  }

  lemma OtherLine(line: string, rest: string, name: string)
    requires '\n' !in line && line != "" && name != "" && line[0] != name[0]
    ensures Setting(Lines(line + ("\n" + rest)), name) == Setting(Lines(rest), name)
  {
    hide Lines, Setting;
    SkipLine(line + "\n", line, rest, name);
    assert line + "\n" + rest == line + ("\n" + rest);
  }

  lemma UrlIsFound(url: string, key: string)
    requires '\n' !in url
    ensures Setting(Lines(Rendered(url, key)), URL_NAME) == Some(url)
  {
    UrlText(url);
    hide BEGIN, AfterUrl, Lines, Setting, UrlLine, URL_NAME, KEY_NAME;
    FrontIsSkipped(URL_NAME, UrlLine(url) + ("\n" + AfterUrl(key)));
    FoundLine(URL_NAME, url, AfterUrl(key));
  }

  lemma KeyIsFound(url: string, key: string)
    requires '\n' !in url && '\n' !in key
    ensures Setting(Lines(Rendered(url, key)), KEY_NAME) == Some(key)
  {
    UrlText(url);
    KeyIsRead(key);
    hide BEGIN, AfterUrl, Lines, Setting, UrlLine, URL_NAME, KEY_NAME;
    FrontIsSkipped(KEY_NAME, UrlLine(url) + ("\n" + AfterUrl(key)));
    OtherLine(UrlLine(url), AfterUrl(key), KEY_NAME);
  }

  /** Reading the rendered block's settings gives the URL back as `url` and the key as `x-api-key`. */
  lemma RenderedSettingsAreRead(url: string, key: string)
    requires '\n' !in url && '\n' !in key && key != ""
    ensures RenderBlock(url, key).Ok?
    ensures Setting(Lines(RenderBlock(url, key).value), "url") == Some(url)
    ensures Setting(Lines(RenderBlock(url, key).value), "\"x-api-key\"") == Some(key)
  {
    BlockIsLines(url, key);
    UrlIsFound(url, key);
    KeyIsFound(url, key);
    UrlText(url);
    hide BEGIN, END, AfterUrl, Lines, Block, RenderTable, Setting, UrlLine, URL_NAME, KEY_NAME;
  }
}
