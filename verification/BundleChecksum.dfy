/** `_bundle_checksum` of src/research_registry/migration_runner.py: the byte stream a migration's checksum digests. */
module BundleChecksums {
  import opened PyText

  type Byte = b: int | 0 <= b < 256

  type Bytes = seq<Byte>

  const CR: Byte := 13
  const LF: Byte := 10

  /** One file of a migration bundle: its UTF-8 encoded name and content. */
  datatype Component = Component(name: Bytes, content: Bytes)

  // ---------------------------------------------------------------- newline normalization

  /** `bytes.replace(old, new)`: left to right, without overlaps. */
  function Replace(s: Bytes, old_: Bytes, new_: Bytes): Bytes
    requires old_ != []
  {
    if |s| < |old_| then s
    else if s[..|old_|] == old_ then new_ + Replace(s[|old_|..], old_, new_)
    else [s[0]] + Replace(s[1..], old_, new_)
  }

  function Normalize(content: Bytes): Bytes {
    Replace(Replace(content, [CR, LF], [LF]), [CR], [LF])
  }

  /** The lines of a text, whichever of LF, CR and CR LF ends each of them. */
  function Lines(content: Bytes): (lines: seq<Bytes>)
    ensures lines != []
  {
    if content == [] then [[]]
    else if content[0] == CR && |content| > 1 && content[1] == LF then [[]] + Lines(content[2..])
    else if content[0] in {CR, LF} then [[]] + Lines(content[1..])
    else var rest := Lines(content[1..]); [[content[0]] + rest[0]] + rest[1..]
  }

  function JoinLines(lines: seq<Bytes>): Bytes
    requires lines != []
  {
    if |lines| == 1 then lines[0] else lines[0] + [LF] + JoinLines(lines[1..])
  }

  lemma JoinSingle(line: Bytes)
    ensures JoinLines([line]) == line
  {
  }

  lemma JoinPrepends(first: Bytes, rest: seq<Bytes>)
    requires rest != []
    ensures JoinLines([first] + rest) == first + [LF] + JoinLines(rest)
  {
  }

  lemma JoinExtends(c: Byte, lines: seq<Bytes>)
    requires lines != []
    ensures JoinLines([[c] + lines[0]] + lines[1..]) == [c] + JoinLines(lines)
  {
  }

  /** How normalization reads the front of a text. */
  lemma NormalizeStep(content: Bytes)
    requires content != []
    ensures Normalize(content)
         == if [CR, LF] <= content then [LF] + Normalize(content[2..])
            else [if content[0] == CR then LF else content[0]] + Normalize(content[1..])
  {
  }

  /** The two replacement passes together join the text's lines with LF. */
  lemma {:induction false} NormalizeJoinsLines(content: Bytes)
    ensures Normalize(content) == JoinLines(Lines(content))
  {
    hide JoinLines, Normalize;
    if content == [] {
      JoinSingle([]);
      NormalizeEmpty();
    } else {
      NormalizeStep(content);
      var skip := if [CR, LF] <= content then 2 else 1;
      var rest := Lines(content[skip..]);
      NormalizeJoinsLines(content[skip..]);
      if content[0] in {CR, LF} {
        JoinPrepends([], rest);
      } else {
        JoinExtends(content[0], rest);
      }
    }
  }

  lemma NormalizeEmpty()
    ensures Normalize([]) == []
  {
  }

  /** Joined lines split back into the same lines, and hold no CR. */
  lemma {:induction false} LinesOfJoin(content: Bytes)
    ensures Lines(JoinLines(Lines(content))) == Lines(content)
    ensures CR !in JoinLines(Lines(content))
  {
    hide JoinLines;
    if content == [] {
      JoinSingle([]);
    } else if content[0] in {CR, LF} {
      var skip := if content[0] == CR && |content| > 1 && content[1] == LF then 2 else 1;
      var rest := Lines(content[skip..]);
      LinesOfJoin(content[skip..]);
      JoinPrepends([], rest);
      assert ([LF] + JoinLines(rest))[1..] == JoinLines(rest);
    } else {
      var rest := Lines(content[1..]);
      LinesOfJoin(content[1..]);
      JoinExtends(content[0], rest);
      assert ([content[0]] + JoinLines(rest))[1..] == JoinLines(rest);
    }
  }

  /** Normalization forgets which newline ends a line, and nothing else. */
  lemma {:induction false} NormalizeKeepsExactlyTheLines(a: Bytes, b: Bytes)
    ensures Normalize(a) == Normalize(b) <==> Lines(a) == Lines(b)
    ensures Lines(Normalize(a)) == Lines(a) && Normalize(Normalize(a)) == Normalize(a)
    ensures Normalize(a) == a <==> CR !in a
  {
    NormalizeJoinsLines(a);
    NormalizeJoinsLines(b);
    NormalizeJoinsLines(Normalize(a));
    LinesOfJoin(a);
    LinesOfJoin(b);
    if CR !in a {
      NormalizeLeavesAlone(a);
    }
  }

  lemma {:induction false} NormalizeLeavesAlone(content: Bytes)
    requires CR !in content
    ensures Normalize(content) == content
  {
    if content != [] {
      NormalizeStep(content);
      NormalizeLeavesAlone(content[1..]);
    }
  }

  // ---------------------------------------------------------------- length framing

  function Capacity(width: nat): nat {
    if width == 0 then 1 else 256 * Capacity(width - 1)
  }

  /** `n.to_bytes(width, byteorder="big")`, which raises when `n` does not fit. */
  function BigEndian(n: nat, width: nat): (r: Bytes)
    requires n < Capacity(width)
    ensures |r| == width
  {
    if width == 0 then [] else BigEndian(n / 256, width - 1) + [n % 256]
  }

  function FromBigEndian(s: Bytes): nat {
    if s == [] then 0 else 256 * FromBigEndian(s[..|s| - 1]) + s[|s| - 1]
  }

  lemma {:induction false} BigEndianReads(n: nat, width: nat)
    requires n < Capacity(width)
    ensures FromBigEndian(BigEndian(n, width)) == n
  {
    if width > 0 {
      BigEndianReads(n / 256, width - 1);
      var s := BigEndian(n, width);
      assert s[..|s| - 1] == BigEndian(n / 256, width - 1);
    }
  }

  predicate Fits(c: Component) {
    |c.name| < Capacity(4) && |c.content| < Capacity(8)
  }

  /** b"research-registry-logical-migration-v1\0" */
  const HEADER: Bytes := [
    114, 101, 115, 101, 97, 114, 99, 104, 45, 114, 101, 103, 105, 115, 116, 114, 121, 45, 108, 111, 103, 105, 99, 97,
    108, 45, 109, 105, 103, 114, 97, 116, 105, 111, 110, 45, 118, 49, 0]

  function Frame(c: Component): Bytes
    requires Fits(c)
  {
    BigEndian(|c.name|, 4) + c.name + BigEndian(|c.content|, 8) + c.content
  }

  function Frames(cs: seq<Component>): Bytes
    requires forall c :: c in cs ==> Fits(c)
  {
    if cs == [] then [] else Frame(cs[0]) + Frames(cs[1..])
  }

  /** Reads one length-prefixed field of a stream. */
  function TakeField(s: Bytes, width: nat): (r: Option<(Bytes, Bytes)>)
    ensures r.Some? ==> |r.value.1| + width <= |s|
  {
    if |s| < width then None
    else
      var n := FromBigEndian(s[..width]);
      if |s| < width + n then None else Some((s[width..width + n], s[width + n..]))
  }

  /** A reader for the stream: frame after frame until nothing is left. */
  function Unframe(s: Bytes): Option<seq<Component>>
    decreases |s|
  {
    if s == [] then Some([])
    else
      var name := TakeField(s, 4);
      if name == None then None
      else
        var content := TakeField(name.value.1, 8);
        if content == None then None
        else
          var rest := Unframe(content.value.1);
          if rest == None then None else Some([Component(name.value.0, content.value.0)] + rest.value)
  }

  lemma {:induction false} FieldReads(field: Bytes, width: nat, rest: Bytes)
    requires |field| < Capacity(width)
    ensures TakeField(BigEndian(|field|, width) + (field + rest), width) == Some((field, rest))
  {
    hide Capacity, BigEndian, FromBigEndian;
    BigEndianReads(|field|, width);
    var s := BigEndian(|field|, width) + (field + rest);
    assert s[..width] == BigEndian(|field|, width);
    assert s[width..width + |field|] == field && s[width + |field|..] == rest;
  }

  /** Reading the stream gives a frame's component first, then reads what follows the frame. */
  lemma {:induction false} UnframeReads(c: Component, rest: Bytes)
    requires Fits(c)
    ensures var later := Unframe(rest);
            Unframe(Frame(c) + rest) == if later == None then None else Some([c] + later.value)
  {
    hide Capacity, BigEndian, TakeField;
    var tail := BigEndian(|c.content|, 8) + (c.content + rest);
    FieldReads(c.name, 4, tail);
    FieldReads(c.content, 8, rest);
    assert Frame(c) + rest == BigEndian(|c.name|, 4) + (c.name + tail);
  }

  lemma {:induction false} UnframeFrames(cs: seq<Component>)
    requires forall c :: c in cs ==> Fits(c)
    ensures Unframe(Frames(cs)) == Some(cs)
  {
    hide Frame, Fits;
    if cs != [] {
      assert cs[0] in cs;
      UnframeReads(cs[0], Frames(cs[1..]));
      UnframeFrames(cs[1..]);
      assert cs == [cs[0]] + cs[1..];
    }
  }

  // ---------------------------------------------------------------- the sorted, normalized bundle

  /** Lexicographic order on encoded names; for UTF-8 it is the code point order `sorted` uses. */
  predicate Before(a: Bytes, b: Bytes) {
    b != [] && (a == [] || a[0] < b[0] || (a[0] == b[0] && Before(a[1..], b[1..])))
  }

  lemma {:induction false} BeforeIsTotal(a: Bytes, b: Bytes)
    ensures Before(a, b) || a == b || Before(b, a)
    ensures !(Before(a, b) && Before(b, a)) && !Before(a, a)
  {
    if a != [] && b != [] {
      BeforeIsTotal(a[1..], b[1..]);
      assert a == [a[0]] + a[1..] && b == [b[0]] + b[1..];
    }
    if a != [] {
      BeforeIsTotal(a[1..], a[1..]);
    }
  }

  lemma {:induction false} BeforeIsTransitive(a: Bytes, b: Bytes, c: Bytes)
    requires Before(a, b) && Before(b, c)
    ensures Before(a, c)
  {
    if a != [] && a[0] == b[0] == c[0] {
      BeforeIsTransitive(a[1..], b[1..], c[1..]);
    }
  }

  function Insert(c: Component, cs: seq<Component>): seq<Component> {
    if cs == [] || Before(c.name, cs[0].name) then [c] + cs else [cs[0]] + Insert(c, cs[1..])
  }

  /** The components in the order of `sorted(components)`. */
  function Sorted(cs: seq<Component>): seq<Component> {
    if cs == [] then [] else Insert(cs[0], Sorted(cs[1..]))
  }

  function Normalized(cs: seq<Component>): (r: seq<Component>)
    ensures |r| == |cs|
  {
    seq(|cs|, i requires 0 <= i < |cs| => Component(cs[i].name, Normalize(cs[i].content)))
  }

  /** The digested stream; `None` where a length does not fit its prefix. */
  function Preimage(cs: seq<Component>): Option<Bytes> {
    var normal := Normalized(Sorted(cs));
    if forall c :: c in normal ==> Fits(c) then Some(HEADER + Frames(normal)) else None
  }

  /** A bundle is a dictionary: its names are distinct. */
  predicate IsBundle(cs: seq<Component>) {
    forall i, j :: 0 <= i < j < |cs| ==> cs[i].name != cs[j].name
  }

  /** What a bundle says: the lines of each named component, in no order. */
  ghost function Meaning(cs: seq<Component>): set<(Bytes, seq<Bytes>)> {
    set c | c in cs :: (c.name, Lines(c.content))
  }

  predicate Ascending(cs: seq<Component>) {
    forall i, j :: 0 <= i < j < |cs| ==> Before(cs[i].name, cs[j].name)
  }

  lemma {:induction false} InsertKeepsOrder(c: Component, cs: seq<Component>)
    requires Ascending(cs) && forall d :: d in cs ==> d.name != c.name
    ensures Ascending(Insert(c, cs))
    ensures forall d :: d in Insert(c, cs) <==> d == c || d in cs
  {
    if cs != [] {
      BeforeIsTotal(c.name, cs[0].name);
      if Before(c.name, cs[0].name) {
        forall j | 1 <= j < |cs|
          ensures Before(c.name, cs[j].name)
        {
          BeforeIsTransitive(c.name, cs[0].name, cs[j].name);
        }
      } else {
        InsertKeepsOrder(c, cs[1..]);
        var rest := Insert(c, cs[1..]);
        forall d | d in rest
          ensures Before(cs[0].name, d.name)
        {
          assert d == c || d in cs[1..];
        }
        assert forall d :: d in cs <==> d == cs[0] || d in cs[1..];
      }
    }
  }

  lemma {:induction false} SortedIsSorted(cs: seq<Component>)
    requires IsBundle(cs)
    ensures Ascending(Sorted(cs))
    ensures forall d :: d in Sorted(cs) <==> d in cs
  {
    if cs != [] {
      SortedIsSorted(cs[1..]);
      InsertKeepsOrder(cs[0], Sorted(cs[1..]));
      assert forall d :: d in cs <==> d == cs[0] || d in cs[1..];
    }
  }

  /** A strictly sorted list is determined by its elements. */
  lemma {:induction false} AscendingIsUnique(a: seq<Component>, b: seq<Component>)
    requires Ascending(a) && Ascending(b) && (forall c :: c in a <==> c in b)
    ensures a == b
  {
    assert b == [] || b[0] in b;
    if a == [] {
    } else {
      assert a[0] in b && b[0] in a;
      BeforeIsTotal(a[0].name, b[0].name);
      assert a[0] == b[0];
      forall c
        ensures c in a[1..] <==> c in b[1..]
      {
        BeforeIsTotal(a[0].name, a[0].name);
        assert c in a <==> c == a[0] || c in a[1..];
        assert c in b <==> c == b[0] || c in b[1..];
      }
      AscendingIsUnique(a[1..], b[1..]);
    }
  }

  lemma NormalizedMeans(cs: seq<Component>)
    requires IsBundle(cs)
    ensures Ascending(Normalized(Sorted(cs)))
    ensures forall c ::
              c in Normalized(Sorted(cs)) <==> exists d :: d in cs && c == Component(d.name, Normalize(d.content))
    ensures Meaning(cs) == Meaning(Normalized(Sorted(cs)))
  {
    SortedIsSorted(cs);
    var s := Sorted(cs);
    var normal := Normalized(s);
    forall c
      ensures c in normal <==> exists d :: d in cs && c == Component(d.name, Normalize(d.content))
    {
      if d :| d in cs && c == Component(d.name, Normalize(d.content)) {
        assert d in s;
        var i :| 0 <= i < |s| && s[i] == d;
        assert normal[i] == c;
      }
      if c in normal {
        var i :| 0 <= i < |normal| && normal[i] == c;
        assert s[i] in cs;
      }
    }
    forall p
      ensures p in Meaning(cs) <==> p in Meaning(normal)
    {
      if p in Meaning(cs) {
        var d :| d in cs && p == (d.name, Lines(d.content));
        NormalizeKeepsExactlyTheLines(d.content, d.content);
        assert Component(d.name, Normalize(d.content)) in normal;
      }
      if p in Meaning(normal) {
        var c :| c in normal && p == (c.name, Lines(c.content));
        var d :| d in cs && c == Component(d.name, Normalize(d.content));
        NormalizeKeepsExactlyTheLines(d.content, d.content);
      }
    }
  }

  /** The stream can be read back: it gives the sorted bundle with its newlines normalized. */
  lemma PreimageIsDecodable(cs: seq<Component>)
    requires Preimage(cs).Some?
    ensures var stream := Preimage(cs).value;
            HEADER <= stream && Unframe(stream[|HEADER|..]) == Some(Normalized(Sorted(cs)))
  {
    UnframeFrames(Normalized(Sorted(cs)));
    var stream := Preimage(cs).value;
    assert stream[|HEADER|..] == Frames(Normalized(Sorted(cs)));
  }

  /** Two bundles digest the same stream exactly when they say the same, whatever their order and newlines. */
  lemma PreimageDeterminesBundle(a: seq<Component>, b: seq<Component>)
    requires IsBundle(a) && IsBundle(b) && Preimage(a).Some?
    ensures Preimage(a) == Preimage(b) <==> Meaning(a) == Meaning(b)
  {
    var na, nb := Normalized(Sorted(a)), Normalized(Sorted(b));
    NormalizedMeans(a);
    NormalizedMeans(b);
    if Preimage(a) == Preimage(b) {
      PreimageIsDecodable(a);
      PreimageIsDecodable(b);
    }
    if Meaning(a) == Meaning(b) {
      forall c
        ensures c in na <==> c in nb
      {
        SameComponents(a, b, c);
        SameComponents(b, a, c);
      }
      AscendingIsUnique(na, nb);
    }
  }

  lemma SameComponents(a: seq<Component>, b: seq<Component>, c: Component)
    requires IsBundle(a) && IsBundle(b) && Meaning(a) <= Meaning(b)
    ensures c in Normalized(Sorted(a)) ==> c in Normalized(Sorted(b))
  {
    NormalizedMeans(a);
    NormalizedMeans(b);
    if c in Normalized(Sorted(a)) {
      var d :| d in a && c == Component(d.name, Normalize(d.content));
      assert (d.name, Lines(d.content)) in Meaning(b);
      var e :| e in b && (e.name, Lines(e.content)) == (d.name, Lines(d.content));
      NormalizeKeepsExactlyTheLines(d.content, e.content);
    }
  }

  /** With a digest that separates the two streams, equal checksums mean equal bundles. */
  lemma ChecksumDeterminesBundle(digest: Bytes -> string, a: seq<Component>, b: seq<Component>)
    requires IsBundle(a) && IsBundle(b) && Preimage(a).Some? && Preimage(b).Some?
    requires digest(Preimage(a).value) == digest(Preimage(b).value) ==> Preimage(a) == Preimage(b)
    ensures digest(Preimage(a).value) == digest(Preimage(b).value) <==> Meaning(a) == Meaning(b)
  {
    PreimageDeterminesBundle(a, b);
  }

  // ---------------------------------------------------------------- the code

  lemma FramesAppend(a: seq<Component>, c: Component)
    requires Fits(c) && forall d :: d in a ==> Fits(d)
    ensures Frames(a + [c]) == Frames(a) + Frame(c)
  {
    if a == [] {
      assert [c][1..] == [];
    } else {
      FramesAppend(a[1..], c);
      assert (a + [c])[1..] == a[1..] + [c];
    }
  }

  lemma FramesStep(cs: seq<Component>, i: nat)
    requires i < |cs| && Fits(cs[i]) && forall c :: c in cs[..i] ==> Fits(c)
    ensures forall c :: c in cs[..i + 1] ==> Fits(c)
    ensures Frames(cs[..i + 1]) == Frames(cs[..i]) + Frame(cs[i])
  {
    hide Frame, Fits, Frames;
    assert cs[..i + 1] == cs[..i] + [cs[i]];
    FramesAppend(cs[..i], cs[i]);
  }

  lemma FrameParts(stream: Bytes, c: Component)
    requires Fits(c)
    ensures stream + BigEndian(|c.name|, 4) + c.name + BigEndian(|c.content|, 8) + c.content == stream + Frame(c)
  {
    hide BigEndian, Capacity;
  }

  lemma NoFrames()
    ensures Frames([]) == []
  {
  }

  /** The digest loop; a length that does not fit its prefix raises. */
  method BundleChecksum(digest: Bytes -> string, components: seq<Component>) returns (checksum: Option<string>)
    ensures checksum == var stream := Preimage(components);
                        if stream == None then None else Some(digest(stream.value))
  {
    hide Capacity, BigEndian, Replace, Sorted, Frame, Frames;
    NoFrames();
    var stream := HEADER;
    var sorted := Sorted(components);
    ghost var normal := Normalized(sorted);
    for i := 0 to |sorted|
      invariant forall c :: c in normal[..i] ==> Fits(c)
      invariant stream == HEADER + Frames(normal[..i])
    {
      var name := sorted[i].name;
      var content := Replace(Replace(sorted[i].content, [CR, LF], [LF]), [CR], [LF]);
      assert normal[i] == Component(name, content);
      if |name| >= Capacity(4) || |content| >= Capacity(8) {
        assert !Fits(normal[i]);
        return None;
      }
      FramesStep(normal, i);
      FrameParts(stream, normal[i]);
      stream := stream + BigEndian(|name|, 4);
      stream := stream + name;
      stream := stream + BigEndian(|content|, 8);
      stream := stream + content;
    }
    assert normal[..|normal|] == normal;
    checksum := Some(digest(stream));
  }
}
