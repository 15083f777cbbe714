/** The digested stream of a migration bundle, byte by byte. */
module BundleStream {
  import opened PyText
  import opened BundleChecksums

  /** A number in four and in eight bytes, the highest first. */
  function FourBytes(n: nat): seq<int> {
    [n / 0x100_0000 % 256, n / 0x1_0000 % 256, n / 0x100 % 256, n % 256]
  }

  function EightBytes(n: nat): seq<int> {
    FourBytes(n / 0x1_0000_0000) + FourBytes(n % 0x1_0000_0000)
  }

  lemma FourAreBigEndian(n: nat)
    requires n < 0x1_0000_0000
    ensures Capacity(4) == 0x1_0000_0000 && BigEndian(n, 4) == FourBytes(n)
  {
    assert Capacity(0) == 1 && Capacity(1) == 0x100 && Capacity(2) == 0x1_0000 && Capacity(3) == 0x100_0000;
    var a, b, c := n / 256, n / 256 / 256, n / 256 / 256 / 256;
    assert c / 256 == 0;
    assert BigEndian(c, 1) == BigEndian(0, 0) + [c % 256] == [c % 256];
    assert BigEndian(b, 2) == BigEndian(c, 1) + [b % 256];
    assert BigEndian(a, 3) == BigEndian(b, 2) + [a % 256];
    assert BigEndian(n, 4) == BigEndian(a, 3) + [n % 256];
  }

  lemma FourCapacities()
    ensures Capacity(4) == 0x1_0000_0000 && Capacity(8) == 0x1_0000_0000_0000_0000
  {
    assert Capacity(1) == 0x100 && Capacity(2) == 0x1_0000 && Capacity(3) == 0x100_0000;
    assert Capacity(4) == 256 * Capacity(3);
    assert Capacity(5) == 256 * Capacity(4) && Capacity(6) == 256 * Capacity(5);
    assert Capacity(7) == 256 * Capacity(6) && Capacity(8) == 256 * Capacity(7);
  }

  lemma LowBytes(n: nat, high: nat, low: nat)
    requires n == high * 0x1_0000_0000 + low && low < 0x1_0000_0000
    ensures n / 0x100_0000 == high * 0x100 + low / 0x100_0000
    ensures n / 0x1_0000 == high * 0x1_0000 + low / 0x1_0000
    ensures n / 0x100 == high * 0x100_0000 + low / 0x100
  {
  }

  lemma SameLowByte(x: nat, y: nat, z: nat)
    requires x == y * 256 + z
    ensures x % 256 == z % 256
  {
  }

  lemma LowBytesAlike(n: nat)
    ensures var low := n % 0x1_0000_0000;
            && n / 0x100_0000 % 256 == low / 0x100_0000 % 256 && n / 0x1_0000 % 256 == low / 0x1_0000 % 256
            && n / 0x100 % 256 == low / 0x100 % 256 && n % 256 == low % 256
  {
    var high, low := n / 0x1_0000_0000, n % 0x1_0000_0000;
    LowBytes(n, high, low);
    SameLowByte(n / 0x100_0000, high, low / 0x100_0000);
    SameLowByte(n / 0x1_0000, high * 0x100, low / 0x1_0000);
    SameLowByte(n / 0x100, high * 0x1_0000, low / 0x100);
    SameLowByte(n, high * 0x100_0000, low);
  }

  /** Writing in eight bytes is writing the two halves in four each. */
  lemma {:induction false} EightAreBigEndian(n: nat)
    requires n < 0x1_0000_0000_0000_0000
    ensures n < Capacity(8) && BigEndian(n, 8) == EightBytes(n)
  {
    FourCapacities();
    var a, b, c, d := n / 256, n / 0x1_0000, n / 0x100_0000, n / 0x1_0000_0000;
    assert a / 256 == b && b / 256 == c && c / 256 == d && d < 0x1_0000_0000;
    FourAreBigEndian(d);
    FourAreBigEndian(n % 0x1_0000_0000);
    LowBytesAlike(n);
    hide Capacity, BigEndian;
    OneMoreByte(n, 7);
    OneMoreByte(a, 6);
    OneMoreByte(b, 5);
    OneMoreByte(c, 4);
    assert BigEndian(n, 8) == BigEndian(d, 4) + [c % 256] + [b % 256] + [a % 256] + [n % 256];
  }

  lemma OneMoreByte(n: nat, width: nat)
    requires n < Capacity(width + 1)
    ensures n / 256 < Capacity(width) && BigEndian(n, width + 1) == BigEndian(n / 256, width) + [n % 256]
  {
    assert Capacity(width + 1) == 256 * Capacity(width);
  }

  /** Name and content, each behind its length. */
  function Spelled(c: Component): seq<int> {
    FourBytes(|c.name|) + c.name + EightBytes(|c.content|) + c.content
  }

  lemma FrameIsSpelled(c: Component)
    ensures Fits(c) <==> |c.name| < 0x1_0000_0000 && |c.content| < 0x1_0000_0000_0000_0000
    ensures Fits(c) ==> Frame(c) == Spelled(c)
  {
    FourCapacities();
    if Fits(c) {
      FourAreBigEndian(|c.name|);
      EightAreBigEndian(|c.content|);
    }
    hide Capacity, BigEndian, FourBytes, EightBytes;
  }

  function SpelledAll(cs: seq<Component>): seq<int> {
    if cs == [] then [] else Spelled(cs[0]) + SpelledAll(cs[1..])
  }

  lemma {:induction false} FramesAreSpelled(cs: seq<Component>)
    requires forall c :: c in cs ==> Fits(c)
    ensures Frames(cs) == SpelledAll(cs)
  {
    hide Frame, Fits, Spelled;
    if cs != [] {
      assert cs[0] in cs;
      FrameIsSpelled(cs[0]);
      FramesAreSpelled(cs[1..]);
    }
  }

  /** The first byte in which two names differ decides; a name comes before its extensions. */
  ghost predicate NameBefore(a: Bytes, b: Bytes) {
    exists k :: && 0 <= k <= |a| && k <= |b| && a[..k] == b[..k]
                && if k == |a| then k < |b| else k < |b| && a[k] < b[k]
  }

  lemma FirstByte(a: Bytes, b: Bytes, k: nat)
    ensures 0 < k <= |a| && k <= |b| && a[..k] == b[..k] ==> a[0] == b[0]
  {
    if 0 < k <= |a| && k <= |b| {
      assert a[..k][0] == a[0] && b[..k][0] == b[0];
    }
  }

  lemma {:induction false} BeforeIsByteOrder(a: Bytes, b: Bytes)
    ensures Before(a, b) <==> NameBefore(a, b)
  {
    if a == [] || b == [] || a[0] != b[0] {
      if b != [] && (a == [] || a[0] < b[0]) {
        assert a[..0] == b[..0];
      }
      if NameBefore(a, b) {
        var k :| && 0 <= k <= |a| && k <= |b| && a[..k] == b[..k]
                 && if k == |a| then k < |b| else k < |b| && a[k] < b[k];
        FirstByte(a, b, k);
      }
    } else {
      BeforeIsByteOrder(a[1..], b[1..]);
      if NameBefore(a, b) {
        var k :| && 0 <= k <= |a| && k <= |b| && a[..k] == b[..k]
                 && if k == |a| then k < |b| else k < |b| && a[k] < b[k];
        assert k > 0 && a[1..][..k - 1] == a[..k][1..] && b[1..][..k - 1] == b[..k][1..];
      }
      if NameBefore(a[1..], b[1..]) {
        var k :| && 0 <= k <= |a[1..]| && k <= |b[1..]| && a[1..][..k] == b[1..][..k]
                 && if k == |a[1..]| then k < |b[1..]| else k < |b[1..]| && a[1..][k] < b[1..][k];
        assert a[..k + 1] == [a[0]] + a[1..][..k] && b[..k + 1] == [b[0]] + b[1..][..k];
      }
    }
  }

  /** The bundle's components with their lines joined by LF, in the order of their names. */
  ghost predicate IsOrdered(cs: seq<Component>, ordered: seq<Component>) {
    && (forall i, j :: 0 <= i < j < |ordered| ==> NameBefore(ordered[i].name, ordered[j].name))
    && (forall c :: c in ordered <==> exists d :: d in cs && c == Component(d.name, JoinLines(Lines(d.content))))
  }

  lemma OrderedIsNormalized(cs: seq<Component>, ordered: seq<Component>)
    requires IsBundle(cs) && IsOrdered(cs, ordered)
    ensures ordered == Normalized(Sorted(cs))
  {
    NormalizedMeans(cs);
    forall i, j | 0 <= i < j < |ordered| ensures Before(ordered[i].name, ordered[j].name) {
      BeforeIsByteOrder(ordered[i].name, ordered[j].name);
    }
    forall d | d in cs ensures Normalize(d.content) == JoinLines(Lines(d.content)) {
      NormalizeJoinsLines(d.content);
    }
    hide NameBefore, Before, Lines, JoinLines, Normalize, Sorted, Normalized;
    AscendingIsUnique(ordered, Normalized(Sorted(cs)));
  }

  /** The text that opens the stream. */
  const OPENING := "research-registry-logical-migration-v1"

  lemma HeaderIsText()
    ensures |HEADER| == |OPENING| + 1 && HEADER[|OPENING|] == 0
    ensures forall i :: 0 <= i < |OPENING| ==> HEADER[i] == OPENING[i] as int
  {
  }

  /** What is digested: the opening, and each component's name and joined lines behind their lengths, in name order. */
  lemma StreamIsSpelled(cs: seq<Component>, ordered: seq<Component>)
    requires IsBundle(cs) && IsOrdered(cs, ordered)
    ensures Preimage(cs).Some? <==>
              forall c :: c in ordered ==> |c.name| < 0x1_0000_0000 && |c.content| < 0x1_0000_0000_0000_0000
    ensures Preimage(cs).Some? ==> Preimage(cs).value == HEADER + SpelledAll(ordered)
  {
    OrderedIsNormalized(cs, ordered);
    forall c: Component ensures Fits(c) <==> |c.name| < 0x1_0000_0000 && |c.content| < 0x1_0000_0000_0000_0000 {
      FrameIsSpelled(c);
    }
    hide Fits, HEADER, Sorted, Normalized, SpelledAll, IsOrdered;
    if forall c :: c in ordered ==> Fits(c) {
      FramesAreSpelled(ordered);
    }
  }
}
