/** Namespace-scoped dedupe keys, `_scoped_dedupe_key` of src/research_registry/service.py. */
module ScopedKeys {
  import opened PyText

  datatype NamespaceKind = User | Org

  datatype Namespace = Namespace(kind: NamespaceKind, id: string)

  function KindName(kind: NamespaceKind): string {
    match kind
    case User => "user"
    case Org => "org"
  }

  /** Decimal notation, as an f-string prints a length. */
  function Decimal(n: nat): (s: string)
    ensures s != []
  {
    var digit := ['0' + (n % 10) as char];
    if n < 10 then digit else Decimal(n / 10) + digit
  }

  function Prefix(ns: Namespace): string {
    "namespace:" + KindName(ns.kind) + ":" + Decimal(|ns.id|) + ":" + ns.id + ":"
  }

  function Scoped(raw: Option<string>, ns: Namespace): Option<string> {
    if raw == None || raw.value == "" then None
    else if Prefix(ns) <= raw.value then raw
    else Some(Prefix(ns) + raw.value)
  }

  predicate IsDigits(s: string) {
    forall i :: 0 <= i < |s| ==> '0' <= s[i] <= '9'
  }

  function Value(s: string): nat
    requires IsDigits(s)
  {
    if s == [] then 0 else 10 * Value(s[..|s| - 1]) + (s[|s| - 1] as nat - '0' as nat)
  }

  /** Decimal notation is read back exactly, so different lengths are written differently. */
  lemma {:induction false} DecimalReads(n: nat)
    ensures IsDigits(Decimal(n)) && Value(Decimal(n)) == n
  {
    var s := Decimal(n);
    if n < 10 {
      assert s[..|s| - 1] == [];
    } else {
      DecimalReads(n / 10);
      assert s[..|s| - 1] == Decimal(n / 10);
    }
  }

  function UpToColon(s: string): string {
    if s == [] || s[0] == ':' then [] else [s[0]] + UpToColon(s[1..])
  }

  lemma {:induction false} ColonEnds(a: string, s: string)
    requires ':' !in a && a + ":" <= s
    ensures a == UpToColon(s)
  {
    if a == [] {
      assert s[0] == ':';
    } else {
      assert s[0] == a[0] && a[1..] + ":" <= s[1..];
      ColonEnds(a[1..], s[1..]);
    }
  }

  /** Prefix-freedom: a text starts with the prefix of at most one namespace, whatever the namespace ids hold. */
  lemma PrefixFree(m: Namespace, n: Namespace, s: string)
    requires Prefix(m) <= s && Prefix(n) <= s
    ensures m == n
  {
    var head := "namespace:";
    KindAndLength(m, s);
    KindAndLength(n, s);
    var t := s[|head|..];
    ColonEnds(KindName(m.kind), t);
    ColonEnds(KindName(n.kind), t);
    var u := t[|KindName(m.kind)| + 1..];
    DecimalReads(|m.id|);
    DecimalReads(|n.id|);
    ColonEnds(Decimal(|m.id|), u);
    ColonEnds(Decimal(|n.id|), u);
    var v := u[|Decimal(|m.id|)| + 1..];
    assert m.id == v[..|m.id|] && n.id == v[..|n.id|];
  }

  /** The parts of a prefix, one after the other. */
  lemma KindAndLength(n: Namespace, s: string)
    requires Prefix(n) <= s
    ensures |s| >= 10 && KindName(n.kind) + ":" <= s[10..]
    ensures var t := s[10..]; Decimal(|n.id|) + ":" <= t[|KindName(n.kind)| + 1..]
    ensures var u := s[10..][|KindName(n.kind)| + 1..]; n.id <= u[|Decimal(|n.id|)| + 1..]
  {
  }

  /** A scoped key tells its namespace: those of different namespaces never collide, for any raw keys. */
  lemma ScopedKeysNeverCollide(a: Option<string>, m: Namespace, b: Option<string>, n: Namespace)
    requires Scoped(a, m).Some? && Scoped(a, m) == Scoped(b, n)
    ensures m == n
  {
    PrefixFree(m, n, Scoped(a, m).value);
  }

  lemma ScopedStarts(raw: Option<string>, ns: Namespace)
    ensures Scoped(raw, ns).Some? ==> Prefix(ns) <= Scoped(raw, ns).value
  {
  }

  /** Scoping is idempotent, and keeps different unscoped keys of one namespace apart. */
  lemma ScopingIsIdempotent(raw: Option<string>, ns: Namespace)
    ensures Scoped(Scoped(raw, ns), ns) == Scoped(raw, ns)
  {
  }

  /** Within one namespace scoping is injective on keys that do not already carry the namespace's prefix. */
  lemma ScopingIsInjective(a: string, b: string, ns: Namespace)
    requires a != "" && b != "" && !(Prefix(ns) <= a) && !(Prefix(ns) <= b)
    requires Scoped(Some(a), ns) == Scoped(Some(b), ns)
    ensures a == b
  {
    assert a == (Prefix(ns) + a)[|Prefix(ns)|..];
    assert b == (Prefix(ns) + b)[|Prefix(ns)|..];
  }
}
