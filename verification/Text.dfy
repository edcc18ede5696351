/** Strings as the controllers use them: separator-joined keys, decimal
    numbers, search and replacement, and the byte order of `sort.Strings`. */
module Text {

  /** A join at a separator is undone by cutting at its FIRST occurrence. */
  lemma CutFirst(a: string, b: string, a': string, b': string, sep: char)
    requires sep !in a && sep !in a'
    requires a + [sep] + b == a' + [sep] + b'
    ensures a == a' && b == b'
  {
    var s := a + [sep] + b;
    assert s[|a|] == sep && s[|a'|] == sep;
    assert forall i :: 0 <= i < |a| ==> s[i] == a[i] != sep;
    assert forall i :: 0 <= i < |a'| ==> s[i] == a'[i] != sep;
    assert |a| == |a'|;
    assert a == s[..|a|] == a';
    assert b == s[|a| + 1..] == b';
  }

  /** A join at a separator is undone by cutting at its LAST occurrence. */
  lemma CutLast(a: string, b: string, a': string, b': string, sep: char)
    requires sep !in b && sep !in b'
    requires a + [sep] + b == a' + [sep] + b'
    ensures a == a' && b == b'
  {
    var s := a + [sep] + b;
    assert s[|a|] == sep && s[|a'|] == sep;
    assert forall i :: |a| < i < |s| ==> s[i] == b[i - |a| - 1] != sep;
    assert forall i :: |a'| < i < |s| ==> s[i] == b'[i - |a'| - 1] != sep;
    assert |a| == |a'|;
    assert a == s[..|a|] == a';
    assert b == s[|a| + 1..] == b';
  }

  /** The "name.namespace" key of the field indexes. */
  function IndexKey(name: string, namespace: string): string {
    name + ['.'] + namespace
  }

  /** The "namespace/name" key of namespaced identities. */
  function NamespacedKey(namespace: string, name: string): string {
    namespace + ['/'] + name
  }

  /** Namespaces carry no dot, so an index key names one object even though
      object names may carry dots. */
  lemma IndexKeyInjective(n: string, ns: string, n': string, ns': string)
    requires '.' !in ns && '.' !in ns'
    ensures IndexKey(n, ns) == IndexKey(n', ns') <==> n == n' && ns == ns'
  {
    if IndexKey(n, ns) == IndexKey(n', ns') {
      CutLast(n, ns, n', ns', '.');
    }
  }

  lemma NamespacedKeyInjective(ns: string, n: string, ns': string, n': string)
    requires '/' !in ns && '/' !in ns'
    ensures NamespacedKey(ns, n) == NamespacedKey(ns', n') <==> ns == ns' && n == n'
  {
    if NamespacedKey(ns, n) == NamespacedKey(ns', n') {
      CutFirst(ns, n, ns', n', '/');
    }
  }

  /** `%d` of a natural number. */
  function Decimal(n: nat): string {
    if n < 10 then [Digit(n)] else Decimal(n / 10) + [Digit(n % 10)]
  }

  function Digit(d: nat): char
    requires d < 10
  {
    '0' + d as char
  }

  lemma {:induction false} DecimalDigits(n: nat)
    ensures |Decimal(n)| > 0
    ensures forall c :: c in Decimal(n) ==> '0' <= c <= '9'
  {
    if n >= 10 {
      DecimalDigits(n / 10);
    }
  }

  /** Two numbers print the same only if they are the same. */
  lemma {:induction false} DecimalInjective(m: nat, n: nat)
    requires Decimal(m) == Decimal(n)
    ensures m == n
  {
    DecimalDigits(m / 10);
    DecimalDigits(n / 10);
    var s, t := Decimal(m), Decimal(n);
    assert s[|s| - 1] == Digit(m % 10) && t[|t| - 1] == Digit(n % 10);
    if m >= 10 && n >= 10 {
      assert s[..|s| - 1] == Decimal(m / 10) && t[..|t| - 1] == Decimal(n / 10);
      DecimalInjective(m / 10, n / 10);
    }
  }

  predicate HasPrefix(s: string, prefix: string) {
    |prefix| <= |s| && s[..|prefix|] == prefix
  }

  /** `strings.Index`: the first position of `sub` in `s`, or -1. */
  function Index(s: string, sub: string): (i: int)
    ensures -1 <= i <= |s|
    ensures i >= 0 ==> HasPrefix(s[i..], sub)
    ensures forall j :: 0 <= j <= |s| && (i < 0 || j < i) ==> !HasPrefix(s[j..], sub)
  {
    if HasPrefix(s, sub) then
      assert s[0..] == s;
      0
    else if s == "" then -1
    else
      var k := Index(s[1..], sub);
      assert forall j :: 1 <= j <= |s| ==> s[j..] == s[1..][j - 1..];
      assert s[0..] == s;
      if k < 0 then -1 else k + 1
  }

  /** `strings.Replace(s, sub, with, 1)`. */
  function ReplaceFirst(s: string, sub: string, with: string): string {
    var i := Index(s, sub);
    if i < 0 then s else s[..i] + with + s[i + |sub|..]
  }

  /** `strings.TrimPrefix`. */
  function TrimPrefix(s: string, prefix: string): string {
    if HasPrefix(s, prefix) then s[|prefix|..] else s
  }

  /** Byte-wise lexicographic order, the order of `sort.Strings` and of `<` on strings. */
  predicate Le(a: string, b: string) {
    a == "" || (b != "" && (a[0] < b[0] || (a[0] == b[0] && Le(a[1..], b[1..]))))
  }

  lemma {:induction false} LeTotal(a: string, b: string)
    ensures Le(a, b) || Le(b, a)
  {
    if a != "" && b != "" && a[0] == b[0] {
      LeTotal(a[1..], b[1..]);
    }
  }

  lemma {:induction false} LeAntisymmetric(a: string, b: string)
    requires Le(a, b) && Le(b, a)
    ensures a == b
  {
    if a != "" {
      LeAntisymmetric(a[1..], b[1..]);
      assert a == [a[0]] + a[1..] && b == [b[0]] + b[1..];
    }
  }

  lemma {:induction false} LeTransitive(a: string, b: string, c: string)
    requires Le(a, b) && Le(b, c)
    ensures Le(a, c)
  {
    if a != "" && a[0] == b[0] == c[0] {
      LeTransitive(a[1..], b[1..], c[1..]);
    }
  }

  /** A shared prefix does not affect the comparison. */
  lemma {:induction false} LePrefix(p: string, a: string, b: string)
    ensures Le(p + a, p + b) <==> Le(a, b)
  {
    if p == "" {
      assert p + a == a && p + b == b;
    } else {
      assert (p + a)[1..] == p[1..] + a && (p + b)[1..] == p[1..] + b;
      LePrefix(p[1..], a, b);
    }
  }
}
