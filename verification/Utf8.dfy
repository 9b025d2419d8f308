/** UTF-8 as section 3 of RFC 3629 defines it, and the byte order of names.

    A string is a sequence of Unicode scalar values, which is what text decoded
    from UTF-8 holds; every size is counted in the bytes of its encoding. */
module Utf8 {

  type byte = x: int | 0 <= x < 0x100

  function EncodeChar(c: char): (bytes: seq<byte>)
    ensures 1 <= |bytes| <= 4
  {
    var n := c as int;
    var n6 := n / 0x40;
    var n12 := n6 / 0x40;
    if n < 0x80 then
      [n]
    else if n < 0x800 then
      [0xC0 + n6, 0x80 + n % 0x40]
    else if n < 0x1_0000 then
      [0xE0 + n12, 0x80 + n6 % 0x40, 0x80 + n % 0x40]
    else
      [0xF0 + n12 / 0x40, 0x80 + n12 % 0x40, 0x80 + n6 % 0x40, 0x80 + n % 0x40]
  }

  /** The bytes of a character and the number they stand for (section 3 of RFC 3629). */
  predicate StandsFor(bytes: seq<byte>, n: int) {
    if |bytes| == 1 then bytes[0] <= 0x7F && n == bytes[0]
    else
      && (forall i :: 1 <= i < |bytes| ==> 0x80 <= bytes[i] <= 0xBF)
      && if |bytes| == 2 then 0xC2 <= bytes[0] <= 0xDF && n == bytes[0] as int * 0x40 + bytes[1] as int - 0x3080
         else if |bytes| == 3 then
           && 0xE0 <= bytes[0] <= 0xEF && n >= 0x800
           && n == bytes[0] as int * 0x1000 + bytes[1] as int * 0x40 + bytes[2] as int - 0xE2080
         else
           && |bytes| == 4 && 0xF0 <= bytes[0] <= 0xF4 && n >= 0x1_0000
           && n == bytes[0] as int * 0x4_0000 + bytes[1] as int * 0x1000 + bytes[2] as int * 0x40 + bytes[3] as int - 0x3C8_2080
  }

  lemma CharStandsFor(c: char)
    ensures StandsFor(EncodeChar(c), c as int)
  {
  }

  function Encode(s: string): seq<byte> {
    if s == [] then [] else EncodeChar(s[0]) + Encode(s[1..])
  }

  function BytesOf(s: string): nat {
    |Encode(s)|
  }

  lemma {:induction false} EncodeConcat(a: string, b: string)
    ensures Encode(a + b) == Encode(a) + Encode(b)
  {
    if a == [] {
      assert a + b == b;
    } else {
      assert (a + b)[1..] == a[1..] + b;
      EncodeConcat(a[1..], b);
    }
  }

  lemma BytesConcat(a: string, b: string)
    ensures BytesOf(a + b) == BytesOf(a) + BytesOf(b)
  {
    EncodeConcat(a, b);
  }

  /** Strings of ASCII characters have a byte each. */
  lemma {:induction false} AsciiBytes(s: string)
    requires forall i :: 0 <= i < |s| ==> s[i] < '\U{0080}'
    ensures BytesOf(s) == |s|
  {
    if s != [] {
      AsciiBytes(s[1..]);
    }
  }

  // ---------------------------------------------------------------- Orders

  /** Lexicographic order of byte strings: the order Go compares strings by. */
  predicate Below(x: seq<byte>, y: seq<byte>) {
    y != [] && (x == [] || x[0] < y[0] || (x[0] == y[0] && Below(x[1..], y[1..])))
  }

  /** Lexicographic order of names by code point. */
  predicate NameBelow(a: string, b: string) {
    b != [] && (a == [] || a[0] < b[0] || (a[0] == b[0] && NameBelow(a[1..], b[1..])))
  }

  lemma {:induction false} BelowAfter(common: seq<byte>, x: seq<byte>, y: seq<byte>)
    ensures Below(common + x, common + y) <==> Below(x, y)
  {
    if common == [] {
      assert common + x == x && common + y == y;
    } else {
      assert (common + x)[1..] == common[1..] + x;
      assert (common + y)[1..] == common[1..] + y;
      BelowAfter(common[1..], x, y);
    }
  }

  /** The encodings of two different characters differ before either ends, in
      the direction of their code points. */
  lemma CharOrder(c: char, d: char, x: seq<byte>, y: seq<byte>)
    requires c < d
    ensures Below(EncodeChar(c) + x, EncodeChar(d) + y)
    ensures !Below(EncodeChar(d) + y, EncodeChar(c) + x)
  {
    hide EncodeChar, Below;
    var p, q := EncodeChar(c), EncodeChar(d);
    var k := FirstDifference(c, d);
    assert p[..k] == q[..k];
    assert p + x == p[..k] + ([p[k]] + (p[k + 1..] + x));
    assert q + y == p[..k] + ([q[k]] + (q[k + 1..] + y));
    BelowAfter(p[..k], [p[k]] + (p[k + 1..] + x), [q[k]] + (q[k + 1..] + y));
    BelowAfter(p[..k], [q[k]] + (q[k + 1..] + y), [p[k]] + (p[k + 1..] + x));
    FirstByte(p[k], q[k], p[k + 1..] + x, q[k + 1..] + y);
  }

  lemma FirstByte(b: byte, c: byte, x: seq<byte>, y: seq<byte>)
    requires b < c
    ensures Below([b] + x, [c] + y) && !Below([c] + y, [b] + x)
  {
  }

  lemma FirstDifference(c: char, d: char) returns (k: nat)
    requires c < d
    ensures k < |EncodeChar(c)| && k < |EncodeChar(d)|
    ensures forall i :: 0 <= i < k ==> EncodeChar(c)[i] == EncodeChar(d)[i]
    ensures EncodeChar(c)[k] < EncodeChar(d)[k]
  {
    hide EncodeChar;
    Lengths(c, d);
    if |EncodeChar(c)| < |EncodeChar(d)| {
      k := 0;
    } else {
      k := AmongEqual(c, d);
    }
  }

  /** A longer encoding starts with a higher byte. */
  lemma Lengths(c: char, d: char)
    requires c < d
    ensures |EncodeChar(c)| <= |EncodeChar(d)|
    ensures |EncodeChar(c)| < |EncodeChar(d)| ==> EncodeChar(c)[0] < EncodeChar(d)[0]
  {
  }

  lemma AmongEqual(c: char, d: char) returns (k: nat)
    requires c < d && |EncodeChar(c)| == |EncodeChar(d)|
    ensures k < |EncodeChar(c)|
    ensures forall i :: 0 <= i < k ==> EncodeChar(c)[i] == EncodeChar(d)[i]
    ensures EncodeChar(c)[k] < EncodeChar(d)[k]
  {
    var p, q := EncodeChar(c), EncodeChar(d);
    InOrder(c as int, d as int);
    InOrder(c as int / 0x40, d as int / 0x40);
    InOrder(c as int / 0x40 / 0x40, d as int / 0x40 / 0x40);
    k := if p[0] != q[0] then 0
         else if |p| == 2 || p[1] != q[1] then 1
         else if |p| == 3 || p[2] != q[2] then 2
         else 3;
  }

  /** Numbers in order differ first, among their digits in base 64, upwards. */
  lemma InOrder(n: nat, m: nat)
    requires n <= m
    ensures n / 0x40 < m / 0x40 || (n / 0x40 == m / 0x40 && n % 0x40 <= m % 0x40)
    ensures n < m && n / 0x40 == m / 0x40 ==> n % 0x40 < m % 0x40
  {
  }

  /** Code point order is the order of the UTF-8 encodings. */
  lemma {:induction false} NameOrderIsByteOrder(a: string, b: string)
    ensures NameBelow(a, b) <==> Below(Encode(a), Encode(b))
  {
    if a == [] || b == [] {
    } else if a[0] < b[0] {
      CharOrder(a[0], b[0], Encode(a[1..]), Encode(b[1..]));
    } else if b[0] < a[0] {
      CharOrder(b[0], a[0], Encode(b[1..]), Encode(a[1..]));
    } else {
      BelowAfter(EncodeChar(a[0]), Encode(a[1..]), Encode(b[1..]));
      NameOrderIsByteOrder(a[1..], b[1..]);
    }
  }

  lemma {:induction false} NamesTransitive(a: string, b: string, c: string)
    requires NameBelow(a, b) && NameBelow(b, c)
    ensures NameBelow(a, c)
  {
    if a != [] && a[0] == b[0] == c[0] {
      NamesTransitive(a[1..], b[1..], c[1..]);
    }
  }

  /** Exactly one of a before b, a equal to b and b before a. */
  lemma {:induction false} NamesTotal(a: string, b: string)
    ensures NameBelow(a, b) || a == b || NameBelow(b, a)
    ensures !(NameBelow(a, b) && NameBelow(b, a))
    ensures !NameBelow(a, a)
  {
    if a != [] && b != [] {
      NamesTotal(a[1..], b[1..]);
      assert a == [a[0]] + a[1..] && b == [b[0]] + b[1..];
    } else if a != [] {
      NamesTotal(a[1..], a[1..]);
    }
  }

  /** The order of two names from their i-th characters on. */
  lemma NameBelowAt(a: string, b: string, i: nat)
    requires i <= |a| && i <= |b|
    ensures NameBelow(a[i..], b[i..])
            <==> i < |b| && (i == |a| || a[i] < b[i] || (a[i] == b[i] && NameBelow(a[i + 1..], b[i + 1..])))
  {
    if i < |a| && i < |b| {
      assert a[i..][1..] == a[i + 1..] && b[i..][1..] == b[i + 1..];
    }
  }

  /** Compares two names by their code points, which compares their bytes. */
  method ByBytes(a: string, b: string) returns (order: int)
    ensures order < 0 <==> Below(Encode(a), Encode(b))
    ensures order == 0 <==> a == b
    ensures order > 0 <==> Below(Encode(b), Encode(a))
  {
    hide Below, Encode, NameBelow;
    NameOrderIsByteOrder(a, b);
    NameOrderIsByteOrder(b, a);
    var shorter := if |a| < |b| then |a| else |b|;
    assert a[0..] == a && b[0..] == b;
    for i := 0 to shorter
      invariant a[..i] == b[..i]
      invariant NameBelow(a, b) <==> NameBelow(a[i..], b[i..])
      invariant NameBelow(b, a) <==> NameBelow(b[i..], a[i..])
    {
      NameBelowAt(a, b, i);
      NameBelowAt(b, a, i);
      if a[i] != b[i] {
        return a[i] as int - b[i] as int;
      }
    }
    NameBelowAt(a, b, shorter);
    NameBelowAt(b, a, shorter);
    assert |a| == |b| ==> a == a[..shorter] && b == b[..shorter];
    return |a| - |b|;
  }

  // ---------------------------------------------------------------- Sorted names

  predicate Ascending(names: seq<string>) {
    forall i, j :: 0 <= i < j < |names| ==> NameBelow(names[i], names[j])
  }

  predicate IsLeast(least: string, names: set<string>) {
    least in names && forall n :: n in names && n != least ==> NameBelow(least, n)
  }

  lemma {:induction false} LeastExists(names: set<string>)
    requires names != {}
    ensures exists least :: IsLeast(least, names)
    decreases |names|
  {
    var some :| some in names;
    var rest := names - {some};
    if rest == {} {
      assert names == {some} + rest;
      assert IsLeast(some, names);
    } else {
      LeastExists(rest);
      var other :| IsLeast(other, rest);
      NamesTotal(some, other);
      if NameBelow(some, other) {
        forall n | n in names && n != some
          ensures NameBelow(some, n)
        {
          assert n in rest;
          if n != other {
            NamesTransitive(some, other, n);
          }
        }
        assert IsLeast(some, names);
      } else {
        assert IsLeast(other, names);
      }
    }
  }

  lemma LeastUnique(a: string, b: string, names: set<string>)
    requires IsLeast(a, names) && IsLeast(b, names)
    ensures a == b
  {
    NamesTotal(a, b);
  }

  lemma OneLeast(names: set<string>)
    ensures forall a, b :: IsLeast(a, names) && IsLeast(b, names) ==> a == b
  {
    forall a, b | IsLeast(a, names) && IsLeast(b, names)
      ensures a == b
    {
      LeastUnique(a, b, names);
    }
  }

  /** The names in byte order, as a sort by ByBytes leaves them. */
  function SortNames(names: set<string>): (sorted: seq<string>)
    ensures Ascending(sorted)
    ensures forall n :: n in names <==> n in sorted
    ensures |sorted| == |names|
  {
    if names == {} then
      []
    else
      LeastExists(names);
      OneLeast(names);
      var least :| least in names && IsLeast(least, names);
      [least] + SortNames(names - {least})
  }

  /** Names have one ascending order, so sorting gives one result however the
      names were collected. */
  lemma {:induction false} AscendingUnique(a: seq<string>, b: seq<string>)
    requires Ascending(a) && Ascending(b)
    requires forall n :: n in a <==> n in b
    ensures a == b
  {
    var x, y := if a == [] then "" else a[0], if b == [] then "" else b[0];
    assert a != [] ==> x in a && x in b;
    assert b != [] ==> y in a && y in b;
    if a != [] && b != [] {
      assert a[0] in b && b[0] in a;
      NamesTotal(a[0], b[0]);
      forall n
        ensures n in a[1..] <==> n in b[1..]
      {
        NamesTotal(n, n);
        assert n in a <==> n == a[0] || n in a[1..];
        assert n in b <==> n == b[0] || n in b[1..];
      }
      AscendingUnique(a[1..], b[1..]);
      assert a == [a[0]] + a[1..] && b == [b[0]] + b[1..];
    }
  }

  lemma SortedOnce(sorted: seq<string>, k: nat, n: string)
    requires Ascending(sorted) && k < |sorted|
    ensures n in sorted[..k] + sorted[k + 1..] <==> n in sorted && n != sorted[k]
  {
    NamesTotal(n, n);
    if n in sorted {
      var i :| 0 <= i < |sorted| && sorted[i] == n;
      assert i < k ==> (sorted[..k] + sorted[k + 1..])[i] == n;
      assert i > k ==> (sorted[..k] + sorted[k + 1..])[i - 1] == n;
    }
  }

  /** Leaving a name out leaves the others in their places. */
  lemma SortWithout(names: set<string>, name: string) returns (k: nat)
    requires name in names
    ensures k < |SortNames(names)| && SortNames(names)[k] == name
    ensures SortNames(names - {name}) == SortNames(names)[..k] + SortNames(names)[k + 1..]
  {
    hide SortNames, NameBelow;
    var sorted := SortNames(names);
    k :| 0 <= k < |sorted| && sorted[k] == name;
    var rest := sorted[..k] + sorted[k + 1..];
    assert Ascending(rest) by {
      forall i, j | 0 <= i < j < |rest|
        ensures NameBelow(rest[i], rest[j])
      {
        assert rest[i] == sorted[if i < k then i else i + 1];
        assert rest[j] == sorted[if j < k then j else j + 1];
      }
    }
    forall n
      ensures n in rest <==> n in SortNames(names - {name})
    {
      SortedOnce(sorted, k, n);
    }
    AscendingUnique(rest, SortNames(names - {name}));
  }
}
