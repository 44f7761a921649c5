// UTF-8, as far as hashing and indentation look at bytes.
module Utf8 {
  import opened Sequences

  type byte = x: nat | x < 256

  function Utf8Char(c: char): (bytes: seq<byte>)
    ensures 1 <= |bytes| <= 4
  {
    var n := c as int;
    if n < 0x80 then [n]
    else if n < 0x800 then [0xC0 + n / 64, 0x80 + n % 64]
    else if n < 0x1_0000 then [0xE0 + n / 64 / 64, 0x80 + n / 64 % 64, 0x80 + n % 64]
    else [0xF0 + n / 64 / 64 / 64, 0x80 + n / 64 / 64 % 64, 0x80 + n / 64 % 64, 0x80 + n % 64]
  }

  function Bytes(s: string): seq<byte> {
    if s == [] then [] else Utf8Char(s[0]) + Bytes(s[1..])
  }

  lemma {:induction false} BytesConcat(a: string, b: string)
    ensures Bytes(a + b) == Bytes(a) + Bytes(b)
  {
    if a == [] {
      assert a + b == b;
    } else {
      BytesConcat(a[1..], b);
      assert (a + b)[1..] == a[1..] + b;
      Reassociate(Utf8Char(a[0]), Bytes(a[1..]), Bytes(b));
    }
  }

  lemma NonZeroStart(a: string, x: seq<byte>)
    requires a != [] && '\0' !in a
    ensures (Bytes(a) + [0] + x)[0] != 0
  {
    assert a[0] in a;
    assert Bytes(a)[0] == Utf8Char(a[0])[0];
  }

  /** Six bits in each byte that follows, the rest in the first one below its marker. */
  lemma Utf8CharSpelled(c: char)
    ensures var b: seq<int> := Utf8Char(c);
            && (forall i :: 0 < i < |b| ==> 0x80 <= b[i] < 0xC0)
            && (|b| == 1 ==> b[0] < 0x80 && c as int == b[0])
            && (|b| == 2 ==> 0xC0 <= b[0] < 0xE0 && c as int == (b[0] - 0xC0) * 64 + (b[1] - 0x80))
            && (|b| == 3 ==> 0xE0 <= b[0] < 0xF0
                             && c as int == ((b[0] - 0xE0) * 64 + (b[1] - 0x80)) * 64 + (b[2] - 0x80))
            && (|b| == 4 ==> 0xF0 <= b[0] < 0xF8
                             && c as int
                             == (((b[0] - 0xF0) * 64 + (b[1] - 0x80)) * 64 + (b[2] - 0x80)) * 64 + (b[3] - 0x80))
  {
  }

  /** The first byte tells how many follow. */
  lemma Utf8CharLength(a: char, b: char)
    requires Utf8Char(a)[0] == Utf8Char(b)[0]
    ensures |Utf8Char(a)| == |Utf8Char(b)|
  {
    LengthOfFirst(a);
    LengthOfFirst(b);
  }

  lemma LengthOfFirst(c: char)
    ensures var first := Utf8Char(c)[0];
            |Utf8Char(c)| == if first < 0x80 then 1 else if first < 0xE0 then 2 else if first < 0xF0 then 3 else 4
  {
  }

  lemma Utf8CharDecodes(a: char, b: char)
    requires Utf8Char(a) == Utf8Char(b)
    ensures a == b
  {
    var x, y := Utf8Char(a), Utf8Char(b);
    assert x[0] == y[0];
    assert |x| > 1 ==> x[1] == y[1];
    assert |x| > 2 ==> x[2] == y[2];
    assert |x| > 3 ==> x[3] == y[3];
    assert a as int == b as int;
  }

  lemma Utf8CharPrefix(a: char, b: char, x: seq<byte>, y: seq<byte>)
    requires Utf8Char(a) + x == Utf8Char(b) + y
    ensures a == b && x == y
  {
    var p, q := Utf8Char(a), Utf8Char(b);
    assert (p + x)[0] == p[0] && (q + y)[0] == q[0];
    Utf8CharLength(a, b);
    assert p == (p + x)[..|p|] == (q + y)[..|q|] == q;
    Utf8CharDecodes(a, b);
    assert x == (p + x)[|p|..] == (q + y)[|q|..] == y;
  }

  lemma {:induction false} Utf8Joint(a: string, b: string, x: seq<byte>, y: seq<byte>)
    requires '\0' !in a && '\0' !in b
    requires Bytes(a) + [0] + x == Bytes(b) + [0] + y
    ensures a == b && x == y
  {
    var s := Bytes(a) + [0] + x;
    if a == [] && b == [] {
      assert x == s[1..] == y;
    } else if a == [] {
      NonZeroStart(b, y);
    } else if b == [] {
      NonZeroStart(a, x);
    } else {
      var x', y' := Bytes(a[1..]) + [0] + x, Bytes(b[1..]) + [0] + y;
      assert s == Utf8Char(a[0]) + x' == Utf8Char(b[0]) + y';
      Utf8CharPrefix(a[0], b[0], x', y');
      Utf8Joint(a[1..], b[1..], x, y);
      assert a == [a[0]] + a[1..] && b == [b[0]] + b[1..];
    }
  }
}
