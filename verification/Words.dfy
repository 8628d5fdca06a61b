/**
 Unsigned machine words, the bit operations the packet code applies to them, and
 the big-endian byte order of the wire.  Go's fixed-width arithmetic is written
 out: a result that leaves its width is reduced explicitly.
 */
module Words {

  datatype Option<+T> = None | Some(value: T)

  type uint8 = x: int | 0 <= x < 0x100
  type uint16 = x: int | 0 <= x < 0x1_0000
  type uint32 = x: int | 0 <= x < 0x1_0000_0000

  function Wrap8(x: int): uint8 { x % 0x100 }
  function Wrap16(x: int): uint16 { x % 0x1_0000 }
  function Wrap32(x: int): uint32 { x % 0x1_0000_0000 }

  /** Go's conversion to int16: keep the low sixteen bits, read them as two's complement. */
  function ToInt16(x: int): (r: int)
    ensures -0x8000 <= r < 0x8000
    ensures r == x <==> -0x8000 <= x < 0x8000
  {
    if x % 0x1_0000 < 0x8000 then x % 0x1_0000 else x % 0x1_0000 - 0x1_0000
  }

  /** Go's integer division truncates toward zero. */
  function TruncDiv(a: int, b: int): int
    requires b > 0
  {
    if a >= 0 then a / b else -((-a) / b)
  }

  /** Multiplying the truncated quotient back loses less than one divisor, toward zero. */
  lemma {:induction false} TruncDivError(a: int, b: int)
    requires b > 0
    ensures -b < a - TruncDiv(a, b) * b < b
  {
    if a >= 0 {
      assert a == b * (a / b) + a % b;
    } else {
      assert -a == b * ((-a) / b) + (-a) % b;
    }
  }

  function Pow2(n: nat): nat
    ensures Pow2(n) > 0
  {
    if n == 0 then 1 else 2 * Pow2(n - 1)
  }

  lemma {:induction false} Pow2Add(m: nat, n: nat)
    ensures Pow2(m + n) == Pow2(m) * Pow2(n)
  {
    if m == 0 {
    } else {
      Pow2Add(m - 1, n);
      assert Pow2(m + n) == 2 * (Pow2(m - 1) * Pow2(n));
    }
  }

  lemma {:induction false} Pow2Sixteen()
    ensures Pow2(16) == 0x1_0000
  {
    assert Pow2(4) == 16;
    Pow2Add(4, 4);
    Pow2Add(8, 8);
  }

  /** Bitwise or of two unsigned words. */
  function Or(a: nat, b: nat): nat
    decreases a + b
  {
    if a == 0 then b
    else if b == 0 then a
    else 2 * Or(a / 2, b / 2) + (if a % 2 == 1 || b % 2 == 1 then 1 else 0)
  }

  lemma {:induction false} OrCommutes(a: nat, b: nat)
    ensures Or(a, b) == Or(b, a)
    decreases a + b
  {
    if a == 0 || b == 0 {
    } else {
      OrCommutes(a / 2, b / 2);
    }
  }

  /** When the set bits of two words cannot meet, or is addition. */
  lemma {:induction false} OrDisjoint(q: nat, k: nat, b: nat)
    requires b < Pow2(k)
    ensures Or(q * Pow2(k), b) == q * Pow2(k) + b
    decreases k
  {
    if k == 0 || q == 0 || b == 0 {
    } else {
      var a := q * Pow2(k);
      assert a == 2 * (q * Pow2(k - 1));
      OrDisjoint(q, k - 1, b / 2);
      assert a > 0;
    }
  }

  /** Setting a single bit that is clear. */
  lemma {:induction false} OrBit(q: nat, h: nat, k: nat)
    requires h < Pow2(k)
    ensures Or(q * Pow2(k + 1) + h, Pow2(k)) == q * Pow2(k + 1) + h + Pow2(k)
  {
    var a := q * Pow2(k + 1) + h;
    assert a == 2 * (q * Pow2(k)) + h;
    if k == 0 || a == 0 {
    } else {
      OrBit(q, h / 2, k - 1);
    }
  }

  function U16Bytes(w: uint16): seq<uint8> { [w / 0x100, w % 0x100] }

  function U16At(s: seq<uint8>, i: nat): uint16
    requires i + 2 <= |s|
  {
    var hi: int, lo: int := s[i], s[i + 1];
    hi * 0x100 + lo
  }

  function U32Bytes(w: uint32): seq<uint8> {
    [w / 0x100_0000, w / 0x1_0000 % 0x100, w / 0x100 % 0x100, w % 0x100]
  }

  function U32At(s: seq<uint8>, i: nat): uint32
    requires i + 4 <= |s|
  {
    U16At(s, i) as int * 0x1_0000 + U16At(s, i + 2) as int
  }

  /** binary.BigEndian.PutUint16: two bytes stored in place. */
  method PutUint16(a: array<uint8>, i: nat, w: uint16)
    requires i + 2 <= a.Length
    modifies a
    ensures a[..] == old(a[..i]) + U16Bytes(w) + old(a[i + 2..])
  {
    a[i], a[i + 1] := w / 0x100, w % 0x100;
  }

  /** copy: the bytes of p stored in place from offset off. */
  method CopyInto(a: array<uint8>, off: nat, p: seq<uint8>)
    requires off + |p| <= a.Length
    modifies a
    ensures a[..] == old(a[..off]) + p + old(a[off + |p|..])
  {
    for k := 0 to |p|
      invariant a[..] == old(a[..off]) + p[..k] + old(a[off + k..])
    {
      a[off + k] := p[k];
    }
  }

  /** binary.BigEndian.PutUint32: four bytes stored in place. */
  method PutUint32(a: array<uint8>, i: nat, w: uint32)
    requires i + 4 <= a.Length
    modifies a
    ensures a[..] == old(a[..i]) + U32Bytes(w) + old(a[i + 4..])
  {
    a[i], a[i + 1], a[i + 2], a[i + 3] :=
      w / 0x100_0000, w / 0x1_0000 % 0x100, w / 0x100 % 0x100, w % 0x100;
  }

  /** The concatenation of f over a list. */
  function FlatMap<T, U>(f: T -> seq<U>, s: seq<T>): seq<U> {
    if s == [] then [] else FlatMap(f, s[..|s| - 1]) + f(s[|s| - 1])
  }
}
