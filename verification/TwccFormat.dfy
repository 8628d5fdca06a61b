/**
 The packet status chunks and receive deltas of a transport-wide congestion control
 feedback message, as sections 3.1.2 to 3.1.5 of
 draft-holmer-rmcat-transport-wide-cc-extensions-01 lay them out: an encoder for
 chunk values, and a decoder that reads the bytes with no knowledge of the encoder.
 */
module TwccFormat {
  import opened Words

  /** A two-bit packet status symbol. */
  type Symbol = x: int | 0 <= x < 4

  const NOT_RECEIVED: Symbol := 0
  const SMALL_DELTA: Symbol := 1
  const LARGE_DELTA: Symbol := 2
  const WITHOUT_DELTA: Symbol := 3

  datatype Chunk =
    | RunLength(symbol: Symbol, length: nat)
    | StatusVector(twoBit: bool, symbols: seq<Symbol>)

  /** How many symbols a status vector chunk has room for, and how many values each takes. */
  function Capacity(twoBit: bool): nat { if twoBit then 7 else 14 }
  function Base(twoBit: bool): nat { if twoBit then 4 else 2 }

  predicate Below(s: seq<Symbol>, base: nat) {
    forall i :: 0 <= i < |s| ==> s[i] < base
  }

  /** A chunk whose content fits the fields of its word. */
  predicate Encodable(c: Chunk) {
    match c
    case RunLength(_, n) => n < 0x2000
    case StatusVector(two, s) => |s| <= Capacity(two) && Below(s, Base(two))
  }

  function Repeat<T>(x: T, n: nat): (r: seq<T>)
    ensures |r| == n && forall i :: 0 <= i < n ==> r[i] == x
  {
    seq(n, _ => x)
  }

  /** The statuses a chunk stands for; a vector with fewer symbols than its room ends in "not received". */
  function Symbols(c: Chunk): seq<Symbol> {
    match c
    case RunLength(x, n) => Repeat(x, n)
    case StatusVector(two, s) =>
      if |s| <= Capacity(two) then s + Repeat(NOT_RECEIVED, Capacity(two) - |s|) else s
  }

  function Expand(cs: seq<Chunk>): seq<Symbol> { FlatMap(Symbols, cs) }

  // ---------------------------------------------------------------- encoder

  /** A list of digits read as a number, first digit most significant. */
  function Horner(s: seq<Symbol>, base: nat): nat {
    if s == [] then 0 else Horner(s[..|s| - 1], base) * base + s[|s| - 1]
  }

  /** The sixteen-bit word of a chunk. */
  function ChunkWord(c: Chunk): uint16 {
    match c
    case RunLength(x, n) => Wrap16(Or(Wrap16(x * 0x2000), Wrap16(n)))
    case StatusVector(two, s) =>
      Wrap16(0x8000 + (if two then 0x4000 else 0) + Horner(Symbols(c), Base(two)))
  }

  function ChunkBytes(cs: seq<Chunk>): seq<uint8> {
    FlatMap((c: Chunk) => U16Bytes(ChunkWord(c)), cs)
  }

  // ---------------------------------------------------------------- decoder

  /** The last n base-b digits of a number, most significant first. */
  function Digits(w: nat, base: nat, n: nat): (r: seq<Symbol>)
    requires 2 <= base <= 4
    ensures |r| == n
  {
    if n == 0 then [] else Digits(w / base, base, n - 1) + [w % base]
  }

  /** What a reader takes a chunk word to mean. */
  function ReadWord(w: uint16): seq<Symbol> {
    if w < 0x8000 then Repeat((w / 0x2000) % 4, w % 0x2000)
    else if (w / 0x4000) % 2 == 1 then Digits(w, 4, 7)
    else Digits(w, 2, 14)
  }

  /** Reads words until `count` items are known; also returns the bytes that follow them. */
  function ReadItems<T>(read: uint16 -> seq<T>, bytes: seq<uint8>, count: nat): Option<(seq<T>, seq<uint8>)> {
    if count == 0 then Some(([], bytes))
    else if |bytes| < 2 then None
    else
      var s := read(U16At(bytes, 0));
      if |s| >= count then Some((s[..count], bytes[2..]))
      else match ReadItems(read, bytes[2..], count - |s|)
        case None => None
        case Some(r) => Some((s + r.0, r.1))
  }

  /** Reads chunks until `count` statuses are known. */
  function ReadStatuses(bytes: seq<uint8>, count: nat): Option<(seq<Symbol>, seq<uint8>)> {
    ReadItems(ReadWord, bytes, count)
  }

  /** Reads one delta per received status: an unsigned byte, or a signed sixteen-bit word. */
  function ReadDeltas(statuses: seq<Symbol>, bytes: seq<uint8>): Option<(seq<int>, seq<uint8>)> {
    if statuses == [] then Some(([], bytes))
    else if statuses[0] == 1 then
      if |bytes| < 1 then None
      else match ReadDeltas(statuses[1..], bytes[1..])
        case None => None
        case Some(r) => Some(([bytes[0] as int] + r.0, r.1))
    else if statuses[0] == 2 then
      if |bytes| < 2 then None
      else match ReadDeltas(statuses[1..], bytes[2..])
        case None => None
        case Some(r) => Some(([ToInt16(U16At(bytes, 0))] + r.0, r.1))
    else ReadDeltas(statuses[1..], bytes)
  }

  // ---------------------------------------------------------------- round trips

  /** Horner and Digits are inverse, whatever multiple of the modulus sits above. */
  lemma {:induction false} DigitsOfHorner(s: seq<Symbol>, base: nat, above: nat)
    requires 2 <= base <= 4 && Below(s, base)
    ensures Digits(above * Power(base, |s|) + Horner(s, base), base, |s|) == s
  {
    if s == [] {
    } else {
      var front, last := s[..|s| - 1], s[|s| - 1];
      var w := above * Power(base, |s|) + Horner(s, base);
      var q := above * Power(base, |s| - 1) + Horner(front, base);
      assert w == q * base + last by {
        MulAssoc(above, Power(base, |s| - 1), base);
      }
      QuotientUnique(q, base, last);
      DigitsOfHorner(front, base, above);
      assert s == front + [last];
    }
  }

  function Power(base: nat, n: nat): nat {
    if n == 0 then 1 else Power(base, n - 1) * base
  }

  lemma {:induction false} MulAssoc(a: int, b: int, c: int)
    ensures a * (b * c) == (a * b) * c
  {
  }

  lemma {:induction false} QuotientUnique(q: nat, base: nat, r: nat)
    requires 2 <= base <= 4 && r < base
    ensures (q * base + r) / base == q && (q * base + r) % base == r
  {
    if base == 2 {
    } else if base == 3 {
    } else {
    }
  }

  lemma {:induction false} HornerBound(s: seq<Symbol>, base: nat)
    requires 2 <= base <= 4 && Below(s, base)
    ensures Horner(s, base) < Power(base, |s|)
  {
    if s == [] {
    } else {
      var front, last := s[..|s| - 1], s[|s| - 1];
      HornerBound(front, base);
      ScaleBound(Horner(front, base), Power(base, |front|), base, last);
    }
  }

  lemma {:induction false} ScaleBound(h: nat, p: nat, base: nat, r: nat)
    requires 2 <= base <= 4 && h < p && r < base
    ensures h * base + r < p * base
  {
    if base == 2 {
    } else if base == 3 {
    } else {
    }
  }

  lemma {:induction false} Powers()
    ensures Power(4, 7) == 0x4000 && Power(2, 14) == 0x4000
  {
    assert Power(4, 3) == 64;
    assert Power(4, 5) == 1024;
    assert Power(4, 7) == 0x4000;
    assert Power(2, 4) == 16;
    assert Power(2, 8) == 256;
    assert Power(2, 12) == 4096;
    assert Power(2, 14) == 0x4000;
  }

  lemma {:induction false} Pow2Thirteen()
    ensures Pow2(13) == 0x2000
  {
    assert Pow2(5) == 32;
    assert Pow2(9) == 512;
  }

  lemma {:induction false} RunWord(x: Symbol, n: nat)
    requires n < 0x2000
    ensures Or(x * 0x2000, n) == x * 0x2000 + n
  {
    Pow2Thirteen();
    OrDisjoint(x, 13, n);
  }

  lemma {:induction false} RunFields(x: Symbol, n: nat)
    requires n < 0x2000
    ensures (x * 0x2000 + n) / 0x2000 == x && (x * 0x2000 + n) % 0x2000 == n
  {
  }

  lemma {:induction false} VectorWord(two: bool, s: seq<Symbol>)
    requires Encodable(StatusVector(two, s))
    ensures var padded := Symbols(StatusVector(two, s));
            && |padded| == Capacity(two) && Below(padded, Base(two))
            && Horner(padded, Base(two)) < 0x4000
            && Digits((if two then 3 else 2) * 0x4000 + Horner(padded, Base(two)), Base(two), Capacity(two)) == padded
  {
    var padded := Symbols(StatusVector(two, s));
    Powers();
    HornerBound(padded, Base(two));
    DigitsOfHorner(padded, Base(two), if two then 3 else 2);
  }

  lemma {:induction false} VectorFields(two: bool, h: nat)
    requires h < 0x4000
    ensures var w := 0x8000 + (if two then 0x4000 else 0) + h;
            && w < 0x1_0000 && ((w / 0x4000) % 2 == 1 <==> two)
  {
  }

  lemma {:induction false} RunRoundTrip(x: Symbol, n: nat)
    requires n < 0x2000
    ensures ReadWord(ChunkWord(RunLength(x, n))) == Repeat(x, n)
  {
    hide Or, Repeat, Digits;
    RunWord(x, n);
    RunFields(x, n);
    assert ChunkWord(RunLength(x, n)) == x * 0x2000 + n;
  }

  lemma {:induction false} VectorRoundTrip(two: bool, s: seq<Symbol>)
    requires Encodable(StatusVector(two, s))
    ensures ReadWord(ChunkWord(StatusVector(two, s))) == Symbols(StatusVector(two, s))
  {
    VectorWord(two, s);
    VectorFields(two, Horner(Symbols(StatusVector(two, s)), Base(two)));
  }

  /** A reader recovers the statuses of every encodable chunk from its word. */
  lemma {:induction false} WordRoundTrip(c: Chunk)
    requires Encodable(c)
    ensures ReadWord(ChunkWord(c)) == Symbols(c)
  {
    match c
    case RunLength(x, n) => RunRoundTrip(x, n);
    case StatusVector(two, s) => VectorRoundTrip(two, s);
  }

  // ---------------------------------------------------------------- streams of chunks

  /** A reader that used up its bytes goes on with whatever is appended to them. */
  lemma {:induction false} ReadOn<T>(read: uint16 -> seq<T>, bytes: seq<uint8>, count: nat, s: seq<T>, tail: seq<uint8>, more: nat)
    requires ReadItems(read, bytes, count) == Some((s, []))
    requires ReadItems(read, bytes, count + 1) == None
    requires more > 0
    ensures ReadItems(read, bytes + tail, count + more) ==
            match ReadItems(read, tail, more)
            case None => None
            case Some(r) => Some((s + r.0, r.1))
  {
    if count == 0 {
      assert bytes + tail == tail;
      match ReadItems(read, tail, more)
      case None =>
      case Some(r) => assert [] + r.0 == r.0;
    } else {
      var first := read(U16At(bytes, 0));
      assert (bytes + tail)[2..] == bytes[2..] + tail;
      assert U16At(bytes + tail, 0) == U16At(bytes, 0);
      if |first| >= count {
        assert bytes[2..] == [] && |first| == count;
        assert s == first && (bytes + tail)[2..] == tail;
      } else {
        var r := ReadItems(read, bytes[2..], count - |first|).value;
        ReadOn(read, bytes[2..], count - |first|, r.0, tail, more);
        match ReadItems(read, tail, more)
        case None =>
        case Some(t) => assert first + (r.0 + t.0) == s + t.0;
      }
    }
  }

  /** Bytes appended to a stream of which every item is read are left over. */
  lemma {:induction false} ReadAllItems<T>(read: uint16 -> seq<T>, bytes: seq<uint8>, count: nat, s: seq<T>, tail: seq<uint8>)
    requires ReadItems(read, bytes, count) == Some((s, []))
    requires count > 0
    ensures ReadItems(read, bytes + tail, count) == Some((s, tail))
  {
    var first := read(U16At(bytes, 0));
    assert (bytes + tail)[2..] == bytes[2..] + tail;
    assert U16At(bytes + tail, 0) == U16At(bytes, 0);
    if |first| >= count {
      assert bytes[2..] + tail == tail;
    } else {
      var r := ReadItems(read, bytes[2..], count - |first|).value;
      ReadAllItems(read, bytes[2..], count - |first|, r.0, tail);
    }
  }

  lemma {:induction false} ReadLastItems<T>(read: uint16 -> seq<T>, w: uint16, rest: seq<uint8>, count: nat)
    requires 0 < count <= |read(w)|
    ensures ReadItems(read, U16Bytes(w) + rest, count) == Some((read(w)[..count], rest))
    ensures ReadItems(read, U16Bytes(w), |read(w)| + 1) == None
  {
    var bytes := U16Bytes(w) + rest;
    assert U16At(bytes, 0) == w && U16At(U16Bytes(w), 0) == w;
    assert bytes[2..] == rest;
  }

  /** The bytes of a list of chunks stand for exactly the statuses of the list, and no more. */
  predicate ReadsAs(cs: seq<Chunk>) {
    && ReadStatuses(ChunkBytes(cs), |Expand(cs)|) == Some((Expand(cs), []))
    && ReadStatuses(ChunkBytes(cs), |Expand(cs)| + 1) == None
  }

  /**
   Reading a stream of chunks of which the last is read only in part returns the
   statuses they stand for and leaves the bytes that follow.
   */
  lemma {:induction false} ReadChunks(front: seq<Chunk>, last: Chunk, tail: seq<uint8>, n: nat)
    requires ReadsAs(front)
    requires Encodable(last) && 0 < n <= |Symbols(last)|
    ensures ReadStatuses(ChunkBytes(front) + (U16Bytes(ChunkWord(last)) + tail), |Expand(front)| + n)
         == Some((Expand(front) + Symbols(last)[..n], tail))
  {
    WordRoundTrip(last);
    ReadLastItems(ReadWord, ChunkWord(last), tail, n);
    ReadOn(ReadWord, ChunkBytes(front), |Expand(front)|, Expand(front), U16Bytes(ChunkWord(last)) + tail, n);
  }

  lemma {:induction false} NothingAfterLast(front: seq<Chunk>, last: Chunk)
    requires ReadsAs(front)
    requires Encodable(last) && 0 < |Symbols(last)|
    ensures ReadStatuses(ChunkBytes(front) + U16Bytes(ChunkWord(last)), |Expand(front)| + |Symbols(last)| + 1) == None
  {
    WordRoundTrip(last);
    ReadLastItems(ReadWord, ChunkWord(last), [], |Symbols(last)|);
    ReadOn(ReadWord, ChunkBytes(front), |Expand(front)|, Expand(front), U16Bytes(ChunkWord(last)), |Symbols(last)| + 1);
  }

  /** Reading as many statuses as a list of nonempty chunks stands for uses up their bytes exactly. */
  lemma {:induction false} ReadAllChunks(cs: seq<Chunk>)
    requires forall i :: 0 <= i < |cs| ==> Encodable(cs[i]) && |Symbols(cs[i])| > 0
    ensures ReadsAs(cs)
  {
    if cs == [] {
    } else {
      var front, last := cs[..|cs| - 1], cs[|cs| - 1];
      ReadAllChunks(front);
      ReadChunks(front, last, [], |Symbols(last)|);
      NothingAfterLast(front, last);
      assert Symbols(last)[..|Symbols(last)|] == Symbols(last);
      assert U16Bytes(ChunkWord(last)) + [] == U16Bytes(ChunkWord(last));
    }
  }

  // ---------------------------------------------------------------- bit by bit

  /** Puts the low `size` bits of val into src, `startIndex` bits from the top; does nothing useful past the end. */
  function SetNBitsOfUint16(src: uint16, size: nat, startIndex: nat, val: uint16): uint16 {
    if startIndex + size > 16 then 0
    else Wrap16(Or(src, Wrap16(val % Pow2(size) * Pow2(16 - size - startIndex))))
  }

  /** A vector word under construction: the symbols so far, in the top bits below the two flag bits. */
  function PartialVector(two: bool, s: seq<Symbol>): nat
    requires |s| <= Capacity(two)
  {
    Horner(s, Base(two)) * Power(Base(two), Capacity(two) - |s|)
  }

  function Bits(two: bool): nat { if two then 2 else 1 }

  lemma {:induction false} PowerIsPow2(two: bool, k: nat)
    ensures Power(Base(two), k) == Pow2(Bits(two) * k)
  {
    if k == 0 {
    } else {
      PowerIsPow2(two, k - 1);
      assert Bits(two) * k == Bits(two) * (k - 1) + Bits(two);
      if two {
        assert Pow2(2 * k) == 2 * Pow2(2 * k - 1);
      }
    }
  }

  lemma {:induction false} PartialBound(two: bool, s: seq<Symbol>)
    requires |s| <= Capacity(two) && Below(s, Base(two))
    ensures PartialVector(two, s) < 0x4000
  {
    var b, n := Base(two), Capacity(two);
    HornerBound(s, b);
    PowerAdd(b, |s|, n - |s|);
    Powers();
    assert Horner(s, b) * Power(b, n - |s|) < Power(b, |s|) * Power(b, n - |s|) by {
      MulLess(Horner(s, b), Power(b, |s|), Power(b, n - |s|));
    }
  }

  lemma {:induction false} PowerAdd(b: nat, m: nat, n: nat)
    requires b > 0
    ensures Power(b, m + n) == Power(b, m) * Power(b, n) && Power(b, n) > 0
  {
    if n == 0 {
    } else {
      PowerAdd(b, m, n - 1);
      MulAssoc(Power(b, m), Power(b, n - 1), b);
    }
  }

  lemma {:induction false} MulLess(x: nat, y: nat, z: nat)
    requires x < y && 0 < z
    ensures x * z < y * z
  {
  }

  lemma {:induction false} SetBits(src: uint16, size: nat, startIndex: nat, val: uint16, unit: nat)
    requires startIndex + size <= 16 && val < Pow2(size) && unit == Pow2(16 - size - startIndex)
    requires val * unit < 0x1_0000 && Or(src, val * unit) < 0x1_0000
    ensures SetNBitsOfUint16(src, size, startIndex, val) == Or(src, val * unit)
  {
    hide Pow2, Or;
    SmallModulus(val, Pow2(size));
    SmallModulus(val * unit, 0x1_0000);
    SmallModulus(Or(src, val * unit), 0x1_0000);
  }

  lemma {:induction false} SmallModulus(x: nat, m: nat)
    requires x < m
    ensures x % m == x
  {
  }

  /** The symbol's place value, as a power of two. */
  lemma {:induction false} SymbolUnit(two: bool, i: nat)
    requires i < Capacity(two)
    ensures var bits := Bits(two);
            && Pow2(bits) == Base(two)
            && 16 - bits - (bits * i + 2) == bits * (Capacity(two) - 1 - i)
            && Pow2(bits * (Capacity(two) - 1 - i)) == Power(Base(two), Capacity(two) - 1 - i)
            && Pow2(bits * (Capacity(two) - i)) == Power(Base(two), Capacity(two) - 1 - i) * Base(two)
  {
    PowerIsPow2(two, Capacity(two) - 1 - i);
    PowerIsPow2(two, Capacity(two) - i);
    assert Pow2(1) == 2;
  }

  /** Writing the next symbol into the word under construction. */
  lemma {:induction false} SetNextSymbol(two: bool, s: seq<Symbol>, x: Symbol)
    requires |s| < Capacity(two) && Below(s + [x], Base(two))
    ensures PartialVector(two, s) < 0x4000
    ensures SetNBitsOfUint16(PartialVector(two, s), Bits(two), Bits(two) * |s| + 2, x)
         == PartialVector(two, s + [x])
  {
    hide Or, Pow2, SetNBitsOfUint16;
    var b, bits, n, i := Base(two), Bits(two), Capacity(two), |s|;
    var t := s + [x];
    assert t[i] == x && t[..i] == s;
    assert Below(s, b) by {
      assert forall k :: 0 <= k < i ==> s[k] == t[k];
    }
    PartialBound(two, s);
    PartialBound(two, t);
    SymbolUnit(two, i);
    var unit := Power(b, n - 1 - i);
    PowerAdd(b, 0, n - 1 - i);
    PlaceSymbol(Horner(s, b), b, x, unit, bits * (n - i));
    assert PartialVector(two, t) == Or(PartialVector(two, s), x * unit);
    assert x * unit <= PartialVector(two, t);
    SetBits(PartialVector(two, s), bits, bits * i + 2, x, unit);
  }

  lemma {:induction false} PlaceSymbol(h: nat, b: nat, x: nat, unit: nat, k: nat)
    requires x < b && unit > 0 && Pow2(k) == unit * b
    ensures Or(h * (unit * b), x * unit) == (h * b + x) * unit
    ensures x * unit <= (h * b + x) * unit
  {
    MulLess(x, b, unit);
    OrDisjoint(h, k, x * unit);
    assert h * (unit * b) == (h * b) * unit by {
      assert unit * b == b * unit;
      MulAssoc(h, b, unit);
    }
    assert (h * b + x) * unit == (h * b) * unit + x * unit;
  }

  lemma {:induction false} HornerPadded(s: seq<Symbol>, base: nat, k: nat)
    ensures Horner(s + Repeat(NOT_RECEIVED, k), base) == Horner(s, base) * Power(base, k)
  {
    var t := s + Repeat(NOT_RECEIVED, k);
    if k == 0 {
      assert t == s;
    } else {
      HornerPadded(s, base, k - 1);
      assert t[..|t| - 1] == s + Repeat(NOT_RECEIVED, k - 1);
      MulAssoc(Horner(s, base), Power(base, k - 1), base);
    }
  }

  lemma {:induction false} OrTop(h: nat, k: nat)
    requires h < Pow2(k)
    ensures Or(h, Pow2(k)) == Pow2(k) + h
  {
    OrDisjoint(1, k, h);
    OrCommutes(h, Pow2(k));
  }

  lemma {:induction false} TopPowers()
    ensures Pow2(14) == 0x4000 && Pow2(15) == 0x8000 && Pow2(1) == 2
  {
    Pow2Thirteen();
  }

  /** The type bit and the size bit complete the word of a status vector chunk. */
  lemma {:induction false} FinishVector(two: bool, s: seq<Symbol>)
    requires |s| <= Capacity(two) && Below(s, Base(two))
    ensures PartialVector(two, s) < 0x4000
    ensures var typed := SetNBitsOfUint16(PartialVector(two, s), 1, 0, 1);
            SetNBitsOfUint16(typed, 1, 1, if two then 1 else 0) == ChunkWord(StatusVector(two, s))
  {
    var h := PartialVector(two, s);
    PartialBound(two, s);
    HornerPadded(s, Base(two), Capacity(two) - |s|);
    assert ChunkWord(StatusVector(two, s)) == 0x8000 + (if two then 0x4000 else 0) + h;
    FlagBits(two, h);
  }

  lemma {:induction false} FlagBits(two: bool, h: nat)
    requires h < 0x4000
    ensures SetNBitsOfUint16(SetNBitsOfUint16(h, 1, 0, 1), 1, 1, if two then 1 else 0)
         == 0x8000 + (if two then 0x4000 else 0) + h
  {
    TopPowers();
    OrTop(h, 15);
    SetBits(h, 1, 0, 1, 0x8000);
    if two {
      OrBit(1, h, 14);
      SetBits(0x8000 + h, 1, 1, 1, 0x4000);
    } else {
      SetBits(0x8000 + h, 1, 1, 0, 0x4000);
    }
  }
}
