/** Bytes in a buffer, and the primitive writers and readers of the compute protocol. */
module WireBytes {
  import opened Utils

  type Byte = x: nat | x < 0x100
  type Bytes = seq<Byte>

  /** What a reader yields: the value and the place after it. */
  datatype Got<+T> = Got(value: T, next: nat)

  // ---- A piece lies in a buffer ---------------------------------------------------------------------------

  predicate At(buf: Bytes, i: nat, piece: Bytes)
    decreases |piece|
  {
    if piece == [] then i <= |buf|
    else i < |buf| && buf[i] == piece[0] && At(buf, i + 1, piece[1..])
  }

  lemma {:induction false} AtInside(buf: Bytes, i: nat, piece: Bytes)
    ensures At(buf, i, piece) ==> i + |piece| <= |buf|
    decreases |piece|
  {
    if piece != [] {
      AtInside(buf, i + 1, piece[1..]);
    }
  }

  lemma {:induction false} AtIsSlice(buf: Bytes, i: nat, piece: Bytes)
    ensures At(buf, i, piece) <==> i + |piece| <= |buf| && buf[i..i + |piece|] == piece
    decreases |piece|
  {
    if piece != [] {
      AtIsSlice(buf, i + 1, piece[1..]);
      if i + |piece| <= |buf| {
        assert buf[i..i + |piece|] == [buf[i]] + buf[i + 1..i + |piece|];
        assert piece == [piece[0]] + piece[1..];
      }
    }
  }

  lemma {:induction false} AtParts(buf: Bytes, i: nat, a: Bytes, b: Bytes)
    ensures At(buf, i, a + b) <==> At(buf, i, a) && At(buf, i + |a|, b)
    decreases |a|
  {
    if a == [] {
      assert a + b == b;
      AtInside(buf, i, b);
    } else {
      AtParts(buf, i + 1, a[1..], b);
      assert (a + b)[1..] == a[1..] + b;
    }
  }

  // ---- Numbers, most significant byte first -----------------------------------------------------------------

  function Range(size: nat): nat { if size == 0 then 1 else 0x100 * Range(size - 1) }

  function WriteNumber(n: nat, size: nat): (b: Bytes)
    ensures |b| == size
    decreases n, size
  {
    if size == 0 then [] else WriteNumber(n / 0x100, size - 1) + [n % 0x100]
  }

  function NumberAt(buf: Bytes, i: nat, size: nat): nat
    requires i + size <= |buf|
  {
    if size == 0 then 0 else 0x100 * NumberAt(buf, i, size - 1) + buf[i + size - 1]
  }

  function ReadNumber(buf: Bytes, i: nat, size: nat): Option<Got<nat>> {
    if i + size > |buf| then None else Some(Got(NumberAt(buf, i, size), i + size))
  }

  lemma {:induction false} NumberIs(buf: Bytes, i: nat, size: nat, n: nat)
    requires i + size <= |buf| && n < Range(size)
    ensures NumberAt(buf, i, size) == n <==> At(buf, i, WriteNumber(n, size))
    decreases size
  {
    if size > 0 {
      NumberIs(buf, i, size - 1, n / 0x100);
      AtParts(buf, i, WriteNumber(n / 0x100, size - 1), [n % 0x100]);
      assert At(buf, i + size - 1, [n % 0x100]) <==> buf[i + size - 1] == n % 0x100;
    }
  }

  /** The number whose digits to the base 256 are given, the first one standing for most. */
  function FromDigits(digits: Bytes): nat {
    if digits == [] then 0 else 0x100 * FromDigits(digits[..|digits| - 1]) + digits[|digits| - 1]
  }

  /** A number is written as its digits, the most significant one first. */
  lemma {:induction false} WrittenAsDigits(digits: Bytes)
    ensures WriteNumber(FromDigits(digits), |digits|) == digits
    decreases |digits|
  {
    if digits != [] {
      var n := |digits| - 1;
      WrittenAsDigits(digits[..n]);
      LowByte(FromDigits(digits[..n]), n, digits[n]);
      assert digits == digits[..n] + [digits[n]];
    }
  }

  lemma LowByte(n: nat, size: nat, b: Byte)
    ensures WriteNumber(0x100 * n + b, size + 1) == WriteNumber(n, size) + [b]
  {
  }

  lemma {:induction false} NumberFits(buf: Bytes, i: nat, size: nat)
    requires i + size <= |buf|
    ensures NumberAt(buf, i, size) < Range(size)
    decreases size
  {
    if size > 0 {
      NumberFits(buf, i, size - 1);
    }
  }

  /** Reading gives exactly what was written there. */
  lemma NumberReadIff(buf: Bytes, i: nat, size: nat, n: nat, next: nat)
    ensures ReadNumber(buf, i, size) == Some(Got(n, next)) <==>
            n < Range(size) && At(buf, i, WriteNumber(n, size)) && next == i + size
  {
    if i + size <= |buf| {
      NumberFits(buf, i, size);
      if n < Range(size) {
        NumberIs(buf, i, size, n);
      }
    } else if n < Range(size) {
      AtInside(buf, i, WriteNumber(n, size));
    }
  }

  /** The writers shift, as the code does. */
  method WriteU32(buf: Bytes, v: nat) returns (r: Bytes)
    requires v < 0x1_0000_0000
    ensures r == buf + WriteNumber(v, 4)
  {
    r := buf + [v / 0x100_0000 % 0x100];
    r := r + [v / 0x1_0000 % 0x100];
    r := r + [v / 0x100 % 0x100];
    r := r + [v % 0x100];
    var a, b, c := v / 0x100, v / 0x1_0000, v / 0x100_0000;
    assert a / 0x100 == b && b / 0x100 == c && c / 0x100 == 0;
    assert WriteNumber(c, 1) == WriteNumber(0, 0) + [c % 0x100] == [c % 0x100];
    assert WriteNumber(b, 2) == WriteNumber(c, 1) + [b % 0x100];
    assert WriteNumber(a, 3) == WriteNumber(b, 2) + [a % 0x100];
    assert WriteNumber(v, 4) == WriteNumber(a, 3) + [v % 0x100];
  }

  /** Eight bytes, one after the other. */
  method ReadU64(buf: Bytes, i: nat) returns (r: Option<Got<nat>>)
    ensures r == ReadNumber(buf, i, 8)
  {
    if i + 8 > |buf| {
      return None;
    }
    var v: nat := 0;
    var k: nat := 0;
    while k < 8
      invariant k <= 8 && v == NumberAt(buf, i, k)
    {
      v := v * 0x100 + buf[i + k];
      k := k + 1;
    }
    r := Some(Got(v, i + 8));
  }

  // ---- Strings: a length and that many bytes ----------------------------------------------------------------

  predicate FitsLength(s: Bytes) { |s| < 0x1_0000_0000 }

  function WriteString(s: Bytes): Bytes { WriteNumber(|s|, 4) + s }

  function ReadString(buf: Bytes, i: nat): Option<Got<Bytes>> {
    match ReadNumber(buf, i, 4)
    case None => None
    case Some(length) =>
      if length.next + length.value > |buf| then None
      else Some(Got(buf[length.next..length.next + length.value], length.next + length.value))
  }

  lemma RangeOfFour()
    ensures Range(4) == 0x1_0000_0000 && Range(8) == 0x1_0000_0000_0000_0000 && Range(1) == 0x100
  {
    assert Range(1) == 0x100 * Range(0) && Range(2) == 0x100 * Range(1) && Range(3) == 0x100 * Range(2);
    assert Range(4) == 0x100 * Range(3) && Range(5) == 0x100 * Range(4) && Range(6) == 0x100 * Range(5);
    assert Range(7) == 0x100 * Range(6) && Range(8) == 0x100 * Range(7);
  }

  lemma StringReadIff(buf: Bytes, i: nat, s: Bytes, next: nat)
    ensures ReadString(buf, i) == Some(Got(s, next)) <==>
            FitsLength(s) && At(buf, i, WriteString(s)) && next == i + 4 + |s|
  {
    RangeOfFour();
    AtParts(buf, i, WriteNumber(|s|, 4), s);
    AtIsSlice(buf, i + 4, s);
    NumberReadIff(buf, i, 4, |s|, i + 4);
    if ReadNumber(buf, i, 4).Some? {
      NumberReadIff(buf, i, 4, ReadNumber(buf, i, 4).value.value, i + 4);
    }
  }
}
