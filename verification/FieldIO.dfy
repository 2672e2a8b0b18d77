/** The loops of protocol_analyzer.c that move one field between a value and the message buffer. */
module FieldIO {
  import opened CTypes
  import opened Bits
  import opened BitStream

  // ---------- what the loops compute, as runs of the bit stream ----------

  /** Stream position of a bit field's most significant bit. */
  function FieldStart(bytePos: nat, bitPos: nat): nat
    requires bitPos <= 7
  {
    8 * bytePos + 7 - bitPos
  }

  /** The masks are one bit too wide, so a field that does not begin at bit 7 also touches the bit above it. */
  function Surplus(bitPos: nat, len: nat): nat {
    if bitPos < 7 && len > 0 then 1 else 0
  }

  function WriteBits(dp: seq<uint8>, bytePos: nat, bitPos: nat, len: nat, v: nat): seq<uint8>
    requires bitPos <= 7
  {
    var extra := Surplus(bitPos, len);
    OrStream(dp, FieldStart(bytePos, bitPos) - extra, len + extra, v)
  }

  function ReadBits(dp: seq<uint8>, bytePos: nat, bitPos: nat, len: nat): uint32
    requires bitPos <= 7
  {
    var extra := Surplus(bitPos, len);
    ToUint32(ReadStream(dp, FieldStart(bytePos, bitPos) - extra, len + extra))
  }

  function WriteBytes(dp: seq<uint8>, bytePos: nat, len: nat, v: nat): seq<uint8> {
    SetStream(dp, 8 * bytePos, 8 * len, v)
  }

  function ReadBytes(dp: seq<uint8>, bytePos: nat, len: nat): nat {
    ReadStream(dp, 8 * bytePos, 8 * len)
  }

  // ---------- pow, get_bit_data, set_bit_data ----------

  function Power(x: nat, n: nat): nat {
    if n == 0 then 1 else x * Power(x, n - 1)
  }

  /** The laws of powers, which leave no other function. */
  lemma {:induction false} PowerSplits(x: nat, a: nat, b: nat)
    ensures Power(x, 0) == 1 && Power(x, 1) == x && Power(x, a + b) == Power(x, a) * Power(x, b)
    decreases a
  {
    if a > 0 {
      PowerSplits(x, a - 1, b);
      var p, q := Power(x, a - 1), Power(x, b);
      assert x * (p * q) == (x * p) * q;
    } else {
      assert Power(x, 1) == x * Power(x, 0);
    }
  }

  lemma {:induction false} PowerOfTwo(n: nat)
    ensures Power(2, n) == Pow2(n)
  {
    if n > 0 { PowerOfTwo(n - 1); }
  }

  lemma {:induction false} WrappedProduct(a: nat, x: nat)
    ensures ToUint32(ToUint32(a) * x) == ToUint32(a * x)
  {
    var m := 0x1_0000_0000;
    var q, r := a / m, a % m;
    var q', r' := (r * x) / m, (r * x) % m;
    assert a * x == m * (q * x) + r * x;
    assert a * x == m * (q * x + q') + r';
    ModUnique(a * x, m, q * x + q', r');
  }

  /** The loop runs once too often: the result is x to the power y + 1. */
  method Pow(x: uint32, y: uint8) returns (r: uint32)
    ensures r == ToUint32(Power(x, y + 1))
  {
    r := 1;
    var i := 0;
    while i <= y
      invariant 0 <= i <= y + 1
      invariant r == ToUint32(Power(x, i))
    {
      WrappedProduct(Power(x, i), x);
      assert Power(x, i + 1) == x * Power(x, i) == Power(x, i) * x;
      r := ToUint32(r * x);
      i := i + 1;
    }
  }

  lemma {:induction false} Pow2Monotone(a: nat, b: nat)
    requires a <= b
    ensures Pow2(a) <= Pow2(b)
    decreases b
  {
    if a < b { Pow2Monotone(a, b - 1); }
  }

  lemma {:induction false} PowIsPow2(len: nat)
    requires len <= 8
    ensures ToUint32(Power(2, len + 1)) == Pow2(len + 1)
  {
    PowerOfTwo(len + 1);
    Pow2Monotone(len + 1, 9);
    assert Pow2(9) == 0x200;
  }

  lemma {:induction false} Pow2Byte()
    ensures Pow2(8) == 0x100
  {
  }

  lemma {:induction false} CutBit(data: nat, bitPos: nat, len: nat, j: nat)
    ensures Bit(ToUint8(And(Shr(data, bitPos), Pow2(len + 1) - 1)), j) <==> j < 8 && j <= len && Bit(data, bitPos + j)
  {
    Pow2Byte();
    BitTruncate(And(Shr(data, bitPos), Pow2(len + 1) - 1), 8, j);
    BitAnd(Shr(data, bitPos), Pow2(len + 1) - 1, j);
    BitShr(data, bitPos, j);
    BitMask(len + 1, j);
  }

  lemma {:induction false} PastedBit(before: uint8, data: nat, bitPos: nat, len: nat, m: nat)
    ensures Bit(ToUint8(Or(before, Shl(And(data, Pow2(len + 1) - 1), bitPos))), m)
       <==> Bit(before, m) || (m < 8 && bitPos <= m <= bitPos + len && Bit(data, m - bitPos))
  {
    var kept := And(data, Pow2(len + 1) - 1);
    Pow2Byte();
    BitTruncate(Or(before, Shl(kept, bitPos)), 8, m);
    BitOr(before, Shl(kept, bitPos), m);
    BitShl(kept, bitPos, m);
    if m >= 8 { SmallHasNoHighBits(before, 8, m); }
    if bitPos <= m {
      BitAnd(data, Pow2(len + 1) - 1, m - bitPos);
      BitMask(len + 1, m - bitPos);
    }
  }

  /** r holds bits bitPos..bitPos+len of data, cut to eight. */
  ghost predicate IsCut(r: uint8, data: nat, bitPos: nat, len: nat) {
    forall j: nat :: Bit(r, j) <==> j < 8 && j <= len && Bit(data, bitPos + j)
  }

  /** after is before with bits 0..len of data ored in from bit bitPos upwards, as far as they fit in the byte. */
  ghost predicate IsPaste(before: uint8, after: uint8, data: nat, bitPos: nat, len: nat) {
    forall m: nat :: Bit(after, m)
      <==> Bit(before, m) || (m < 8 && bitPos <= m <= bitPos + len && Bit(data, m - bitPos))
  }

  /** get_bit_data keeps len + 1 bits, cut to the eight its return type holds. */
  method GetBitData(data: uint32, bitPos: uint8, len: uint8) returns (r: uint8)
    requires bitPos < 32 && len <= 8
    ensures IsCut(r, data, bitPos, len)
  {
    var p := Pow(2, len);
    PowIsPow2(len);
    r := ToUint8(And(Shr(data, bitPos), p - 1));
    forall j: nat ensures Bit(r, j) <==> j < 8 && j <= len && Bit(data, bitPos + j) {
      CutBit(data, bitPos, len, j);
    }
  }

  /** set_bit_data ors the low len + 1 bits of data into one byte, bitPos places up. */
  method SetBitData(dp: array<uint8>, k: nat, data: uint8, bitPos: uint8, len: uint8)
    requires k < dp.Length && bitPos < 24 && len <= 8
    modifies dp
    ensures IsPaste(old(dp[k]), dp[k], data, bitPos, len)
    ensures dp[..] == old(dp[..])[k := dp[k]]
  {
    var p := Pow(2, len);
    PowIsPow2(len);
    ghost var before := dp[k];
    dp[k] := ToUint8(Or(dp[k], Shl(And(data, p - 1), bitPos)));
    forall m: nat
      ensures Bit(dp[k], m) <==> Bit(before, m) || (m < 8 && bitPos <= m <= bitPos + len && Bit(data, m - bitPos))
    {
      PastedBit(before, data, bitPos, len, m);
    }
  }

  // ---------- bit fields ----------

  /** Buffer after is buffer before with the data bits for positions lo..hi-1 ored in; the data ends at position end. */
  ghost predicate OredIn(before: seq<uint8>, after: seq<uint8>, lo: nat, hi: nat, end: nat, data: uint32)
    requires hi <= end
  {
    |after| == |before|
    && forall s: nat :: StreamBit(after, s) <==> (StreamBit(before, s) || (lo <= s < hi && Bit(data, end - 1 - s)))
  }

  /** One chunk of the write loop, in terms of the byte it touched. */
  lemma {:induction false} ChunkWritten(before: seq<uint8>, after: seq<uint8>, k: nat, piece: uint8, pos: nat, n: nat,
                                        data: uint32, left: nat)
    requires k < |before| && pos <= 7 && 1 <= n <= pos + 1 && n <= left
    requires |after| == |before| && after == before[k := after[k]]
    requires IsCut(piece, data, left - n, n) && IsPaste(before[k], after[k], piece, pos + 1 - n, n)
    ensures var first := 8 * k + 7 - pos;
            OredIn(before, after, if pos < 7 then first - 1 else first, first + n, first + left, data)
  {
    var first := 8 * k + 7 - pos;
    var lo := if pos < 7 then first - 1 else first;
    forall s: nat
      ensures StreamBit(after, s)
              <==> (StreamBit(before, s) || (lo <= s < first + n && Bit(data, first + left - 1 - s)))
    {
      if s < 8 * |before| && s / 8 == k {
        var m := 7 - s % 8;
        assert s == 8 * k + 7 - m;
        var j := m - (pos + 1 - n);
        assert Bit(after[k], m) <==> Bit(before[k], m) || (0 <= j <= n && Bit(piece, j));
        if 0 <= j {
          assert Bit(piece, j) <==> j < 8 && j <= n && Bit(data, left - n + j);
        }
      }
    }
  }

  lemma {:induction false} OredInTwice(a: seq<uint8>, b: seq<uint8>, c: seq<uint8>, lo: nat, mid: nat, hi: nat,
                                       end: nat, data: uint32)
    requires lo <= mid <= hi <= end
    requires OredIn(a, b, lo, mid, end, data) && OredIn(b, c, mid, hi, end, data)
    ensures OredIn(a, c, lo, hi, end, data)
  {
  }

  lemma {:induction false} OredInIsOrStream(before: seq<uint8>, after: seq<uint8>, lo: nat, end: nat, data: uint32)
    requires lo <= end <= 8 * |before| && OredIn(before, after, lo, end, end, data)
    ensures after == OrStream(before, lo, end - lo, data)
  {
    var spec := OrStream(before, lo, end - lo, data);
    forall s: nat | 0 <= s < 8 * |before| ensures StreamBit(after, s) <==> StreamBit(spec, s) {
      OrStreamBit(before, lo, end - lo, data, s);
    }
    SameStreamSameBuffer(after, spec);
  }

  /** State of the write loop: `left` data bits are still to go and the cursor sits on the first of them. */
  ghost predicate Writing(before: seq<uint8>, now: seq<uint8>, i: nat, left: nat, pos: nat,
                          bytePos: nat, bitPos: nat, len: nat, data: uint32)
    requires bitPos <= 7
  {
    var start := FieldStart(bytePos, bitPos);
    var lo := start - Surplus(bitPos, len);
    && left <= len && pos <= 7
    && (i == 0 ==> left == len && pos == bitPos)
    && (i > 0 && left > 0 ==> pos == 7)
    && (left > 0 ==> FieldStart(bytePos + i, pos) == start + len - left)
    && OredIn(before, now, lo, if i == 0 then lo else start + len - left, start + len, data)
  }

  lemma {:induction false} WriteAdvances(before: seq<uint8>, now: seq<uint8>, next: seq<uint8>, i: nat, left: nat,
                                         pos: nat, n: nat,
                      piece: uint8, bytePos: nat, bitPos: nat, len: nat, data: uint32)
    requires bitPos <= 7 && left > 0 && Writing(before, now, i, left, pos, bytePos, bitPos, len, data)
    requires n == if left > pos + 1 then pos + 1 else left
    requires |next| == |now| && bytePos + i < |now| && next == now[bytePos + i := next[bytePos + i]]
    requires IsCut(piece, data, left - n, n)
    requires IsPaste(now[bytePos + i], next[bytePos + i], piece, pos + 1 - n, n)
    ensures Writing(before, next, i + 1, left - n, if pos - n < 0 then 7 else pos - n, bytePos, bitPos, len, data)
  {
    var start := FieldStart(bytePos, bitPos);
    var lo := start - Surplus(bitPos, len);
    ChunkWritten(now, next, bytePos + i, piece, pos, n, data, left);
    var mid := if i == 0 then lo else start + len - left;
    OredInTwice(before, now, next, lo, mid, start + len - left + n, start + len, data);
  }

  lemma {:induction false} WriteDone(before: seq<uint8>, now: seq<uint8>, i: nat, pos: nat, bytePos: nat, bitPos: nat,
                                     len: nat, data: uint32)
    requires bitPos <= 7 && Writing(before, now, i, 0, pos, bytePos, bitPos, len, data)
    requires FieldStart(bytePos, bitPos) + len <= 8 * |before|
    ensures now == WriteBits(before, bytePos, bitPos, len, data)
  {
    var start := FieldStart(bytePos, bitPos);
    OredInIsOrStream(before, now, start - Surplus(bitPos, len), start + len, data);
  }

  /** pa_set_protocol_bit_data: chunk by chunk, exactly the positions of the field (and its surplus bit) are ored. */
  method SetProtocolBitData(data: uint32, bytePos: uint8, bitPos: uint8, len: uint16, dp: array<uint8>)
    requires bitPos <= 7 && len <= 32
    requires FieldStart(bytePos, bitPos) + len <= 8 * dp.Length
    modifies dp
    ensures dp[..] == WriteBits(old(dp[..]), bytePos, bitPos, len, data)
  {
    ghost var before := dp[..];
    var i: nat, left: nat, pos: nat := 0, len, bitPos;
    while left > 0
      invariant Writing(before, dp[..], i, left, pos, bytePos, bitPos, len, data)
      decreases left
    {
      assert pos % 8 == pos && FieldStart(bytePos + i, pos) + left <= 8 * dp.Length;
      var n := if left > pos % 8 + 1 then pos % 8 + 1 else left;
      var piece := GetBitData(data, left - n, n);
      ghost var now := dp[..];
      SetBitData(dp, bytePos + i, piece, pos % 8 + 1 - n, n);
      WriteAdvances(before, now, dp[..], i, left, pos, n, piece, bytePos, bitPos, len, data);
      left := left - n;
      pos := if pos - n < 0 then 7 else pos - n;
      i := i + 1;
    }
    WriteDone(before, dp[..], i, pos, bytePos, bitPos, len, data);
  }

  /** State of the read loop: bits `left` and up of the result are in place. */
  ghost predicate Reading(dp: seq<uint8>, data: uint32, i: nat, left: nat, pos: nat, bytePos: nat, bitPos: nat,
                          len: nat)
    requires bitPos <= 7
  {
    var start := FieldStart(bytePos, bitPos);
    var top := len + Surplus(bitPos, len);
    && left <= len
    && (i == 0 ==> left == len && pos == bitPos)
    && (i > 0 && left > 0 ==> pos % 8 == 7)
    && (left > 0 ==> FieldStart(bytePos + i, pos % 8) == start + len - left)
    && forall j: nat :: Bit(data, j) <==> (j < 32 && i > 0 && left <= j < top && StreamBit(dp, start + len - 1 - j))
  }

  lemma {:induction false} PieceBit(dp: seq<uint8>, piece: uint8, k: nat, pos: nat, n: nat, left: nat, m: nat)
    requires k < |dp| && pos <= 7 && 1 <= n <= pos + 1 && n <= left
    requires IsCut(piece, dp[k], pos + 1 - n, n)
    ensures Bit(Shl(piece, left - n), m)
       <==> (left - n <= m < left + (if pos < 7 then 1 else 0) && StreamBit(dp, 8 * k + 7 - pos + left - 1 - m))
  {
    BitShl(piece, left - n, m);
    if left - n <= m {
      var j := m - (left - n);
      assert Bit(piece, j) <==> j < 8 && j <= n && Bit(dp[k], pos + 1 - n + j);
      if j <= n {
        if pos + 1 - n + j >= 8 {
          Pow2Byte();
          SmallHasNoHighBits(dp[k], 8, pos + 1 - n + j);
        } else {
          var s := 8 * k + 7 - pos + left - 1 - m;
          assert s / 8 == k && 7 - s % 8 == pos + 1 - n + j;
        }
      }
    }
  }

  lemma {:induction false} OrKeeps32(data: uint32, add: nat, m: nat)
    ensures Bit(ToUint32(Or(data, add)), m) <==> m < 32 && (Bit(data, m) || Bit(add, m))
  {
    assert Pow2(32) == 0x1_0000_0000 by { Pow2Literals(); }
    BitTruncate(Or(data, add), 32, m);
    BitOr(data, add, m);
  }

  lemma {:induction false} Pow2Literals()
    ensures Pow2(16) == 0x1_0000 && Pow2(24) == 0x100_0000 && Pow2(32) == 0x1_0000_0000
  {
    assert Pow2(8) == 0x100;
    assert Pow2(12) == 0x1000;
    assert Pow2(16) == 0x1_0000;
    assert Pow2(20) == 0x10_0000;
    assert Pow2(24) == 0x100_0000;
    assert Pow2(28) == 0x1000_0000;
  }

  lemma {:induction false} ReadAdvances(dp: seq<uint8>, data: uint32, i: nat, left: nat, pos: nat, n: nat, piece: uint8,
                     bytePos: nat, bitPos: nat, len: nat)
    requires bitPos <= 7 && left > 0 && pos < 256 && Reading(dp, data, i, left, pos, bytePos, bitPos, len)
    requires n == if left > pos % 8 + 1 then pos % 8 + 1 else left
    requires bytePos + i < |dp| && IsCut(piece, dp[bytePos + i], pos % 8 + 1 - n, n)
    ensures Reading(dp, ToUint32(Or(data, Shl(piece, left - n))), i + 1, left - n, (pos + 0x100 - n) % 0x100,
                    bytePos, bitPos, len)
  {
    var start := FieldStart(bytePos, bitPos);
    var top := len + Surplus(bitPos, len);
    var next := ToUint32(Or(data, Shl(piece, left - n)));
    forall m: nat
      ensures Bit(next, m) <==> (m < 32 && left - n <= m < top && StreamBit(dp, start + len - 1 - m))
    {
      OrKeeps32(data, Shl(piece, left - n), m);
      PieceBit(dp, piece, bytePos + i, pos % 8, n, left, m);
    }
  }

  lemma {:induction false} ReadDone(dp: seq<uint8>, data: uint32, i: nat, pos: nat, bytePos: nat, bitPos: nat, len: nat)
    requires bitPos <= 7 && Reading(dp, data, i, 0, pos, bytePos, bitPos, len)
    ensures data == ReadBits(dp, bytePos, bitPos, len)
  {
    var start, top := FieldStart(bytePos, bitPos), len + Surplus(bitPos, len);
    var whole := ReadStream(dp, start - Surplus(bitPos, len), top);
    Pow2Literals();
    forall j: nat ensures Bit(data, j) <==> Bit(ToUint32(whole), j) {
      BitTruncate(whole, 32, j);
      ReadStreamBit(dp, start - Surplus(bitPos, len), top, j);
    }
    SameBits(data, ToUint32(whole));
  }

  /** pa_get_protocol_bit_data: the cursor is unsigned, so the reset to 7 never fires; wrap-around does its job. */
  method GetProtocolBitData(dp: array<uint8>, bytePos: uint8, bitPos: uint8, len: uint16) returns (data: uint32)
    requires bitPos <= 7 && len <= 32
    requires FieldStart(bytePos, bitPos) + len <= 8 * dp.Length
    ensures data == ReadBits(dp[..], bytePos, bitPos, len)
  {
    data := 0;
    forall j: nat ensures !Bit(0, j) { BitZero(j); }
    var i: nat, left: nat, pos: uint8 := 0, len, bitPos;
    while left > 0
      invariant Reading(dp[..], data, i, left, pos, bytePos, bitPos, len)
      decreases left
    {
      assert FieldStart(bytePos + i, pos % 8) + left <= 8 * dp.Length;
      var n := if left > pos % 8 + 1 then pos % 8 + 1 else left;
      var piece := GetBitData(dp[bytePos + i], pos % 8 + 1 - n, n);
      ReadAdvances(dp[..], data, i, left, pos, n, piece, bytePos, bitPos, len);
      data := ToUint32(Or(data, Shl(piece, left - n)));
      pos := (pos + 0x100 - n) % 0x100;
      left := left - n;
      i := i + 1;
    }
    ReadDone(dp[..], data, i, pos, bytePos, bitPos, len);
  }

  // ---------- byte fields ----------

  /** Byte i of a len-byte big-endian value. */
  function ByteOf(v: nat, len: nat, i: nat): uint8
    requires i < len
  {
    ToUint8(Shr(v, 8 * (len - i - 1)))
  }

  lemma {:induction false} ByteOfBit(v: nat, len: nat, i: nat, m: nat)
    requires i < len
    ensures Bit(ByteOf(v, len, i), m) <==> m < 8 && Bit(v, 8 * (len - i - 1) + m)
  {
    Pow2Byte();
    BitTruncate(Shr(v, 8 * (len - i - 1)), 8, m);
    BitShr(v, 8 * (len - i - 1), m);
  }

  lemma {:induction false} ShrSteps(v: nat, a: nat, b: nat)
    ensures Shr(v, a + b) == Shr(Shr(v, a), b)
    decreases a
  {
    if a > 0 { ShrSteps(v / 2, a - 1, b); }
  }

  lemma {:induction false} ShrByte(v: nat)
    ensures Shr(v, 8) == v / 0x100
  {
    assert Shr(v, 2) == v / 4;
    assert Shr(v / 4, 2) == v / 16;
    ShrSteps(v, 2, 2);
    ShrSteps(v, 4, 4);
    assert Shr(v / 16, 2) == v / 64;
    assert Shr(v / 64, 2) == v / 0x100;
    ShrSteps(v / 16, 2, 2);
  }

  lemma {:induction false} ShrBytes(v: nat)
    ensures Shr(v, 0) == v && Shr(v, 8) == v / 0x100 && Shr(v, 16) == v / 0x1_0000 && Shr(v, 24) == v / 0x100_0000
  {
    assert Shr(v, 0) == v;
    hide Shr;
    ShrByte(v);
    ShrByte(v / 0x100);
    ShrByte(v / 0x1_0000);
    ShrSteps(v, 8, 8);
    ShrSteps(v, 16, 8);
  }

  lemma {:induction false} ByteIsQuotient(v: nat, len: nat, i: nat)
    requires i < len <= 4
    ensures ByteOf(v, len, i) == v / [1, 0x100, 0x1_0000, 0x100_0000][len - 1 - i] % 0x100
  {
    hide Shr;
    ShrBytes(v);
    if len - 1 - i == 0 {
    } else if len - 1 - i == 1 {
    } else if len - 1 - i == 2 {
    } else {
    }
  }

  /** Byte k after a big-endian value has been written at bytePos. */
  lemma {:induction false} WriteBytesAt(dp: seq<uint8>, bytePos: nat, len: nat, v: nat, k: nat)
    requires k < |dp|
    ensures WriteBytes(dp, bytePos, len, v)[k]
         == if bytePos <= k < bytePos + len then ByteOf(v, len, k - bytePos) else dp[k]
  {
    var dq := WriteBytes(dp, bytePos, len, v);
    var b := if bytePos <= k < bytePos + len then ByteOf(v, len, k - bytePos) else dp[k];
    var dr := dp[k := b];
    forall s: nat | 8 * k <= s < 8 * k + 8 ensures StreamBit(dq, s) <==> StreamBit(dr, s) {
      SetStreamBits(dp, 8 * bytePos, 8 * len, v, s);
      if bytePos <= k < bytePos + len {
        ByteOfBit(v, len, k - bytePos, 7 - s % 8);
        assert 8 * bytePos + 8 * len - 1 - s == 8 * (len - (k - bytePos) - 1) + (7 - s % 8);
      }
    }
    SameStretchSameByte(dq, dr, k);
  }

  /** pa_set_protocol_byte_data writes the low len bytes of data, most significant first. */
  method SetProtocolByteData(data: uint32, bytePos: uint8, len: uint16, dp: array<uint8>)
    requires bytePos + len <= dp.Length
    modifies dp
    ensures dp[..] == WriteBytes(old(dp[..]), bytePos, len, data)
  {
    ghost var before := dp[..];
    var i := 0;
    while i < len
      invariant 0 <= i <= len
      invariant forall k :: 0 <= k < dp.Length ==>
                  dp[k] == if bytePos <= k < bytePos + i then ByteOf(data, len, k - bytePos) else before[k]
    {
      dp[bytePos + i] := ToUint8(Shr(data, 8 * (len - i - 1)));
      i := i + 1;
    }
    forall k | 0 <= k < |before| ensures dp[..][k] == WriteBytes(before, bytePos, len, data)[k] {
      WriteBytesAt(before, bytePos, len, data, k);
    }
  }

  ghost predicate ReadingBytes(dp: seq<uint8>, data: uint32, i: nat, bytePos: nat, len: nat)
    requires i <= len
  {
    forall j: nat :: Bit(data, j) <==> (8 * (len - i) <= j < 8 * len && StreamBit(dp, 8 * bytePos + 8 * len - 1 - j))
  }

  lemma {:induction false} ReadByteAdvances(dp: seq<uint8>, data: uint32, i: nat, bytePos: nat, len: nat)
    requires i < len <= 4 && bytePos + len <= |dp| && ReadingBytes(dp, data, i, bytePos, len)
    ensures ReadingBytes(dp, ToUint32(Or(data, Shl(dp[bytePos + i], 8 * (len - i - 1)))), i + 1, bytePos, len)
  {
    var b, up := dp[bytePos + i], 8 * (len - i - 1);
    forall j: nat
      ensures Bit(ToUint32(Or(data, Shl(b, up))), j)
         <==> (up <= j < 8 * len && StreamBit(dp, 8 * bytePos + 8 * len - 1 - j))
    {
      OrKeeps32(data, Shl(b, up), j);
      BitShl(b, up, j);
      if up <= j {
        Pow2Byte();
        if j >= up + 8 { SmallHasNoHighBits(b, 8, j - up); }
        else { assert (8 * bytePos + 8 * len - 1 - j) / 8 == bytePos + i; }
      }
    }
  }

  /** pa_get_protocol_byte_data. */
  method GetProtocolByteData(dp: array<uint8>, bytePos: uint8, len: uint16) returns (data: uint32)
    requires len <= 4 && bytePos + len <= dp.Length
    ensures data == ReadBytes(dp[..], bytePos, len)
  {
    data := 0;
    forall j: nat ensures !Bit(0, j) { BitZero(j); }
    var i := 0;
    while i < len
      invariant 0 <= i <= len
      invariant ReadingBytes(dp[..], data, i, bytePos, len)
    {
      ReadByteAdvances(dp[..], data, i, bytePos, len);
      data := ToUint32(Or(data, Shl(dp[bytePos + i], 8 * (len - i - 1))));
      i := i + 1;
    }
    forall j: nat ensures Bit(data, j) <==> Bit(ReadBytes(dp[..], bytePos, len), j) {
      ReadStreamBit(dp[..], 8 * bytePos, 8 * len, j);
    }
    SameBits(data, ReadBytes(dp[..], bytePos, len));
  }
}
