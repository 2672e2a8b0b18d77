/** What reading and writing bit fields mean for one another, and for several fields packed into one buffer. */
module BitFields {
  import opened CTypes
  import opened Bits
  import opened BitStream
  import opened FieldIO

  lemma {:induction false} ReadStreamPrepend(dp: seq<uint8>, start: nat, n: nat)
    requires start > 0
    ensures ReadStream(dp, start - 1, n + 1)
            == (if StreamBit(dp, start - 1) then Pow2(n) else 0) + ReadStream(dp, start, n)
    decreases n
  {
    if n > 0 { ReadStreamPrepend(dp, start, n - 1); }
  }

  /** The bit directly above a field that does not begin at bit 7; the reader takes it along. */
  predicate Neighbour(dp: seq<uint8>, bytePos: nat, bitPos: nat, len: nat)
    requires bitPos <= 7
  {
    Surplus(bitPos, len) == 1 && StreamBit(dp, FieldStart(bytePos, bitPos) - 1)
  }

  /** A value read together with the bit above its len bits, as the 32-bit result keeps it. */
  function WithSurplus(v: nat, len: nat, above: bool): uint32 {
    ToUint32(v + if above then Pow2(len) else 0)
  }

  /** Reading a bit field yields its value plus 2^len times the bit above it, modulo 2^32. */
  lemma {:induction false} ReadBitsValue(dp: seq<uint8>, bytePos: nat, bitPos: nat, len: nat)
    requires bitPos <= 7
    ensures ReadBits(dp, bytePos, bitPos, len)
         == WithSurplus(ReadStream(dp, FieldStart(bytePos, bitPos), len), len, Neighbour(dp, bytePos, bitPos, len))
  {
    if Surplus(bitPos, len) == 1 { ReadStreamPrepend(dp, FieldStart(bytePos, bitPos), len); }
  }

  /** So the read is exact precisely when the field is 32 bits wide, starts at bit 7, or has a clear bit above it. */
  lemma {:induction false} ReadBitsExactly(dp: seq<uint8>, bytePos: nat, bitPos: nat, len: nat)
    requires bitPos <= 7 && len <= 32
    ensures ReadBits(dp, bytePos, bitPos, len) == ReadStream(dp, FieldStart(bytePos, bitPos), len)
       <==> len == 32 || !Neighbour(dp, bytePos, bitPos, len)
  {
    ReadBitsValue(dp, bytePos, bitPos, len);
    ReadStreamBound(dp, FieldStart(bytePos, bitPos), len);
    WordBounds(len, ReadStream(dp, FieldStart(bytePos, bitPos), len));
  }

  /** How a value of len bits, with or without a bit on top, fits in 32 bits. */
  lemma {:induction false} WordBounds(len: nat, v: nat)
    requires len <= 32 && v < Pow2(len)
    ensures ToUint32(v) == v
    ensures len < 32 ==> ToUint32(v + Pow2(len)) == v + Pow2(len)
    ensures len == 32 ==> ToUint32(v + Pow2(len)) == v
  {
    var top := Pow2(32);
    assert top == 0x1_0000_0000 by { Pow2Literals(); }
    assert len < 32 ==> Pow2(len) + Pow2(len) <= top by {
      if len < 32 {
        Pow2Monotone(len + 1, 32);
        assert Pow2(len + 1) == 2 * Pow2(len);
      }
    }
  }

  /** A write stays inside its field unless it sets the bit above: a value too wide for the field, not at bit 7. */
  predicate Spills(bitPos: nat, len: nat, v: nat) {
    Surplus(bitPos, len) == 1 && Bit(v, len)
  }

  lemma {:induction false} WriteBitsBit(dp: seq<uint8>, bytePos: nat, bitPos: nat, len: nat, v: nat, s: nat)
    requires bitPos <= 7
    ensures var start := FieldStart(bytePos, bitPos);
            StreamBit(WriteBits(dp, bytePos, bitPos, len, v), s) <==>
              StreamBit(dp, s)
              || (s < 8 * |dp| && (Spells(start, len, v, s) || (Spills(bitPos, len, v) && s == start - 1)))
  {
    var extra := Surplus(bitPos, len);
    OrStreamBit(dp, FieldStart(bytePos, bitPos) - extra, len + extra, v, s);
  }

  /** The write leaves every position outside the field alone if and only if it does not spill into a clear bit. */
  lemma {:induction false} WriteBitsStaysInside(dp: seq<uint8>, bytePos: nat, bitPos: nat, len: nat, v: nat)
    requires bitPos <= 7 && FieldStart(bytePos, bitPos) + len <= 8 * |dp|
    ensures (forall s: nat :: !(FieldStart(bytePos, bitPos) <= s < FieldStart(bytePos, bitPos) + len) ==>
               (StreamBit(WriteBits(dp, bytePos, bitPos, len, v), s) <==> StreamBit(dp, s)))
       <==> (Spills(bitPos, len, v) ==> Neighbour(dp, bytePos, bitPos, len))
  {
    var start := FieldStart(bytePos, bitPos);
    forall s: nat ensures StreamBit(WriteBits(dp, bytePos, bitPos, len, v), s) <==>
        (StreamBit(dp, s)
         || (s < 8 * |dp| && (Spells(start, len, v, s) || (Spills(bitPos, len, v) && s == start - 1)))) {
      WriteBitsBit(dp, bytePos, bitPos, len, v, s);
    }
    if Spills(bitPos, len, v) { WriteBitsBit(dp, bytePos, bitPos, len, v, start - 1); }
  }

  /** Write then read over cleared bits: the value cut to the field's width, plus the bit above as found. */
  lemma {:induction false} WriteReadBits(dp: seq<uint8>, bytePos: nat, bitPos: nat, len: nat, v: nat)
    requires bitPos <= 7 && FieldStart(bytePos, bitPos) + len <= 8 * |dp|
    requires forall s: nat :: FieldStart(bytePos, bitPos) <= s < FieldStart(bytePos, bitPos) + len ==> !StreamBit(dp, s)
    requires !Spills(bitPos, len, v)
    ensures ReadBits(WriteBits(dp, bytePos, bitPos, len, v), bytePos, bitPos, len)
         == WithSurplus(v % Pow2(len), len, Neighbour(dp, bytePos, bitPos, len))
  {
    var start := FieldStart(bytePos, bitPos);
    var dq := WriteBits(dp, bytePos, bitPos, len, v);
    forall s: nat | start <= s < start + len ensures StreamBit(dq, s) <==> Spells(start, len, v, s) {
      WriteBitsBit(dp, bytePos, bitPos, len, v, s);
    }
    ReadSpelled(dq, start, len, v);
    ReadBitsValue(dq, bytePos, bitPos, len);
    if Surplus(bitPos, len) == 1 { WriteBitsBit(dp, bytePos, bitPos, len, v, start - 1); }
  }

  // ---------- packing ----------

  datatype BitField = BitField(bytePos: nat, bitPos: nat, len: nat, v: nat) {
    predicate Ok(size: nat) {
      bitPos <= 7 && len <= 32 && Start() + len <= 8 * size && v < Pow2(len)
    }
    function Start(): nat { if bitPos <= 7 then FieldStart(bytePos, bitPos) else 0 }
    predicate Sets(s: nat) { Spells(Start(), len, v, s) }
    predicate Apart(other: BitField) {
      Start() + len <= other.Start() || other.Start() + other.len <= Start()
    }
  }

  ghost predicate AllOk(fs: seq<BitField>, size: nat) { forall k :: 0 <= k < |fs| ==> fs[k].Ok(size) }

  /** The generate loop restricted to bit fields: one write after the other. */
  function WriteAll(dp: seq<uint8>, fs: seq<BitField>): seq<uint8>
    requires forall k :: 0 <= k < |fs| ==> fs[k].bitPos <= 7
    decreases |fs|
  {
    if fs == [] then dp
    else WriteAll(WriteBits(dp, fs[0].bytePos, fs[0].bitPos, fs[0].len, fs[0].v), fs[1..])
  }

  lemma {:induction false} WriteBitsLength(dp: seq<uint8>, bytePos: nat, bitPos: nat, len: nat, v: nat)
    requires bitPos <= 7
    ensures |WriteBits(dp, bytePos, bitPos, len, v)| == |dp|
  {
  }

  predicate SomeSets(fs: seq<BitField>, s: nat) { exists k :: 0 <= k < |fs| && fs[k].Sets(s) }

  lemma {:induction false} SomeSetsHead(fs: seq<BitField>, s: nat)
    requires fs != []
    ensures SomeSets(fs, s) <==> fs[0].Sets(s) || SomeSets(fs[1..], s)
  {
    if SomeSets(fs[1..], s) {
      var k :| 0 <= k < |fs[1..]| && fs[1..][k].Sets(s);
      assert fs[k + 1].Sets(s);
    }
    if SomeSets(fs, s) && !fs[0].Sets(s) {
      var k :| 0 <= k < |fs| && fs[k].Sets(s);
      assert fs[1..][k - 1].Sets(s);
    }
  }

  lemma {:induction false} FittingWrite(dp: seq<uint8>, f: BitField, s: nat)
    requires f.Ok(|dp|)
    ensures StreamBit(WriteBits(dp, f.bytePos, f.bitPos, f.len, f.v), s) <==> StreamBit(dp, s) || f.Sets(s)
  {
    SmallHasNoHighBits(f.v, f.len, f.len);
    WriteBitsBit(dp, f.bytePos, f.bitPos, f.len, f.v, s);
  }

  lemma {:induction false} WriteAllBit(dp: seq<uint8>, fs: seq<BitField>, s: nat)
    requires AllOk(fs, |dp|)
    ensures |WriteAll(dp, fs)| == |dp|
    ensures StreamBit(WriteAll(dp, fs), s) <==> StreamBit(dp, s) || SomeSets(fs, s)
    decreases |fs|
  {
    if fs != [] {
      var f := fs[0];
      WriteBitsLength(dp, f.bytePos, f.bitPos, f.len, f.v);
      FittingWrite(dp, f, s);
      WriteAllBit(WriteBits(dp, f.bytePos, f.bitPos, f.len, f.v), fs[1..], s);
      SomeSetsHead(fs, s);
    }
  }

  lemma {:induction false} SameSetters(fs: seq<BitField>, gs: seq<BitField>, s: nat)
    requires forall f :: f in fs ==> f in gs
    ensures SomeSets(fs, s) ==> SomeSets(gs, s)
  {
    if SomeSets(fs, s) {
      var k :| 0 <= k < |fs| && fs[k].Sets(s);
      assert fs[k] in gs;
    }
  }

  /** The order of the writes does not matter. */
  lemma {:induction false} PackingOrderIrrelevant(dp: seq<uint8>, fs: seq<BitField>, gs: seq<BitField>)
    requires AllOk(fs, |dp|) && multiset(fs) == multiset(gs)
    ensures AllOk(gs, |dp|)
    ensures WriteAll(dp, fs) == WriteAll(dp, gs)
  {
    forall f ensures f in fs <==> f in gs {
      assert f in multiset(fs) <==> f in multiset(gs);
    }
    assert AllOk(gs, |dp|) by {
      forall k | 0 <= k < |gs| ensures gs[k].Ok(|dp|) { assert gs[k] in fs; }
    }
    WriteAllBit(dp, fs, 0);
    WriteAllBit(dp, gs, 0);
    forall s: nat ensures StreamBit(WriteAll(dp, fs), s) <==> StreamBit(WriteAll(dp, gs), s) {
      WriteAllBit(dp, fs, s);
      WriteAllBit(dp, gs, s);
      SameSetters(fs, gs, s);
      SameSetters(gs, fs, s);
    }
    SameStreamSameBuffer(WriteAll(dp, fs), WriteAll(dp, gs));
  }

  ghost predicate Disjoint(fs: seq<BitField>) {
    forall i, j :: 0 <= i < j < |fs| ==> fs[i].Apart(fs[j])
  }

  /** Some other packed value sets the bit directly above field k, and the field does not begin at bit 7. */
  predicate SetAbove(fs: seq<BitField>, k: nat)
    requires k < |fs|
  {
    fs[k].bitPos < 7 && fs[k].len > 0 && SomeSets(fs, fs[k].Start() - 1)
  }

  lemma {:induction false} NeighbourIsSetAbove(dp: seq<uint8>, fs: seq<BitField>, k: nat)
    requires AllOk(fs, |dp|) && k < |fs| && forall s: nat :: !StreamBit(dp, s)
    ensures Neighbour(WriteAll(dp, fs), fs[k].bytePos, fs[k].bitPos, fs[k].len) <==> SetAbove(fs, k)
  {
    if Surplus(fs[k].bitPos, fs[k].len) == 1 { WriteAllBit(dp, fs, fs[k].Start() - 1); }
  }

  /** What every field of a packed buffer reads back, from the values packed: its own value, plus 2^len if another
      value sets the bit above it; so always its value modulo 2^len. */
  lemma {:induction false} PackedFieldReadsBack(dp: seq<uint8>, fs: seq<BitField>, k: nat)
    requires AllOk(fs, |dp|) && Disjoint(fs) && k < |fs|
    requires forall s: nat :: !StreamBit(dp, s)
    ensures var f := fs[k];
            var read := ReadBits(WriteAll(dp, fs), f.bytePos, f.bitPos, f.len);
            read == WithSurplus(f.v, f.len, SetAbove(fs, k)) && read % Pow2(f.len) == f.v
  {
    var f, packed := fs[k], WriteAll(dp, fs);
    PackedRun(dp, fs, k);
    assert ReadStream(packed, f.Start(), f.len) == f.v by {
      ReadSpelled(packed, f.Start(), f.len, f.v);
      SmallModulo(f.v, Pow2(f.len));
    }
    ReadBitsValue(packed, f.bytePos, f.bitPos, f.len);
    NeighbourIsSetAbove(dp, fs, k);
    SurplusResidue(f.v, f.len, SetAbove(fs, k));
  }

  /** So it reads exactly if and only if it is 32 bits wide or no other value sets the bit above it. */
  lemma {:induction false} PackedReadsExactlyIff(dp: seq<uint8>, fs: seq<BitField>, k: nat)
    requires AllOk(fs, |dp|) && Disjoint(fs) && k < |fs|
    requires forall s: nat :: !StreamBit(dp, s)
    ensures ReadBits(WriteAll(dp, fs), fs[k].bytePos, fs[k].bitPos, fs[k].len) == fs[k].v
       <==> fs[k].len == 32 || !SetAbove(fs, k)
  {
    PackedFieldReadsBack(dp, fs, k);
    ExactWithoutSurplus(fs[k].v, fs[k].len, SetAbove(fs, k));
  }

  lemma {:induction false} ExactWithoutSurplus(v: nat, len: nat, above: bool)
    requires len <= 32 && v < Pow2(len)
    ensures WithSurplus(v, len, above) == v <==> len == 32 || !above
  {
    WordBounds(len, v);
  }

  /** In a packing the last bit of field j is set if and only if its value is odd. */
  lemma {:induction false} LastBitSet(fs: seq<BitField>, j: nat)
    requires Disjoint(fs) && j < |fs| && fs[j].len > 0
    ensures SomeSets(fs, fs[j].Start() + fs[j].len - 1) <==> fs[j].v % 2 == 1
  {
    var s := fs[j].Start() + fs[j].len - 1;
    assert fs[j].Sets(s) <==> Bit(fs[j].v, 0);
    if SomeSets(fs, s) {
      var k :| 0 <= k < |fs| && fs[k].Sets(s);
      assert k == j;
    }
  }

  /** In the packed buffer the run of field k spells its value and nothing of the other fields. */
  lemma {:induction false} PackedRun(dp: seq<uint8>, fs: seq<BitField>, k: nat)
    requires AllOk(fs, |dp|) && Disjoint(fs) && k < |fs|
    requires forall s: nat :: !StreamBit(dp, s)
    ensures var f := fs[k];
            forall s: nat :: f.Start() <= s < f.Start() + f.len ==>
              (StreamBit(WriteAll(dp, fs), s) <==> Spells(f.Start(), f.len, f.v, s))
  {
    var f := fs[k];
    forall s: nat | f.Start() <= s < f.Start() + f.len
      ensures StreamBit(WriteAll(dp, fs), s) <==> Spells(f.Start(), f.len, f.v, s)
    {
      WriteAllBit(dp, fs, s);
      if SomeSets(fs, s) {
        var j :| 0 <= j < |fs| && fs[j].Sets(s);
        assert j == k;
      }
    }
  }

  lemma {:induction false} SurplusResidue(v: nat, len: nat, above: bool)
    requires len <= 32 && v < Pow2(len)
    ensures WithSurplus(v, len, above) % Pow2(len) == v
  {
    WordBounds(len, v);
    var p, r := Pow2(len), WithSurplus(v, len, above);
    assert r == v || r == v + p;
    Residue(r, p, v);
  }

  lemma {:induction false} Residue(r: nat, p: nat, v: nat)
    requires v < p && (r == v || r == v + p)
    ensures r % p == v
  {
    if r == v {
      SmallModulo(v, p);
    } else {
      ModUnique(r, p, 1, v);
    }
  }
}
