/** Generating a message and parsing it with another analyzer of the same format gives the fields back. */
module RoundTrip {
  import opened CTypes
  import opened Bits
  import opened BitStream
  import opened FieldIO
  import opened BitFields
  import opened Format

  // ---------- well-formed formats ----------

  /** The length field j has, or will have once the pass reaches it. */
  function FinalLen(fs: seq<Field>, j: nat): nat
    requires j < |fs|
  {
    if fs[j].vlenFlag && Lookup(fs, fs[j].vlenIndex).Some? then fs[Lookup(fs, fs[j].vlenIndex).value].data
    else fs[j].len
  }

  function StartBits(f: Field): nat {
    if f.lenUnit == 1 && f.bitPos <= 7 then FieldStart(f.bytePos, f.bitPos) else 8 * f.bytePos
  }

  function FinalWidth(fs: seq<Field>, j: nat): nat
    requires j < |fs|
  {
    if fs[j].lenUnit == 8 then 8 * FinalLen(fs, j) else FinalLen(fs, j)
  }

  function Width(f: Field): nat { if f.lenUnit == 8 then 8 * f.len else f.len }

  /** A value that comes out of a parse exactly as it went into generate. */
  predicate Exact(lenUnit: uint8, bitPos: uint8, len: nat, data: uint32) {
    if lenUnit == 8 then len <= 4 && data < Pow2(8 * len) else lenUnit == 1 && bitPos == 7 && data < Pow2(len)
  }

  /** Field j of a format is usable: its unit is bytes or bits, its value does not touch a neighbour, and the field
      holding its length comes earlier and carries its value exactly. */
  predicate FieldWF(fs: seq<Field>, j: nat)
    requires j < |fs|
  {
    var f := fs[j];
    && (f.lenUnit == 8 || f.lenUnit == 1)
    && (f.lenUnit == 8 && FinalLen(fs, j) > 4 ==> f.bitPos == 0 && f.buf.Some? && FinalLen(fs, j) <= |f.buf.value|)
    && (f.lenUnit == 1 ==> f.bitPos <= 7 && f.len <= 32 && !Spills(f.bitPos, f.len, f.data))
    && (f.vlenFlag ==>
          && f.lenUnit == 8 && |f.vlenIndex| < KEY_SIZE
          && Lookup(fs, f.vlenIndex).Some?
          && var k := Lookup(fs, f.vlenIndex).value;
             k < j && Exact(fs[k].lenUnit, fs[k].bitPos, FinalLen(fs, k), fs[k].data))
  }

  /** How much field i, once fixed, moves the fields behind it. */
  function Own(fs: seq<Field>, i: nat): nat
    requires i < |fs|
  {
    if fs[i].vlenFlag then FinalLen(fs, i) else 0
  }

  /** Total length of the variable fields m with i <= m < j that are still to be fixed. */
  function Pending(fs: seq<Field>, i: nat, j: nat): nat
    requires j <= |fs|
    decreases j
  {
    if j <= i then 0 else Pending(fs, i, j - 1) + Own(fs, j - 1)
  }

  lemma {:induction false} PendingOfOne(fs: seq<Field>, v: nat, j: nat)
    requires v < |fs| && j <= |fs| && forall m :: 0 <= m < j && m != v ==> !fs[m].vlenFlag
    ensures Pending(fs, 0, j) == if j <= v then 0 else Own(fs, v)
    decreases j
  {
    hide FinalLen;
    if j > 0 { PendingOfOne(fs, v, j - 1); }
  }

  lemma {:induction false} PendingOfTwo(fs: seq<Field>, v: nat, w: nat, j: nat)
    requires v < w < |fs| && j <= |fs| && forall m :: 0 <= m < j && m != v && m != w ==> !fs[m].vlenFlag
    ensures Pending(fs, 0, j) == (if j <= v then 0 else Own(fs, v)) + (if j <= w then 0 else Own(fs, w))
    decreases j
  {
    hide FinalLen;
    if j > 0 { PendingOfTwo(fs, v, w, j - 1); }
  }

  /** Base positions do not overlap, a variable field counting as empty. */
  predicate Ordered(fs: seq<Field>, i: nat) {
    forall j :: i <= j < |fs| - 1 ==>
      StartBits(fs[j]) + (if fs[j].vlenFlag then 0 else Width(fs[j])) <= StartBits(fs[j + 1])
  }

  predicate Fits(fs: seq<Field>, i: nat, size: nat) {
    forall j :: i <= j < |fs| ==> StartBits(fs[j]) + 8 * Pending(fs, i, j) + FinalWidth(fs, j) <= 8 * size
  }

  /** A format with values, fields below i already processed, whose message fits in size bytes. At i = 0 this is
      the condition on what the caller hands to generate. */
  predicate WellFormed(fs: seq<Field>, i: nat, size: nat) {
    && size < 0x100
    && (forall j :: 0 <= j < i && j < |fs| ==> !fs[j].vlenFlag)
    && (forall j :: i <= j < |fs| ==> FieldWF(fs, j))
    && Ordered(fs, i)
    && Fits(fs, i, size)
  }

  // ---------- layout ----------

  ghost predicate SameNames(fs: seq<Field>, gs: seq<Field>) {
    |fs| == |gs| && forall j :: 0 <= j < |fs| ==> fs[j].name == gs[j].name
  }

  lemma {:induction false} LookupByNames(fs: seq<Field>, gs: seq<Field>, n: nat, key: string)
    requires SameNames(fs, gs) && n <= |fs|
    ensures LastWith(fs, n, key) == LastWith(gs, n, key)
    decreases n
  {
    if n > 0 { LookupByNames(fs, gs, n - 1, key); }
  }

  /** gs is fs after the pass has fixed the layout of field i. */
  ghost predicate Stepped(fs: seq<Field>, gs: seq<Field>, i: nat) {
    && i < |fs| == |gs|
    && (forall j :: 0 <= j < i ==> gs[j] == fs[j])
    && gs[i] == fs[i].(vlenFlag := false, len := gs[i].len) && gs[i].len == FinalLen(fs, i)
    && (forall j :: i < j < |fs| ==>
      gs[j] == fs[j].(bytePos := gs[j].bytePos) && gs[j].bytePos == fs[j].bytePos + Own(fs, i))
  }

  lemma {:induction false} PendingAtLeast(fs: seq<Field>, i: nat, j: nat)
    requires i < j <= |fs| && fs[i].vlenFlag
    ensures Pending(fs, i, j) >= FinalLen(fs, i)
    decreases j
  {
    if j > i + 1 { PendingAtLeast(fs, i, j - 1); }
  }

  /** In a message of fewer than 256 bytes no position wraps. */
  lemma {:induction false} NoWrap(fs: seq<Field>, i: nat, j: nat, size: nat)
    requires i <= j < |fs| && WellFormed(fs, i, size)
    ensures FinalLen(fs, j) <= size || fs[j].lenUnit == 1
    ensures i < j && fs[i].vlenFlag ==> fs[j].bytePos + FinalLen(fs, i) <= size
  {
    assert FieldWF(fs, j);
    if i < j && fs[i].vlenFlag { PendingAtLeast(fs, i, j); }
  }

  /** Field j once variable field i has found its length n. */
  function FixedBy(fs: seq<Field>, i: nat, n: uint32, j: nat): Field
    requires i < |fs| && j < |fs|
  {
    if j < i then fs[j]
    else if j == i then fs[j].(len := ToUint16(n), vlenFlag := false)
    else Moved(fs[j], ShiftOf(n, fs[i].lenUnit))
  }

  lemma {:induction false} ResolveAt(fs: seq<Field>, i: nat, k: nat, j: nat)
    requires i < |fs| && j < |fs| && fs[i].vlenFlag && Lookup(fs, fs[i].vlenIndex) == Some(k) && k < |fs|
    ensures Resolve(fs, i)[j] == FixedBy(fs, i, fs[k].data, j)
  {
  }

  lemma {:induction false} ByteShift(fs: seq<Field>, i: nat, n: uint32, j: nat)
    requires i < j < |fs| && fs[i].lenUnit == 8 && fs[j].bytePos + n < 0x100
    ensures FixedBy(fs, i, n, j).bytePos == fs[j].bytePos + n
  {
    assert ShiftOf(n, 8) == n;
  }

  lemma {:induction false} VariableLength(fs: seq<Field>, i: nat, k: nat, size: nat)
    requires i < |fs| && k < |fs| && WellFormed(fs, i, size) && fs[i].vlenFlag && Lookup(fs, fs[i].vlenIndex) == Some(k)
    ensures FinalLen(fs, i) == Own(fs, i) == fs[k].data <= size < 0x100 && fs[i].lenUnit == 8
  {
    assert FieldWF(fs, i);
    NoWrap(fs, i, i, size);
  }

  lemma {:induction false} VariableNumbers(fs: seq<Field>, i: nat, k: nat, size: nat)
    requires i < |fs| && k < |fs| && WellFormed(fs, i, size) && fs[i].vlenFlag && Lookup(fs, fs[i].vlenIndex) == Some(k)
    ensures var n := fs[k].data;
            && FinalLen(fs, i) == Own(fs, i) == n
            && FixedBy(fs, i, n, i).len == n
            && forall j :: i < j < |fs| ==> FixedBy(fs, i, n, j).bytePos == fs[j].bytePos + n
  {
    VariableLength(fs, i, k, size);
    forall j | i < j < |fs| ensures FixedBy(fs, i, fs[k].data, j).bytePos == fs[j].bytePos + fs[k].data {
      NoWrap(fs, i, j, size);
      ByteShift(fs, i, fs[k].data, j);
    }
  }

  lemma {:induction false} ResolveSteps(fs: seq<Field>, i: nat, size: nat)
    requires i < |fs| && WellFormed(fs, i, size)
    ensures Stepped(fs, Resolve(fs, i), i)
  {
    if fs[i].vlenFlag {
      assert FieldWF(fs, i);
      var k := Lookup(fs, fs[i].vlenIndex).value;
      var gs := Resolve(fs, i);
      forall j | 0 <= j < |fs| ensures gs[j] == FixedBy(fs, i, fs[k].data, j) { ResolveAt(fs, i, k, j); }
      VariableNumbers(fs, i, k, size);
      SteppedFromParts(fs, gs, i, fs[k].data);
    }
  }

  lemma {:induction false} SteppedFromParts(fs: seq<Field>, gs: seq<Field>, i: nat, n: uint32)
    requires i < |fs| == |gs| && forall j :: 0 <= j < |fs| ==> gs[j] == FixedBy(fs, i, n, j)
    requires FinalLen(fs, i) == Own(fs, i) == n && FixedBy(fs, i, n, i).len == n
    requires forall j :: i < j < |fs| ==> FixedBy(fs, i, n, j).bytePos == fs[j].bytePos + n
    ensures Stepped(fs, gs, i)
  {
  }

  lemma {:induction false} SteppedNames(fs: seq<Field>, gs: seq<Field>, i: nat)
    requires Stepped(fs, gs, i)
    ensures SameNames(fs, gs)
  {
  }

  /** Fixing one field does not change what any field's length is going to be. */
  lemma {:induction false} FinalLenStable(fs: seq<Field>, gs: seq<Field>, i: nat, j: nat)
    requires Stepped(fs, gs, i) && j < |fs|
    ensures FinalLen(gs, j) == FinalLen(fs, j)
  {
    SteppedNames(fs, gs, i);
    LookupByNames(fs, gs, |fs|, PadKey(fs[j].vlenIndex));
    assert gs[j].vlenIndex == fs[j].vlenIndex;
    if fs[j].vlenFlag && Lookup(fs, fs[j].vlenIndex).Some? {
      var k := Lookup(fs, fs[j].vlenIndex).value;
      assert gs[k].data == fs[k].data;
    }
  }

  lemma {:induction false} OwnStable(fs: seq<Field>, gs: seq<Field>, i: nat, m: nat)
    requires Stepped(fs, gs, i) && i < m < |fs|
    ensures Own(gs, m) == Own(fs, m)
  {
    FinalLenStable(fs, gs, i, m);
  }

  lemma {:induction false} PendingShrinks(fs: seq<Field>, gs: seq<Field>, i: nat, j: nat)
    requires Stepped(fs, gs, i) && i < j <= |fs|
    ensures Pending(fs, i, j) == Own(fs, i) + Pending(gs, i + 1, j)
    decreases j
  {
    hide FinalLen;
    if j == i + 1 {
      assert Pending(fs, i, i) == 0 && Pending(gs, i + 1, i + 1) == 0;
    } else {
      PendingShrinks(fs, gs, i, j - 1);
      OwnStable(fs, gs, i, j - 1);
    }
  }

  lemma {:induction false} StepKeepsField(fs: seq<Field>, gs: seq<Field>, i: nat, j: nat)
    requires Stepped(fs, gs, i) && i < j < |fs| && FieldWF(fs, j)
    ensures FieldWF(gs, j)
  {
    hide FinalLen, Exact, Spills, LastWith, PadKey;
    FinalLenStable(fs, gs, i, j);
    if fs[j].vlenFlag {
      SteppedNames(fs, gs, i);
      LookupByNames(fs, gs, |fs|, PadKey(fs[j].vlenIndex));
      var k := Lookup(fs, fs[j].vlenIndex).value;
      FinalLenStable(fs, gs, i, k);
    }
  }

  lemma {:induction false} StartAfterStep(fs: seq<Field>, gs: seq<Field>, i: nat, j: nat)
    requires Stepped(fs, gs, i) && i < j < |fs|
    ensures StartBits(gs[j]) == StartBits(fs[j]) + 8 * Own(fs, i)
    ensures gs[j].vlenFlag == fs[j].vlenFlag && Width(gs[j]) == Width(fs[j])
  {
  }

  lemma {:induction false} StepKeepsOrder(fs: seq<Field>, gs: seq<Field>, i: nat)
    requires Stepped(fs, gs, i) && Ordered(fs, i)
    ensures Ordered(gs, i + 1)
  {
    forall j | i + 1 <= j < |gs| - 1
      ensures StartBits(gs[j]) + (if gs[j].vlenFlag then 0 else Width(gs[j])) <= StartBits(gs[j + 1])
    {
      StartAfterStep(fs, gs, i, j);
      StartAfterStep(fs, gs, i, j + 1);
    }
  }

  lemma {:induction false} StepKeepsFit(fs: seq<Field>, gs: seq<Field>, i: nat, size: nat)
    requires Stepped(fs, gs, i) && Fits(fs, i, size)
    ensures Fits(gs, i + 1, size)
  {
    forall j | i + 1 <= j < |gs|
      ensures StartBits(gs[j]) + 8 * Pending(gs, i + 1, j) + FinalWidth(gs, j) <= 8 * size
    {
      StartAfterStep(fs, gs, i, j);
      PendingShrinks(fs, gs, i, j);
      FinalLenStable(fs, gs, i, j);
    }
  }

  /** Each step of a pass leaves a well-formed rest. */
  lemma {:induction false} StepKeepsWellFormed(fs: seq<Field>, gs: seq<Field>, i: nat, size: nat)
    requires Stepped(fs, gs, i) && WellFormed(fs, i, size)
    ensures WellFormed(gs, i + 1, size)
  {
    forall j | i + 1 <= j < |gs| ensures FieldWF(gs, j) { StepKeepsField(fs, gs, i, j); }
    StepKeepsOrder(fs, gs, i);
    StepKeepsFit(fs, gs, i, size);
  }

  // ---------- one field, written then read ----------

  /** A field whose layout is fixed, about to be written into a buffer of the given size. */
  predicate Writable(f: Field, size: nat) {
    && (f.lenUnit == 8 || f.lenUnit == 1)
    && InBuffer(f, size) && HasBytes(f)
    && (f.lenUnit == 8 && f.len > 4 ==> f.bitPos == 0)
    && (f.lenUnit == 1 ==> !Spills(f.bitPos, f.len, f.data))
  }

  lemma {:induction false} StepIsWritable(fs: seq<Field>, gs: seq<Field>, i: nat, size: nat)
    requires Stepped(fs, gs, i) && WellFormed(fs, i, size)
    ensures Writable(gs[i], size) && ShortKey(fs[i])
    ensures StartBits(gs[i]) == StartBits(fs[i]) && Width(gs[i]) == FinalWidth(fs, i)
    ensures StartBits(gs[i]) + Width(gs[i]) <= 8 * size
  {
    assert FieldWF(fs, i);
    assert Pending(fs, i, i) == 0;
  }

  lemma {:induction false} WriteFieldFrame(dp: seq<uint8>, f: Field, s: nat)
    requires Writable(f, |dp|)
    ensures |WriteField(dp, f)| == |dp|
    ensures !(StartBits(f) <= s < StartBits(f) + Width(f)) ==> (StreamBit(WriteField(dp, f), s) <==> StreamBit(dp, s))
  {
    if f.lenUnit == 1 {
      WriteBitsLength(dp, f.bytePos, f.bitPos, f.len, f.data);
      WriteBitsBit(dp, f.bytePos, f.bitPos, f.len, f.data, s);
    } else if f.len <= 4 {
      SetStreamBits(dp, 8 * f.bytePos, 8 * f.len, f.data, s);
    } else if s < 8 * |dp| {
      assert WriteField(dp, f)[s / 8] == dp[s / 8] || f.bytePos <= s / 8 < f.bytePos + f.len;
    }
  }

  /** What a parse gets back for a field that generate wrote: values cut to the field's width, buffers byte for
      byte, and for a bit field the bit above it when that one is set. */
  predicate Recovered(f: Field, r: Field, dp: seq<uint8>) {
    if f.lenUnit == 8 then
      if f.len <= 4 then r.data == f.data % Pow2(8 * f.len)
      else f.buf.Some? && r.buf.Some? && r.bufLen == f.len && f.len <= |f.buf.value| && f.len <= |r.buf.value|
           && r.buf.value[..f.len] == f.buf.value[..f.len]
    else f.bitPos <= 7 && r.data == WithSurplus(f.data % Pow2(f.len), f.len, Neighbour(dp, f.bytePos, f.bitPos, f.len))
  }

  /** Same place, same shape. */
  predicate SameSlot(f: Field, r: Field) {
    f.bytePos == r.bytePos && f.bitPos == r.bitPos && f.len == r.len && f.lenUnit == r.lenUnit
  }

  lemma {:induction false} ReadBytesFits(dp: seq<uint8>, p: nat, len: nat)
    requires len <= 4
    ensures ToUint32(ReadBytes(dp, p, len)) == ReadBytes(dp, p, len)
  {
    ReadStreamBound(dp, 8 * p, 8 * len);
    Pow2Monotone(8 * len, 32);
    Pow2Literals();
  }

  lemma {:induction false} WriteReadBytes(dp: seq<uint8>, dq: seq<uint8>, f: Field, r: Field)
    requires Writable(f, |dp|) && SameSlot(f, r) && f.lenUnit == 8 && f.len <= 4
    requires SameStretch(dq, WriteField(dp, f), 0, StartBits(f) + Width(f))
    ensures Recovered(f, ReadField(r, dq), dq)
  {
    var start, n := 8 * f.bytePos, 8 * f.len;
    forall s: nat | start <= s < start + n ensures StreamBit(dq, s) <==> Spells(start, n, f.data, s) {
      SetStreamBits(dp, start, n, f.data, s);
    }
    ReadSpelled(dq, start, n, f.data);
    ReadBytesFits(dq, f.bytePos, f.len);
  }

  lemma {:induction false} WriteReadBuffer(dp: seq<uint8>, dq: seq<uint8>, f: Field, r: Field)
    requires Writable(f, |dp|) && SameSlot(f, r) && f.lenUnit == 8 && f.len > 4 && |dq| == |dp|
    requires SameStretch(dq, WriteField(dp, f), 0, StartBits(f) + Width(f))
    ensures Recovered(f, ReadField(r, dq), dq)
  {
    var b := BytesAt(dq, f.bytePos, f.len);
    forall k | 0 <= k < f.len ensures b[k] == f.buf.value[k] {
      assert SameStretch(dq, WriteField(dp, f), 8 * (f.bytePos + k), 8 * (f.bytePos + k) + 8);
      SameStretchSameByte(dq, WriteField(dp, f), f.bytePos + k);
    }
    assert b == f.buf.value[..f.len];
    assert ReadField(r, dq).buf.value[..f.len] == b;
  }

  lemma {:induction false} WriteReadBitField(dp: seq<uint8>, dq: seq<uint8>, f: Field, r: Field)
    requires Writable(f, |dp|) && SameSlot(f, r) && f.lenUnit == 1
    requires SameStretch(dq, WriteField(dp, f), 0, StartBits(f) + Width(f))
    requires forall s: nat :: StartBits(f) <= s ==> !StreamBit(dp, s)
    ensures Recovered(f, ReadField(r, dq), dq)
  {
    var start := StartBits(f);
    forall s: nat | start <= s < start + f.len ensures StreamBit(dq, s) <==> Spells(start, f.len, f.data, s) {
      WriteBitsBit(dp, f.bytePos, f.bitPos, f.len, f.data, s);
    }
    ReadSpelled(dq, start, f.len, f.data);
    ReadBitsValue(dq, f.bytePos, f.bitPos, f.len);
  }

  // ---------- whole messages ----------

  /** Receiver field r lies where sender field f lies; its length may be stale only while it is still variable. */
  predicate Twin(f: Field, r: Field) {
    && f.name == r.name && f.vlenIndex == r.vlenIndex && f.vlenFlag == r.vlenFlag
    && f.bytePos == r.bytePos && f.bitPos == r.bitPos && f.lenUnit == r.lenUnit
    && (!f.vlenFlag ==> f.len == r.len)
  }

  ghost predicate Aligned(fs: seq<Field>, rs: seq<Field>) {
    |fs| == |rs| && forall j :: 0 <= j < |fs| ==> Twin(fs[j], rs[j])
  }

  /** The receiver already knows every exactly carried value below i. */
  ghost predicate Carried(fs: seq<Field>, rs: seq<Field>, i: nat) {
    |fs| == |rs| && forall k :: 0 <= k < i && k < |fs| && Exact(fs[k].lenUnit, fs[k].bitPos, fs[k].len, fs[k].data) ==>
      rs[k].data == fs[k].data
  }

  ghost predicate ClearFrom(dp: seq<uint8>, start: nat) {
    forall s: nat :: start <= s ==> !StreamBit(dp, s)
  }

  lemma {:induction false} ExactIsRecovered(f: Field, r: Field, dp: seq<uint8>)
    requires Recovered(f, r, dp) && Exact(f.lenUnit, f.bitPos, f.len, f.data) && f.len <= 32
    ensures r.data == f.data
  {
    if f.lenUnit == 8 {
      SmallModulo(f.data, Pow2(8 * f.len));
    } else {
      SmallModulo(f.data, Pow2(f.len));
      WordBounds(f.len, f.data);
    }
  }

  /** Both sides look up the same length field and find the same length in it. */
  lemma {:induction false} SameLengthFound(fs: seq<Field>, rs: seq<Field>, i: nat, size: nat) returns (k: nat)
    requires i < |fs| && fs[i].vlenFlag && WellFormed(fs, i, size) && Aligned(fs, rs) && Carried(fs, rs, i)
    ensures k < i && fs[k].data == rs[k].data
    ensures Lookup(fs, fs[i].vlenIndex) == Some(k) && Lookup(rs, rs[i].vlenIndex) == Some(k)
  {
    assert FieldWF(fs, i) && Twin(fs[i], rs[i]);
    k := Lookup(fs, fs[i].vlenIndex).value;
    LookupByNames(fs, rs, |fs|, PadKey(fs[i].vlenIndex));
    assert FinalLen(fs, k) == fs[k].len;
  }

  lemma {:induction false} FixedTwins(fs: seq<Field>, rs: seq<Field>, i: nat, n: uint32, j: nat)
    requires i < |fs| && j < |fs| && Aligned(fs, rs)
    ensures Twin(FixedBy(fs, i, n, j), FixedBy(rs, i, n, j))
    ensures FixedBy(fs, i, n, j).data == fs[j].data && FixedBy(rs, i, n, j).data == rs[j].data
  {
    assert Twin(fs[j], rs[j]) && Twin(fs[i], rs[i]);
  }

  /** Both sides fix the layout of field i in the same way. */
  lemma {:induction false} StepInLockstep(fs: seq<Field>, rs: seq<Field>, i: nat, size: nat)
    requires i < |fs| && WellFormed(fs, i, size) && Aligned(fs, rs) && Carried(fs, rs, i)
    ensures Aligned(Resolve(fs, i), Resolve(rs, i)) && Carried(Resolve(fs, i), Resolve(rs, i), i)
  {
    assert Twin(fs[i], rs[i]);
    if fs[i].vlenFlag {
      var k := SameLengthFound(fs, rs, i, size);
      var gs, ss := Resolve(fs, i), Resolve(rs, i);
      forall j | 0 <= j < |fs|
        ensures gs[j] == FixedBy(fs, i, fs[k].data, j) && ss[j] == FixedBy(rs, i, fs[k].data, j)
      {
        ResolveAt(fs, i, k, j);
        ResolveAt(rs, i, k, j);
      }
      LockstepFromParts(fs, rs, gs, ss, i, fs[k].data);
    }
  }

  lemma {:induction false} LockstepFromParts(fs: seq<Field>, rs: seq<Field>, gs: seq<Field>, ss: seq<Field>, i: nat,
                                             n: uint32)
    requires i < |fs| == |gs| == |ss| && Aligned(fs, rs) && Carried(fs, rs, i)
    requires forall j :: 0 <= j < |fs| ==> gs[j] == FixedBy(fs, i, n, j) && ss[j] == FixedBy(rs, i, n, j)
    ensures Aligned(gs, ss) && Carried(gs, ss, i)
  {
    forall j | 0 <= j < |fs| ensures Twin(gs[j], ss[j]) && gs[j].data == fs[j].data && ss[j].data == rs[j].data {
      FixedTwins(fs, rs, i, n, j);
    }
  }

  /** One step of generate: the rest stays well-formed and nothing in front of the field changes. */
  lemma {:induction false} GenStep(fs: seq<Field>, i: nat, dp: seq<uint8>, gs: seq<Field>, dq: seq<uint8>)
    requires i < |fs| && WellFormed(fs, i, |dp|) && gs == Resolve(fs, i) && dq == WriteField(dp, gs[i])
    ensures Stepped(fs, gs, i) && WellFormed(gs, i + 1, |dq|) && |dq| == |dp| && Writable(gs[i], |dp|)
    ensures StartBits(gs[i]) == StartBits(fs[i]) && SameStretch(dq, dp, 0, StartBits(fs[i]))
    ensures i + 1 < |fs| ==> StartBits(gs[i]) + Width(gs[i]) <= StartBits(gs[i + 1])
    ensures ClearFrom(dp, StartBits(fs[i])) ==> ClearFrom(dq, StartBits(gs[i]) + Width(gs[i]))
  {
    ResolveSteps(fs, i, |dp|);
    StepKeepsWellFormed(fs, gs, i, |dp|);
    StepIsWritable(fs, gs, i, |dp|);
    WrittenAround(dp, gs[i]);
    assert FieldWF(fs, i);
    if i + 1 < |fs| { NextStart(fs, gs, i); }
  }

  lemma {:induction false} WrittenAround(dp: seq<uint8>, f: Field)
    requires Writable(f, |dp|)
    ensures var dq := WriteField(dp, f);
            && |dq| == |dp| && SameStretch(dq, dp, 0, StartBits(f))
            && (ClearFrom(dp, StartBits(f)) ==> ClearFrom(dq, StartBits(f) + Width(f)))
  {
    WriteFieldFrame(dp, f, 0);
    forall s: nat | !(StartBits(f) <= s < StartBits(f) + Width(f))
      ensures StreamBit(WriteField(dp, f), s) <==> StreamBit(dp, s)
    {
      WriteFieldFrame(dp, f, s);
    }
  }

  /** Once field i is fixed, the next one starts at or behind its end. */
  lemma {:induction false} NextStart(fs: seq<Field>, gs: seq<Field>, i: nat)
    requires Stepped(fs, gs, i) && Ordered(fs, i) && i + 1 < |fs|
    requires fs[i].vlenFlag ==> fs[i].lenUnit == 8
    ensures StartBits(gs[i]) + Width(gs[i]) <= StartBits(gs[i + 1])
  {
    StartAfterStep(fs, gs, i, i + 1);
  }

  /** Generate from field i on touches no bit in front of field i and no field in front of it. */
  lemma {:induction false} GenFromFrame(fs: seq<Field>, i: nat, dp: seq<uint8>)
    requires i <= |fs| && WellFormed(fs, i, |dp|)
    ensures |GenFrom(fs, i, dp).1| == |dp|
    ensures forall j :: 0 <= j < i ==> GenFrom(fs, i, dp).0[j] == fs[j]
    ensures i < |fs| ==> SameStretch(GenFrom(fs, i, dp).1, dp, 0, StartBits(fs[i]))
    decreases |fs| - i
  {
    hide WellFormed, Resolve, WriteField, Writable;
    if i < |fs| {
      var gs := Resolve(fs, i);
      var dq := WriteField(dp, gs[i]);
      GenStep(fs, i, dp, gs, dq);
      GenFromFrame(gs, i + 1, dq);
      var rest := GenFrom(gs, i + 1, dq);
      assert GenFrom(fs, i, dp) == rest;
      forall j | 0 <= j < i ensures rest.0[j] == fs[j] { assert gs[j] == fs[j]; }
      if i + 1 < |fs| { SameStretchTrans(rest.1, dq, dp, StartBits(gs[i + 1]), StartBits(fs[i])); }
    }
  }

  lemma {:induction false} SameStretchTrans(a: seq<uint8>, b: seq<uint8>, c: seq<uint8>, hi: nat, lo: nat)
    requires SameStretch(a, b, 0, hi) && SameStretch(b, c, 0, lo) && lo <= hi
    ensures SameStretch(a, c, 0, lo)
  {
  }

  lemma {:induction false} ParseFromFrame(rs: seq<Field>, i: nat, dp: seq<uint8>)
    requires i <= |rs|
    ensures forall j :: 0 <= j < i ==> ParseFrom(rs, i, dp)[j] == rs[j]
    decreases |rs| - i
  {
    if i < |rs| {
      var ss := Resolve(rs, i);
      ParseFromFrame(ss[i := ReadField(ss[i], dp)], i + 1, dp);
    }
  }

  ghost predicate RecoveredFrom(fs: seq<Field>, rs: seq<Field>, i: nat, dp: seq<uint8>) {
    |fs| == |rs| && forall j :: i <= j < |fs| ==> Recovered(fs[j], rs[j], dp)
  }

  /** The receiver's step, given that dp agrees with what the sender has written so far. */
  lemma {:induction false} ParseStep(fs: seq<Field>, rs: seq<Field>, i: nat, dp: seq<uint8>, gs: seq<Field>,
                                     ss: seq<Field>, dq: seq<uint8>)
    requires i < |fs| && Aligned(gs, ss) && Carried(gs, ss, i) && |gs| == |fs|
    requires Writable(gs[i], |dp|) && !gs[i].vlenFlag && |dq| == |dp| && ClearFrom(dp, StartBits(gs[i]))
    requires SameStretch(dq, WriteField(dp, gs[i]), 0, StartBits(gs[i]) + Width(gs[i]))
    ensures var next := ss[i := ReadField(ss[i], dq)];
            Recovered(gs[i], next[i], dq) && Aligned(gs, next) && Carried(gs, next, i + 1)
    ensures InBuffer(ss[i], |dq|)
  {
    assert Twin(gs[i], ss[i]);
    if gs[i].lenUnit == 1 {
      WriteReadBitField(dp, dq, gs[i], ss[i]);
    } else if gs[i].len <= 4 {
      WriteReadBytes(dp, dq, gs[i], ss[i]);
    } else {
      WriteReadBuffer(dp, dq, gs[i], ss[i]);
    }
    var next := ss[i := ReadField(ss[i], dq)];
    if Exact(gs[i].lenUnit, gs[i].bitPos, gs[i].len, gs[i].data) { ExactIsRecovered(gs[i], next[i], dq); }
  }

  lemma {:induction false} BothStep(fs: seq<Field>, rs: seq<Field>, i: nat, dp: seq<uint8>, gs: seq<Field>,
                                    ss: seq<Field>, dq: seq<uint8>,
                 final: seq<uint8>, next: seq<Field>)
    requires i < |fs| && WellFormed(fs, i, |dp|) && Aligned(fs, rs) && Carried(fs, rs, i)
    requires ClearFrom(dp, StartBits(fs[i]))
    requires gs == Resolve(fs, i) && ss == Resolve(rs, i) && dq == WriteField(dp, gs[i])
    requires final == GenFrom(gs, i + 1, dq).1
    requires next == ss[i := ReadField(ss[i], final)]
    ensures WellFormed(gs, i + 1, |dq|) && Aligned(gs, next) && Carried(gs, next, i + 1)
    ensures i + 1 < |gs| ==> ClearFrom(dq, StartBits(gs[i + 1]))
    ensures Recovered(gs[i], next[i], final) && InBuffer(ss[i], |final|) && ShortKey(rs[i])
    ensures GenFrom(gs, i + 1, dq).0[i] == gs[i]
  {
    hide WellFormed, Resolve, WriteField, Carried, Recovered, InBuffer;
    assert ShortKey(rs[i]) by { ReceiverKeyShort(fs, rs, i, |dp|); }
    GenStep(fs, i, dp, gs, dq);
    GenFromFrame(gs, i + 1, dq);
    StepInLockstep(fs, rs, i, |dp|);
    FinalAgrees(gs, i, dq, final);
    ParseStep(fs, rs, i, dp, gs, ss, final);
  }

  lemma {:induction false} ReceiverKeyShort(fs: seq<Field>, rs: seq<Field>, i: nat, size: nat)
    requires i < |fs| && WellFormed(fs, i, size) && Aligned(fs, rs)
    ensures ShortKey(rs[i])
  {
    assert FieldWF(fs, i) && Twin(fs[i], rs[i]);
  }

  /** What generate has written up to the end of field i is still there in the finished message. */
  lemma {:induction false} FinalAgrees(gs: seq<Field>, i: nat, dq: seq<uint8>, final: seq<uint8>)
    requires i < |gs| && WellFormed(gs, i + 1, |dq|) && final == GenFrom(gs, i + 1, dq).1
    requires i + 1 < |gs| ==> StartBits(gs[i]) + Width(gs[i]) <= StartBits(gs[i + 1])
    ensures SameStretch(final, dq, 0, StartBits(gs[i]) + Width(gs[i])) && |final| == |dq|
  {
    hide WellFormed;
    if i + 1 == |gs| {
      assert final == dq;
    } else {
      GenFromFrame(gs, i + 1, dq);
      SameStretchTrans(final, dq, dq, StartBits(gs[i + 1]), StartBits(gs[i]) + Width(gs[i]));
    }
  }

  /** The induction behind the round trip: both sides start field i with the same layout, the receiver knowing
      every length field in front of it. */
  lemma {:induction false} RoundTripFrom(fs: seq<Field>, rs: seq<Field>, i: nat, dp: seq<uint8>, final: seq<uint8>)
    requires i <= |fs| && WellFormed(fs, i, |dp|) && Aligned(fs, rs) && Carried(fs, rs, i)
    requires i < |fs| ==> ClearFrom(dp, StartBits(fs[i]))
    requires final == GenFrom(fs, i, dp).1
    ensures ParseSafe(rs, i, final)
    ensures Aligned(GenFrom(fs, i, dp).0, ParseFrom(rs, i, final))
    ensures RecoveredFrom(GenFrom(fs, i, dp).0, ParseFrom(rs, i, final), i, final)
    decreases |fs| - i
  {
    hide WellFormed, Resolve, WriteField, Recovered, Carried;
    if i < |fs| {
      var gs, ss := Resolve(fs, i), Resolve(rs, i);
      var dq := WriteField(dp, gs[i]);
      var next := ss[i := ReadField(ss[i], final)];
      BothStep(fs, rs, i, dp, gs, ss, dq, final, next);
      RoundTripFrom(gs, next, i + 1, dq, final);
      ParseFromFrame(next, i + 1, final);
    }
  }
}
