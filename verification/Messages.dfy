/** The codec's main theorems: the layout at every point of a pass, and the round trip of whole messages. */
module Messages {
  import opened CTypes
  import opened Bits
  import opened BitStream
  import opened BitFields
  import opened Format
  import opened RoundTrip

  /** The buffer of a newly created analyzer. */
  function Zeros(size: nat): (r: seq<uint8>)
    ensures |r| == size
  {
    seq(size, _ => 0)
  }

  lemma {:induction false} ZerosClear(size: nat, s: nat)
    ensures !StreamBit(Zeros(size), s)
  {
    BitZero(7 - s % 8);
  }

  /** Fields and buffer after generate has processed the first i fields. */
  function GenUpTo(fs: seq<Field>, i: nat, dp: seq<uint8>): (r: (seq<Field>, seq<uint8>))
    requires i <= |fs|
    ensures |r.0| == |fs|
    decreases i
  {
    if i == 0 then (fs, dp)
    else
      var before := GenUpTo(fs, i - 1, dp);
      var gs := Resolve(before.0, i - 1);
      (gs, WriteField(before.1, gs[i - 1]))
  }

  lemma {:induction false} GenSplits(fs: seq<Field>, i: nat, dp: seq<uint8>)
    requires i <= |fs|
    ensures GenFrom(fs, 0, dp) == GenFrom(GenUpTo(fs, i, dp).0, i, GenUpTo(fs, i, dp).1)
    decreases i
  {
    hide Resolve, WriteField;
    if i > 0 { GenSplits(fs, i - 1, dp); }
  }

  function Min(a: nat, b: nat): nat { if a < b then a else b }

  /** gs is fs with fields below i fixed: field j has moved by the variable fields fixed in front of it. */
  ghost predicate LaidOut(fs: seq<Field>, gs: seq<Field>, i: nat) {
    |gs| == |fs| && i <= |fs| &&
    forall j :: 0 <= j < |fs| ==>
      && gs[j] == fs[j].(bytePos := gs[j].bytePos, len := gs[j].len, vlenFlag := gs[j].vlenFlag)
      && gs[j].bytePos == fs[j].bytePos + Pending(fs, 0, Min(i, j))
      && FinalLen(gs, j) == FinalLen(fs, j)
      && (if j < i then gs[j].len == FinalLen(fs, j) && !gs[j].vlenFlag
          else gs[j].len == fs[j].len && gs[j].vlenFlag == fs[j].vlenFlag)
  }

  lemma {:induction false} PendingNext(fs: seq<Field>, i: nat)
    requires i < |fs|
    ensures Pending(fs, 0, i + 1) == Pending(fs, 0, i) + Own(fs, i)
  {
  }

  lemma {:induction false} LaidOutStep(fs: seq<Field>, gs: seq<Field>, hs: seq<Field>, i: nat)
    requires i < |fs| && LaidOut(fs, gs, i) && Stepped(gs, hs, i)
    ensures LaidOut(fs, hs, i + 1)
  {
    assert Own(gs, i) == Own(fs, i);
    PendingNext(fs, i);
    hide FinalLen, Pending, Own;
    forall j | 0 <= j < |fs|
      ensures hs[j] == fs[j].(bytePos := hs[j].bytePos, len := hs[j].len, vlenFlag := hs[j].vlenFlag)
      ensures hs[j].bytePos == fs[j].bytePos + Pending(fs, 0, Min(i + 1, j))
      ensures FinalLen(hs, j) == FinalLen(fs, j)
      ensures if j < i + 1 then hs[j].len == FinalLen(fs, j) && !hs[j].vlenFlag
              else hs[j].len == fs[j].len && hs[j].vlenFlag == fs[j].vlenFlag
    {
      FinalLenStable(gs, hs, i, j);
    }
  }

  /** Midway through generate every field lies at its base position plus the byte lengths of the variable fields
      already processed in front of it, processed fields have their final lengths, and the rest is still well-formed. */
  lemma {:induction false} LayoutMidway(fs: seq<Field>, i: nat, dp: seq<uint8>)
    requires i <= |fs| && WellFormed(fs, 0, |dp|)
    ensures |GenUpTo(fs, i, dp).1| == |dp|
    ensures LaidOut(fs, GenUpTo(fs, i, dp).0, i) && WellFormed(GenUpTo(fs, i, dp).0, i, |dp|)
    decreases i
  {
    hide WellFormed, Resolve, WriteField, FinalLen, Writable;
    if i > 0 {
      LayoutMidway(fs, i - 1, dp);
      var before := GenUpTo(fs, i - 1, dp);
      var gs := Resolve(before.0, i - 1);
      GenStep(before.0, i - 1, before.1, gs, WriteField(before.1, gs[i - 1]));
      LaidOutStep(fs, before.0, gs, i - 1);
    }
  }

  lemma {:induction false} GenLaysOut(fs: seq<Field>, dp: seq<uint8>)
    requires WellFormed(fs, 0, |dp|)
    ensures LaidOut(fs, GenFrom(fs, 0, dp).0, |fs|) && |GenFrom(fs, 0, dp).1| == |dp|
  {
    hide WellFormed, LaidOut;
    GenSplits(fs, |fs|, dp);
    LayoutMidway(fs, |fs|, dp);
  }

  lemma {:induction false} PlacedAt(fs: seq<Field>, gs: seq<Field>, j: nat)
    requires LaidOut(fs, gs, |fs|) && j < |fs|
    ensures StartBits(gs[j]) == StartBits(fs[j]) + 8 * Pending(fs, 0, j) && Width(gs[j]) == FinalWidth(fs, j)
  {
    hide Pending, FinalLen;
  }

  lemma {:induction false} OrderAtBase(fs: seq<Field>, size: nat, j: nat)
    requires WellFormed(fs, 0, size) && j + 1 < |fs|
    ensures StartBits(fs[j]) + 8 * Pending(fs, 0, j) + FinalWidth(fs, j)
         <= StartBits(fs[j + 1]) + 8 * Pending(fs, 0, j + 1)
  {
    assert Pending(fs, 0, j + 1) == Pending(fs, 0, j) + Own(fs, j);
    assert FieldWF(fs, j);
    assert StartBits(fs[j]) + (if fs[j].vlenFlag then 0 else Width(fs[j])) <= StartBits(fs[j + 1]);
  }

  /** When generate is done the fields are in order, do not overlap, and lie inside the buffer. */
  lemma {:induction false} FinalLayoutOrdered(fs: seq<Field>, dp: seq<uint8>, j: nat)
    requires WellFormed(fs, 0, |dp|) && j < |fs|
    ensures var gs := GenFrom(fs, 0, dp).0;
            && StartBits(gs[j]) + Width(gs[j]) <= 8 * |dp|
            && (j + 1 < |fs| ==> StartBits(gs[j]) + Width(gs[j]) <= StartBits(gs[j + 1]))
  {
    hide GenFrom, LaidOut, StartBits, Width, FinalWidth, FieldWF, Ordered;
    GenLaysOut(fs, dp);
    PlacedAt(fs, GenFrom(fs, 0, dp).0, j);
    if j + 1 < |fs| {
      PlacedAt(fs, GenFrom(fs, 0, dp).0, j + 1);
      OrderAtBase(fs, |dp|, j);
    }
  }

  /** The length generate reports, in terms of the format handed over: base position of the last field, the lengths
      moved in front of it, and its own number of units, so of bits when it is a bit field. */
  lemma {:induction false} ReportedLength(fs: seq<Field>, dp: seq<uint8>)
    requires fs != [] && WellFormed(fs, 0, |dp|)
    ensures var gs, last := GenFrom(fs, 0, dp).0, |fs| - 1;
            && gs[last].bytePos + gs[last].len == fs[last].bytePos + Pending(fs, 0, last) + FinalLen(fs, last)
            && (fs[last].lenUnit == 1 ==> FinalLen(fs, last) == fs[last].len)
  {
    var last := |fs| - 1;
    assert FieldWF(fs, last);
    assert fs[last].lenUnit == 1 ==> !fs[last].vlenFlag && FinalLen(fs, last) == fs[last].len;
    hide WellFormed, GenFrom, Pending, FinalLen, FieldWF;
    GenLaysOut(fs, dp);
  }

  /** When the last field is a byte field, that is the end of the message, inside the buffer and small enough not to be
      cut to 16 bits. */
  lemma {:induction false} ReportedLengthIsEnd(fs: seq<Field>, dp: seq<uint8>)
    requires fs != [] && WellFormed(fs, 0, |dp|) && fs[|fs| - 1].lenUnit == 8
    ensures var last := GenFrom(fs, 0, dp).0[|fs| - 1];
            8 * (last.bytePos + last.len) == StartBits(last) + Width(last) <= 8 * |dp| < 0x800
  {
    assert |dp| < 0x100;
    hide WellFormed, GenFrom, Pending, FinalLen;
    GenLaysOut(fs, dp);
    FinalLayoutOrdered(fs, dp, |fs| - 1);
  }

  /** Generating from a well-formed format never leaves the message buffer or a field's own buffer. */
  lemma {:induction false} GenerateStaysInside(fs: seq<Field>, i: nat, size: nat)
    requires i <= |fs| && WellFormed(fs, i, size)
    ensures GenSafe(fs, i, size)
    decreases |fs| - i
  {
    hide WellFormed, Resolve, InBuffer, HasBytes;
    if i < |fs| {
      var gs := Resolve(fs, i);
      ResolveSteps(fs, i, size);
      StepIsWritable(fs, gs, i, size);
      StepKeepsWellFormed(fs, gs, i, size);
      GenerateStaysInside(gs, i + 1, size);
    }
  }

  // ---------- round trip ----------

  /** Whole-message round trip, for formats mixing byte, buffer and bit fields. The parse stays inside the message,
      discovers every length, puts every field where the sender had it, and recovers every value. */
  lemma {:induction false} MessageRoundTrip(fs: seq<Field>, rs: seq<Field>, size: nat)
    requires WellFormed(fs, 0, size) && Aligned(fs, rs)
    ensures var (gs, message) := GenFrom(fs, 0, Zeros(size));
            var ps := ParseFrom(rs, 0, message);
            && ParseSafe(rs, 0, message)
            && LaidOut(fs, gs, |fs|)
            && Aligned(gs, ps) && RecoveredFrom(gs, ps, 0, message)
            && forall j :: 0 <= j < |fs| ==>
                 ps[j].len == FinalLen(fs, j) && ps[j].bytePos == fs[j].bytePos + Pending(fs, 0, j)
  {
    var dp := Zeros(size);
    forall s: nat ensures !StreamBit(dp, s) { ZerosClear(size, s); }
    GenSplits(fs, |fs|, dp);
    LayoutMidway(fs, |fs|, dp);
    RoundTripFrom(fs, rs, 0, dp, GenFrom(fs, 0, dp).1);
    var gs, ps := GenFrom(fs, 0, dp).0, ParseFrom(rs, 0, GenFrom(fs, 0, dp).1);
    forall j | 0 <= j < |fs|
      ensures ps[j].len == FinalLen(fs, j) && ps[j].bytePos == fs[j].bytePos + Pending(fs, 0, j)
    {
      assert Twin(gs[j], ps[j]);
    }
  }

  /** The value a field delivers to the reader: a number up to four bytes, a buffer beyond. */
  datatype Value = Number(n: uint32) | Bytes(b: seq<uint8>) | Unknown

  function ValueOf(f: Field): (v: Value)
    ensures f.lenUnit == 1 || (f.lenUnit == 8 && f.len <= 4) ==> v == Number(f.data)
    ensures f.lenUnit == 8 && f.len > 4 && f.buf.Some? && f.len <= |f.buf.value| ==> v == Bytes(f.buf.value[..f.len])
  {
    if f.lenUnit == 1 || (f.lenUnit == 8 && f.len <= 4) then Number(f.data)
    else if f.lenUnit == 8 && f.buf.Some? && f.len <= |f.buf.value| then Bytes(f.buf.value[..f.len])
    else Unknown
  }

  function Values(fs: seq<Field>): seq<Value> {
    seq(|fs|, j requires 0 <= j < |fs| => ValueOf(fs[j]))
  }

  /** What the sender put in, at the length the field ends up with. */
  function Sent(fs: seq<Field>, j: nat): (v: Value)
    requires j < |fs|
    ensures fs[j].lenUnit == 1 || FinalLen(fs, j) <= 4 ==> v == Number(fs[j].data)
    ensures var f, n := fs[j], FinalLen(fs, j);
            f.lenUnit != 1 && n > 4 && f.buf.Some? && n <= |f.buf.value| ==> v == Bytes(f.buf.value[..n])
  {
    if fs[j].lenUnit == 1 || FinalLen(fs, j) <= 4 then Number(fs[j].data)
    else if fs[j].buf.Some? && FinalLen(fs, j) <= |fs[j].buf.value| then Bytes(fs[j].buf.value[..FinalLen(fs, j)])
    else Unknown
  }

  /** Every value fits its field, and bit fields start at bit 7. */
  ghost predicate AllExact(fs: seq<Field>) {
    forall j :: 0 <= j < |fs| ==>
      (fs[j].lenUnit == 8 && FinalLen(fs, j) > 4) || Exact(fs[j].lenUnit, fs[j].bitPos, FinalLen(fs, j), fs[j].data)
  }

  /** For byte formats (and bit fields from bit 7) with fitting values, what is parsed is what was sent. */
  lemma {:induction false} ExactRoundTrip(fs: seq<Field>, rs: seq<Field>, size: nat)
    requires WellFormed(fs, 0, size) && Aligned(fs, rs) && AllExact(fs)
    ensures var ps := ParseFrom(rs, 0, GenFrom(fs, 0, Zeros(size)).1);
            forall j :: 0 <= j < |fs| ==> ValueOf(ps[j]) == Sent(fs, j)
  {
    MessageRoundTrip(fs, rs, size);
    var (gs, message) := GenFrom(fs, 0, Zeros(size));
    var ps := ParseFrom(rs, 0, message);
    forall j | 0 <= j < |fs| ensures ValueOf(ps[j]) == Sent(fs, j) {
      assert FieldWF(fs, j) && Twin(gs[j], ps[j]) && Recovered(gs[j], ps[j], message);
      DeliveredExactly(fs, gs[j], ps[j], j, message);
    }
  }

  lemma {:induction false} DeliveredExactly(fs: seq<Field>, g: Field, p: Field, j: nat, message: seq<uint8>)
    requires j < |fs| && FieldWF(fs, j) && Twin(g, p) && Recovered(g, p, message) && !g.vlenFlag
    requires g.len == FinalLen(fs, j) && g == fs[j].(bytePos := g.bytePos, len := g.len, vlenFlag := g.vlenFlag)
    requires (fs[j].lenUnit == 8 && FinalLen(fs, j) > 4)
             || Exact(fs[j].lenUnit, fs[j].bitPos, FinalLen(fs, j), fs[j].data)
    ensures ValueOf(p) == Sent(fs, j)
  {
    if Exact(g.lenUnit, g.bitPos, g.len, g.data) { ExactIsRecovered(g, p, message); }
  }

  // ---------- midway through parse ----------

  /** Fields after parse has processed the first i of them. */
  function ParseUpTo(rs: seq<Field>, i: nat, dp: seq<uint8>): (r: seq<Field>)
    requires i <= |rs|
    ensures |r| == |rs|
    decreases i
  {
    if i == 0 then rs
    else
      var ss := Resolve(ParseUpTo(rs, i - 1, dp), i - 1);
      ss[i - 1 := ReadField(ss[i - 1], dp)]
  }

  lemma {:induction false} ParseSplits(rs: seq<Field>, i: nat, dp: seq<uint8>)
    requires i <= |rs|
    ensures ParseFrom(rs, 0, dp) == ParseFrom(ParseUpTo(rs, i, dp), i, dp)
    decreases i
  {
    hide Resolve, ReadField;
    if i > 0 { ParseSplits(rs, i - 1, dp); }
  }

  /** Sender and receiver after i fields: laid out alike, the receiver knowing every length, the rest of the buffer
      clear. */
  ghost predicate InLockstep(gs: seq<Field>, dp: seq<uint8>, ss: seq<Field>, i: nat) {
    && i <= |gs| && WellFormed(gs, i, |dp|) && Aligned(gs, ss) && Carried(gs, ss, i)
    && (i < |gs| ==> ClearFrom(dp, StartBits(gs[i])))
  }

  lemma {:induction false} LockstepNext(gs: seq<Field>, dp: seq<uint8>, ss: seq<Field>, i: nat, final: seq<uint8>)
    requires i < |gs| && InLockstep(gs, dp, ss, i) && final == GenFrom(gs, i, dp).1
    ensures |ss| == |gs|
    ensures var hs, ts := Resolve(gs, i), Resolve(ss, i);
            InLockstep(hs, WriteField(dp, hs[i]), ts[i := ReadField(ts[i], final)], i + 1)
  {
    var hs, ts := Resolve(gs, i), Resolve(ss, i);
    hide WellFormed, Resolve, WriteField, ReadField, Carried, Recovered, ClearFrom;
    BothStep(gs, ss, i, dp, hs, ts, WriteField(dp, hs[i]), final, ts[i := ReadField(ts[i], final)]);
  }

  /** Both sides side by side, the receiver reading the finished message. */
  lemma {:induction false} LockstepMidway(fs: seq<Field>, rs: seq<Field>, i: nat, size: nat)
    requires i <= |fs| == |rs| && WellFormed(fs, 0, size) && Aligned(fs, rs)
    ensures var (gs, dp) := GenUpTo(fs, i, Zeros(size));
            InLockstep(gs, dp, ParseUpTo(rs, i, GenFrom(fs, 0, Zeros(size)).1), i)
    decreases i
  {
    hide *;
    var zeros := Zeros(size);
    var final := GenFrom(fs, 0, zeros).1;
    GenUnfold(fs, i, zeros);
    ParseUnfold(rs, i, final);
    if i == 0 {
      LockstepStart(fs, rs, size);
    } else {
      LockstepMidway(fs, rs, i - 1, size);
      var (gs, dp) := GenUpTo(fs, i - 1, zeros);
      GenSplits(fs, i - 1, zeros);
      LockstepNext(gs, dp, ParseUpTo(rs, i - 1, final), i - 1, final);
    }
  }

  lemma {:induction false} LockstepStart(fs: seq<Field>, rs: seq<Field>, size: nat)
    requires WellFormed(fs, 0, size) && Aligned(fs, rs)
    ensures InLockstep(fs, Zeros(size), rs, 0)
  {
    hide WellFormed;
    forall s: nat ensures !StreamBit(Zeros(size), s) { ZerosClear(size, s); }
  }

  lemma {:induction false} GenUnfold(fs: seq<Field>, i: nat, dp: seq<uint8>)
    requires i <= |fs|
    ensures i == 0 ==> GenUpTo(fs, i, dp) == (fs, dp)
    ensures i > 0 ==> var (gs, dq) := GenUpTo(fs, i - 1, dp); var hs := Resolve(gs, i - 1);
                      GenUpTo(fs, i, dp) == (hs, WriteField(dq, hs[i - 1]))
  {
  }

  lemma {:induction false} ParseUnfold(rs: seq<Field>, i: nat, dp: seq<uint8>)
    requires i <= |rs|
    ensures i == 0 ==> ParseUpTo(rs, i, dp) == rs
    ensures i > 0 ==> var ss := Resolve(ParseUpTo(rs, i - 1, dp), i - 1);
                      ParseUpTo(rs, i, dp) == ss[i - 1 := ReadField(ss[i - 1], dp)]
  {
  }

  /** Midway through parse, too, every field lies at its base position plus the lengths of the variable fields already
      processed in front of it, and the lengths found are the ones sent. */
  lemma {:induction false} ParseLayoutMidway(fs: seq<Field>, rs: seq<Field>, i: nat, size: nat)
    requires i <= |fs| && WellFormed(fs, 0, size) && Aligned(fs, rs)
    ensures var message := GenFrom(fs, 0, Zeros(size)).1;
            var ss := ParseUpTo(rs, i, message);
            && ParseFrom(rs, 0, message) == ParseFrom(ss, i, message) && |ss| == |fs|
            && forall j :: 0 <= j < |fs| ==>
                 && ss[j].bytePos == fs[j].bytePos + Pending(fs, 0, Min(i, j))
                 && ss[j].vlenFlag == (fs[j].vlenFlag && j >= i)
                 && (j < i ==> ss[j].len == FinalLen(fs, j))
  {
    var message := GenFrom(fs, 0, Zeros(size)).1;
    hide WellFormed, GenFrom, ParseFrom, FinalLen, Pending, GenUpTo, ParseUpTo, Carried, ClearFrom;
    assert |rs| == |fs|;
    ParseSplits(rs, i, message);
    LayoutMidway(fs, i, Zeros(size));
    LockstepMidway(fs, rs, i, size);
    var gs, ss := GenUpTo(fs, i, Zeros(size)).0, ParseUpTo(rs, i, message);
    forall j | 0 <= j < |fs|
      ensures ss[j].bytePos == fs[j].bytePos + Pending(fs, 0, Min(i, j)) && ss[j].vlenFlag == (fs[j].vlenFlag && j >= i)
      ensures j < i ==> ss[j].len == FinalLen(fs, j)
    {
      assert Twin(gs[j], ss[j]);
    }
  }

  // ---------- exactly which values are delivered ----------

  /** Stream position s carries a set bit of what field f, its layout fixed, puts into a message. */
  predicate FieldSets(f: Field, s: nat) {
    && StartBits(f) <= s < StartBits(f) + Width(f)
    && if f.lenUnit == 8 && f.len > 4 then f.buf.Some? && StreamBit(f.buf.value, s - StartBits(f))
       else Bit(f.data, StartBits(f) + Width(f) - 1 - s)
  }

  predicate SomeFieldSets(fs: seq<Field>, from: nat, s: nat) {
    exists j :: from <= j < |fs| && FieldSets(fs[j], s)
  }

  lemma {:induction false} WrittenBit(dp: seq<uint8>, f: Field, s: nat)
    requires Writable(f, |dp|) && ClearFrom(dp, StartBits(f))
    ensures StreamBit(WriteField(dp, f), s) <==> StreamBit(dp, s) || FieldSets(f, s)
  {
    assert StartBits(f) <= s ==> !StreamBit(dp, s);
    hide StreamBit, Bit, Pow2, ClearFrom;
    if f.lenUnit == 1 {
      WriteBitsBit(dp, f.bytePos, f.bitPos, f.len, f.data, s);
    } else if f.len <= 4 {
      SetStreamBits(dp, 8 * f.bytePos, 8 * f.len, f.data, s);
    } else {
      WrittenBufferBit(dp, f, s);
    }
  }

  lemma {:induction false} WrittenBufferBit(dp: seq<uint8>, f: Field, s: nat)
    requires f.lenUnit == 8 && f.len > 4 && f.bitPos == 0 && InBuffer(f, |dp|) && HasBytes(f)
    requires StartBits(f) <= s ==> !StreamBit(dp, s)
    ensures StreamBit(WriteField(dp, f), s) <==> StreamBit(dp, s) || FieldSets(f, s)
  {
    hide StreamBit;
    SplicedBit(dp, f.bytePos, f.buf.value[..f.len], s);
    if 8 * f.bytePos <= s < 8 * (f.bytePos + f.len) { PrefixBit(f.buf.value, f.len, s - 8 * f.bytePos); }
  }

  lemma {:induction false} PrefixBit(b: seq<uint8>, n: nat, s: nat)
    requires n <= |b| && s < 8 * n
    ensures StreamBit(b[..n], s) <==> StreamBit(b, s)
  {
  }

  lemma {:induction false} SplicedBit(dp: seq<uint8>, p: nat, b: seq<uint8>, s: nat)
    requires p + |b| <= |dp|
    ensures StreamBit(Splice(dp, p, b), s)
       <==> if 8 * p <= s < 8 * (p + |b|) then StreamBit(b, s - 8 * p) else StreamBit(dp, s)
  {
    var dq := Splice(dp, p, b);
    assert |dq| == |dp|;
    if 8 * p <= s < 8 * (p + |b|) {
      assert dq[s / 8] == b[s / 8 - p] && (s - 8 * p) / 8 == s / 8 - p && (s - 8 * p) % 8 == s % 8;
    } else if s < 8 * |dp| {
      assert dq[s / 8] == dp[s / 8];
    }
  }

  /** Every set bit of a finished message was there before or belongs to a field. */
  lemma {:induction false} MessageBits(fs: seq<Field>, i: nat, dp: seq<uint8>, s: nat)
    requires i <= |fs| && WellFormed(fs, i, |dp|) && (i < |fs| ==> ClearFrom(dp, StartBits(fs[i])))
    ensures StreamBit(GenFrom(fs, i, dp).1, s) <==> StreamBit(dp, s) || SomeFieldSets(GenFrom(fs, i, dp).0, i, s)
    decreases |fs| - i
  {
    hide WellFormed, Resolve, WriteField, Writable, FieldSets;
    if i < |fs| {
      var gs := Resolve(fs, i);
      var dq := WriteField(dp, gs[i]);
      GenStep(fs, i, dp, gs, dq);
      WrittenBit(dp, gs[i], s);
      GenFromFrame(gs, i + 1, dq);
      MessageBits(gs, i + 1, dq, s);
      FieldOrLater(GenFrom(fs, i, dp).0, i, s);
    }
  }

  lemma {:induction false} FieldOrLater(fs: seq<Field>, i: nat, s: nat)
    requires i < |fs|
    ensures SomeFieldSets(fs, i, s) <==> FieldSets(fs[i], s) || SomeFieldSets(fs, i + 1, s)
  {
    hide FieldSets;
    if SomeFieldSets(fs, i, s) && !FieldSets(fs[i], s) {
      var j :| i <= j < |fs| && FieldSets(fs[j], s);
      assert i + 1 <= j;
    }
  }

  /** Field j as generate leaves it: moved by the lengths in front of it, at its final length. */
  function PlacedField(fs: seq<Field>, j: nat): Field
    requires j < |fs|
  {
    fs[j].(bytePos := ToUint8(fs[j].bytePos + Pending(fs, 0, j)), len := ToUint16(FinalLen(fs, j)), vlenFlag := false)
  }

  /** Field j is a bit field not beginning at bit 7, and the values sent set the bit directly above it. */
  predicate BitAboveSet(fs: seq<Field>, j: nat)
    requires j < |fs|
  {
    && fs[j].lenUnit == 1 && fs[j].bitPos < 7 && fs[j].len > 0 && StartBits(PlacedField(fs, j)) > 0
    && SomeSends(fs, StartBits(PlacedField(fs, j)) - 1)
  }

  predicate SomeSends(fs: seq<Field>, s: nat) { exists k :: 0 <= k < |fs| && FieldSets(PlacedField(fs, k), s) }

  /** The value sent has no bit beyond its field. */
  predicate FitsField(fs: seq<Field>, j: nat)
    requires j < |fs|
  {
    if fs[j].lenUnit == 8 then FinalLen(fs, j) > 4 || fs[j].data < Pow2(8 * FinalLen(fs, j))
    else fs[j].data < Pow2(fs[j].len)
  }

  lemma {:induction false} PlacedIsGenerated(fs: seq<Field>, gs: seq<Field>, j: nat)
    requires LaidOut(fs, gs, |fs|) && j < |fs|
    ensures gs[j] == PlacedField(fs, j)
  {
    hide Pending, FinalLen;
  }

  lemma {:induction false} SentBits(fs: seq<Field>, gs: seq<Field>, s: nat)
    requires LaidOut(fs, gs, |fs|)
    ensures SomeFieldSets(gs, 0, s) <==> SomeSends(fs, s)
  {
    assert |gs| == |fs|;
    forall k | 0 <= k < |fs| ensures gs[k] == PlacedField(fs, k) { PlacedIsGenerated(fs, gs, k); }
    hide LaidOut, FieldSets, PlacedField;
    if SomeFieldSets(gs, 0, s) {
      var k :| 0 <= k < |gs| && FieldSets(gs[k], s);
      assert FieldSets(PlacedField(fs, k), s);
    }
    if SomeSends(fs, s) {
      var k :| 0 <= k < |fs| && FieldSets(PlacedField(fs, k), s);
      assert FieldSets(gs[k], s);
    }
  }

  /** A bit of the finished message is set if and only if some value sent sets it. */
  lemma {:induction false} SentMessageBits(fs: seq<Field>, size: nat, s: nat)
    requires WellFormed(fs, 0, size)
    ensures StreamBit(GenFrom(fs, 0, Zeros(size)).1, s) <==> SomeSends(fs, s)
  {
    forall s: nat ensures !StreamBit(Zeros(size), s) { ZerosClear(size, s); }
    hide WellFormed, GenFrom, LaidOut, SomeSends, SomeFieldSets;
    GenLaysOut(fs, Zeros(size));
    MessageBits(fs, 0, Zeros(size), s);
    SentBits(fs, GenFrom(fs, 0, Zeros(size)).0, s);
  }

  lemma {:induction false} NeighbourByStart(message: seq<uint8>, f: Field)
    requires f.lenUnit == 1 && f.bitPos <= 7
    ensures Neighbour(message, f.bytePos, f.bitPos, f.len)
       <==> f.bitPos < 7 && f.len > 0 && StartBits(f) > 0 && StreamBit(message, StartBits(f) - 1)
  {
    hide StreamBit;
  }

  lemma {:induction false} PlacedBitField(fs: seq<Field>, size: nat, j: nat)
    requires WellFormed(fs, 0, size) && j < |fs| && fs[j].lenUnit == 1
    ensures var p := PlacedField(fs, j); p.lenUnit == 1 && p.bitPos == fs[j].bitPos && p.len == fs[j].len
  {
    hide Pending, FinalLen, WellFormed;
    BitFieldFixed(fs, size, j);
  }

  lemma {:induction false} BitFieldFixed(fs: seq<Field>, size: nat, j: nat)
    requires WellFormed(fs, 0, size) && j < |fs| && fs[j].lenUnit == 1
    ensures FinalLen(fs, j) == fs[j].len
  {
    hide Pending, Ordered, Fits;
    assert FieldWF(fs, j);
  }

  lemma {:induction false} AboveInMessage(fs: seq<Field>, size: nat, j: nat)
    requires WellFormed(fs, 0, size) && j < |fs| && fs[j].lenUnit == 1 && fs[j].bitPos <= 7
    ensures var (gs, message) := GenFrom(fs, 0, Zeros(size));
            Neighbour(message, gs[j].bytePos, fs[j].bitPos, fs[j].len) <==> BitAboveSet(fs, j)
  {
    hide *;
    var (gs, message) := GenFrom(fs, 0, Zeros(size));
    var p := PlacedField(fs, j);
    assert |Zeros(size)| == size;
    GenLaysOut(fs, Zeros(size));
    PlacedIsGenerated(fs, gs, j);
    PlacedBitField(fs, size, j);
    NeighbourByStart(message, p);
    if StartBits(p) > 0 { SentMessageBits(fs, size, StartBits(p) - 1); }
    AboveByParts(fs, j, StartBits(p));
  }

  lemma {:induction false} AboveByParts(fs: seq<Field>, j: nat, start: nat)
    requires j < |fs| && start == StartBits(PlacedField(fs, j))
    ensures BitAboveSet(fs, j)
       <==> fs[j].lenUnit == 1 && fs[j].bitPos < 7 && fs[j].len > 0 && start > 0 && SomeSends(fs, start - 1)
  {
  }

  /** For any well-formed format a fitting value is delivered if and only if its field is a byte field, is 32 bits wide,
      or has no set bit of the values sent directly above it. */
  lemma {:induction false} DeliveredIff(fs: seq<Field>, rs: seq<Field>, size: nat, j: nat)
    requires WellFormed(fs, 0, size) && Aligned(fs, rs) && j < |fs| && FitsField(fs, j)
    ensures ValueOf(ParseFrom(rs, 0, GenFrom(fs, 0, Zeros(size)).1)[j]) == Sent(fs, j)
       <==> fs[j].lenUnit == 8 || fs[j].len == 32 || !BitAboveSet(fs, j)
  {
    var (gs, message) := GenFrom(fs, 0, Zeros(size));
    var ps := ParseFrom(rs, 0, message);
    assert FieldWF(fs, j);
    hide WellFormed, GenFrom, ParseFrom, BitAboveSet, FinalLen, Pending;
    MessageRoundTrip(fs, rs, size);
    assert Twin(gs[j], ps[j]) && Recovered(gs[j], ps[j], message);
    if fs[j].lenUnit == 8 {
      DeliveredExactly(fs, gs[j], ps[j], j, message);
    } else {
      AboveInMessage(fs, size, j);
      SmallModulo(fs[j].data, Pow2(fs[j].len));
      ExactWithoutSurplus(fs[j].data, fs[j].len, BitAboveSet(fs, j));
    }
  }

  // ---------- what stands where in the message ----------

  /** The finished message agrees with what writing field j alone leaves at the field's place. */
  lemma {:induction false} FieldInMessage(fs: seq<Field>, dp: seq<uint8>, j: nat) returns (dq: seq<uint8>)
    requires WellFormed(fs, 0, |dp|) && j < |fs|
    ensures var (gs, message) := GenFrom(fs, 0, dp);
            && LaidOut(fs, gs, |fs|) && Writable(gs[j], |dq|) && |message| == |dq| == |dp|
            && SameStretch(message, WriteField(dq, gs[j]), 0, StartBits(gs[j]) + Width(gs[j]))
  {
    hide *;
    GenLaysOut(fs, dp);
    GenSplits(fs, j + 1, dp);
    GenUnfold(fs, j + 1, dp);
    LayoutMidway(fs, j, dp);
    var hs := GenUpTo(fs, j, dp).0;
    dq := GenUpTo(fs, j, dp).1;
    var gs := Resolve(hs, j);
    GenStep(hs, j, dq, gs, WriteField(dq, gs[j]));
    FinalAgrees(gs, j, WriteField(dq, gs[j]), GenFrom(fs, 0, dp).1);
    GenFromFrame(gs, j + 1, WriteField(dq, gs[j]));
  }

  /** A long byte field's buffer stands in the message at its base position plus the lengths in front of it. */
  lemma {:induction false} BufferInMessage(fs: seq<Field>, dp: seq<uint8>, j: nat)
    requires WellFormed(fs, 0, |dp|) && j < |fs| && fs[j].lenUnit == 8 && FinalLen(fs, j) > 4
    ensures var message, p, n := GenFrom(fs, 0, dp).1, fs[j].bytePos + Pending(fs, 0, j), FinalLen(fs, j);
            && p + n <= |message| == |dp| && fs[j].buf.Some? && n <= |fs[j].buf.value|
            && message[p..p + n] == fs[j].buf.value[..n]
  {
    hide *;
    var dq := FieldInMessage(fs, dp, j);
    var (gs, message) := GenFrom(fs, 0, dp);
    WherePlaced(fs, gs, j);
    BytesWritten(dq, gs[j], message);
  }

  lemma {:induction false} WherePlaced(fs: seq<Field>, gs: seq<Field>, j: nat)
    requires LaidOut(fs, gs, |fs|) && j < |fs|
    ensures |gs| == |fs| && gs[j].bytePos == fs[j].bytePos + Pending(fs, 0, j) && gs[j].len == FinalLen(fs, j)
    ensures gs[j].lenUnit == fs[j].lenUnit && gs[j].data == fs[j].data && gs[j].buf == fs[j].buf
  {
    hide Pending, FinalLen;
  }

  lemma {:induction false} BytesWritten(dq: seq<uint8>, f: Field, message: seq<uint8>)
    requires Writable(f, |dq|) && f.lenUnit == 8 && f.len > 4 && |message| == |dq|
    requires SameStretch(message, WriteField(dq, f), 0, StartBits(f) + Width(f))
    ensures f.bytePos + f.len <= |message| && f.buf.Some? && f.len <= |f.buf.value|
    ensures message[f.bytePos..f.bytePos + f.len] == f.buf.value[..f.len]
  {
    forall k | 0 <= k < f.len ensures message[f.bytePos + k] == f.buf.value[k] {
      assert SameStretch(message, WriteField(dq, f), 8 * (f.bytePos + k), 8 * (f.bytePos + k) + 8);
      SameStretchSameByte(message, WriteField(dq, f), f.bytePos + k);
    }
  }

  /** A short byte field's number stands there, most significant byte first. */
  lemma {:induction false} NumberBytesInMessage(fs: seq<Field>, dp: seq<uint8>, j: nat, k: nat)
    requires WellFormed(fs, 0, |dp|) && j < |fs| && fs[j].lenUnit == 8 && k < FinalLen(fs, j) <= 4
    ensures var message, p, n := GenFrom(fs, 0, dp).1, fs[j].bytePos + Pending(fs, 0, j), FinalLen(fs, j);
            p + n <= |message| == |dp|
            && message[p + k] == fs[j].data / [1, 0x100, 0x1_0000, 0x100_0000][n - 1 - k] % 0x100
  {
    hide *;
    var dq := FieldInMessage(fs, dp, j);
    var (gs, message) := GenFrom(fs, 0, dp);
    WherePlaced(fs, gs, j);
    NumberWritten(dq, gs[j], message, k);
  }

  lemma {:induction false} NumberWritten(dq: seq<uint8>, f: Field, message: seq<uint8>, k: nat)
    requires Writable(f, |dq|) && f.lenUnit == 8 && k < f.len <= 4 && |message| == |dq|
    requires SameStretch(message, WriteField(dq, f), 0, StartBits(f) + Width(f))
    ensures f.bytePos + f.len <= |message|
    ensures message[f.bytePos + k] == f.data / [1, 0x100, 0x1_0000, 0x100_0000][f.len - 1 - k] % 0x100
  {
    hide StreamBit, FieldIO.WriteBytes;
    WriteFieldFrame(dq, f, 0);
    assert SameStretch(message, WriteField(dq, f), 8 * (f.bytePos + k), 8 * (f.bytePos + k) + 8);
    SameStretchSameByte(message, WriteField(dq, f), f.bytePos + k);
    FieldIO.WriteBytesAt(dq, f.bytePos, f.len, f.data, f.bytePos + k);
    FieldIO.ByteIsQuotient(f.data, f.len, k);
  }
}
