/** A finished parse seen from outside: what each field holds, and which bytes it depends on. */
module ParseResult {
  import opened CTypes
  import opened BitStream
  import opened FieldIO
  import opened Format
  import opened RoundTrip
  import opened Messages
  import opened Reuse

  predicate Readable(f: Field) { f.lenUnit == 8 || (f.lenUnit == 1 && f.bitPos <= 7) }

  /** The value found in a message at a field's place. */
  function ValueAt(dp: seq<uint8>, f: Field): Value {
    if f.lenUnit == 8 then
      if f.len <= 4 then Number(ToUint32(ReadBytes(dp, f.bytePos, f.len))) else Bytes(BytesAt(dp, f.bytePos, f.len))
    else if f.lenUnit == 1 && f.bitPos <= 7 then Number(FieldIO.ReadBits(dp, f.bytePos, f.bitPos, f.len))
    else Unknown
  }

  /** f holds what stands in the message at its place; a buffer is there if it was before or f is long. */
  predicate ReadOff(before: Field, f: Field, dp: seq<uint8>) {
    && ValueOf(f) == ValueAt(dp, f)
    && f.name == before.name && f.lenUnit == before.lenUnit
    && (f.buf.Some? <==> before.buf.Some? || (f.lenUnit == 8 && f.len > 4))
    && (if f.lenUnit == 8 && f.len > 4 then f.len <= |f.buf.value| else f.buf == before.buf)
  }

  lemma {:induction false} ReadFieldReadsOff(f: Field, dp: seq<uint8>)
    requires Readable(f)
    ensures ReadOff(f, ReadField(f, dp), dp)
  {
    if f.lenUnit == 8 && f.len > 4 {
      var b := BytesAt(dp, f.bytePos, f.len);
      assert StoreBuf(f, b).buf.value[..f.len] == b;
    }
  }

  lemma {:induction false} ResolveKeeps(fs: seq<Field>, i: nat, j: nat)
    requires i < |fs| && j < |fs|
    ensures var f, g := fs[j], Resolve(fs, i)[j];
            g.name == f.name && g.lenUnit == f.lenUnit && g.bitPos == f.bitPos && g.buf == f.buf
  {
  }

  /** However positions and lengths came about, each field ends up holding the message's content at the place where
      the field ends up. */
  lemma {:induction false} ParseReadsOff(fs: seq<Field>, i: nat, dp: seq<uint8>)
    requires i <= |fs| && forall j :: 0 <= j < |fs| ==> Readable(fs[j])
    ensures forall j :: i <= j < |fs| ==> ReadOff(fs[j], ParseFrom(fs, i, dp)[j], dp)
    decreases |fs| - i
  {
    if i < |fs| {
      var gs := Resolve(fs, i);
      var next := gs[i := ReadField(gs[i], dp)];
      forall j | 0 <= j < |fs| ensures gs[j].name == fs[j].name && gs[j].lenUnit == fs[j].lenUnit
                                    && gs[j].bitPos == fs[j].bitPos && gs[j].buf == fs[j].buf {
        ResolveKeeps(fs, i, j);
      }
      ReadFieldReadsOff(gs[i], dp);
      ReadKeepsShape(gs[i], dp);
      hide Resolve, ReadField, ValueAt, ValueOf;
      ParseReadsOff(next, i + 1, dp);
      ParseFromFrame(next, i + 1, dp);
    }
  }

  lemma {:induction false} PrefixIsStretch(dp: seq<uint8>, dq: seq<uint8>, n: nat)
    requires n <= |dp| && n <= |dq| && dp[..n] == dq[..n]
    ensures SameStretch(dp, dq, 0, 8 * n)
  {
    forall s: nat | s < 8 * n ensures StreamBit(dp, s) <==> StreamBit(dq, s) {
      assert dp[..n][s / 8] == dq[..n][s / 8];
    }
  }

  lemma {:induction false} ReadFieldLocal(f: Field, dp: seq<uint8>, dq: seq<uint8>, n: nat)
    requires n <= |dp| && n <= |dq| && dp[..n] == dq[..n]
    requires f.lenUnit == 8 && f.bytePos + f.len <= n
    ensures ReadField(f, dp) == ReadField(f, dq)
  {
    if f.len <= 4 {
      PrefixIsStretch(dp, dq, n);
      ReadStreamLocal(dp, dq, 8 * f.bytePos, 8 * f.len);
    } else {
      forall k | 0 <= k < f.len ensures BytesAt(dp, f.bytePos, f.len)[k] == BytesAt(dq, f.bytePos, f.len)[k] {
        assert dp[..n][f.bytePos + k] == dq[..n][f.bytePos + k];
      }
      assert BytesAt(dp, f.bytePos, f.len) == BytesAt(dq, f.bytePos, f.len);
    }
  }

  /** All fields from i on are byte fields that end within n bytes. */
  ghost predicate EndWithin(fs: seq<Field>, i: nat, n: nat) {
    forall j :: i <= j < |fs| ==> fs[j].lenUnit == 8 && fs[j].bytePos + fs[j].len <= n
  }

  /** Bytes behind the last field, left over from an earlier message, make no difference. */
  lemma {:induction false} ParseLocal(fs: seq<Field>, i: nat, dp: seq<uint8>, dq: seq<uint8>, n: nat)
    requires i <= |fs| && n <= |dp| && n <= |dq| && dp[..n] == dq[..n]
    requires EndWithin(ParseFrom(fs, i, dp), i, n)
    ensures ParseFrom(fs, i, dq) == ParseFrom(fs, i, dp)
    ensures ParseSafe(fs, i, dp) ==> ParseSafe(fs, i, dq)
    decreases |fs| - i
  {
    hide Resolve, ReadField;
    if i < |fs| {
      var gs := Resolve(fs, i);
      var next := gs[i := ReadField(gs[i], dp)];
      ParseFromFrame(next, i + 1, dp);
      assert ParseFrom(fs, i, dp)[i] == next[i];
      ReadKeepsShape(gs[i], dp);
      ReadFieldLocal(gs[i], dp, dq, n);
      ParseLocal(next, i + 1, dp, dq, n);
    }
  }
}
