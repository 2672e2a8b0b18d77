/** One record of a container: sent with a driver table, read by an analyzer that may have read records before. */
module Records {
  import opened CTypes
  import opened BitStream
  import opened FieldIO
  import opened Format
  import opened RoundTrip
  import opened Messages
  import opened Reuse
  import opened ParseResult
  import opened ProtocolAnalyzer
  import opened Tables
  import opened Business
  import Bits

  /** Values for table t that fit their fields and the analyzer's buffer. */
  ghost predicate Sendable(t: seq<Field>, fs: seq<Field>) {
    Filled(t, fs) && ValuesFit(fs) && MessageLen(fs) <= MAX_PROTO_DATA_LEN
  }

  /** What a fresh analyzer generates for the values. */
  function Message(fs: seq<Field>): (m: seq<uint8>) {
    GenFrom(fs, 0, Zeros(MAX_PROTO_DATA_LEN)).1
  }

  /** An analyzer laid out and armed as one just created from t; lengths of variable fields, values and buffers may
      be left over from earlier records. */
  ghost predicate AsNew(t: seq<Field>, rs: seq<Field>) {
    |t| == |rs| && forall j :: 0 <= j < |t| ==> Twin(t[j], rs[j]) && rs[j].vlenFlagBak == t[j].vlenFlagBak
  }

  ghost predicate Delivered(fs: seq<Field>, ps: seq<Field>) {
    |ps| == |fs| && forall j :: 0 <= j < |fs| ==> ValueOf(ps[j]) == Sent(fs, j)
  }

  /** No variable field in front of another field has a length: nothing moves. */
  ghost predicate NothingMoves(fs: seq<Field>) {
    forall j :: 0 <= j < |fs| ==> Pending(fs, 0, j) == 0
  }

  /** Every field of the parse stands at its base position plus the sent lengths in front of it. */
  ghost predicate Placed(fs: seq<Field>, ps: seq<Field>) {
    |ps| == |fs| && forall j :: 0 <= j < |fs| ==>
      && ps[j].bytePos == fs[j].bytePos + Pending(fs, 0, j) && ps[j].len == FinalLen(fs, j)
      && ps[j].lenUnit == fs[j].lenUnit
  }

  lemma {:induction false} AsNewIsAligned(t: seq<Field>, fs: seq<Field>, rs: seq<Field>)
    requires Filled(t, fs) && AsNew(t, rs)
    ensures Aligned(fs, rs)
  {
  }

  lemma {:induction false} FreshIsAsNew(t: seq<Field>)
    ensures AsNew(t, t)
  {
  }

  lemma {:induction false} AsNewIsByteVariable(t: seq<Field>, rs: seq<Field>)
    requires ByteTable(t) && AsNew(t, rs)
    ensures ByteVariable(rs) && Armed(rs)
  {
    assert SameNames(t, rs);
    forall j | 0 <= j < |rs| ensures rs[j].vlenFlag == rs[j].vlenFlagBak { assert ByteRow(t, j) && Twin(t[j], rs[j]); }
    forall j | 0 <= j < |rs| && (rs[j].vlenFlag || rs[j].vlenFlagBak)
      ensures rs[j].lenUnit == 8 && Lookup(rs, rs[j].vlenIndex).Some?
    {
      assert ByteRow(t, j) && Twin(t[j], rs[j]);
      var k :| MeasuredBy(t, j, k);
      MeasuredIsLookup(t, j, k);
      LookupByNames(t, rs, |t|, PadKey(t[j].vlenIndex));
    }
  }

  /** An exact copy of the sent message is delivered and placed. */
  lemma {:induction false} WholeMessage(t: seq<Field>, fs: seq<Field>, rs: seq<Field>)
    requires ByteTable(t) && Sendable(t, fs) && AsNew(t, rs)
    ensures |Message(fs)| == MAX_PROTO_DATA_LEN
    ensures ParseSafe(rs, 0, Message(fs))
    ensures Delivered(fs, ParseFrom(rs, 0, Message(fs))) && Placed(fs, ParseFrom(rs, 0, Message(fs)))
  {
    hide ByteTable, ValuesFit, WellFormed, AllExact, GenFrom, ParseFrom, ParseSafe, MessageLen, Sent, ValueOf,
         LaidOut, Zeros, Recovered,
         FinalLen, Pending;
    FilledTableWellFormed(t, fs, MAX_PROTO_DATA_LEN);
    AsNewIsAligned(t, fs, rs);
    assert |Zeros(MAX_PROTO_DATA_LEN)| == MAX_PROTO_DATA_LEN;
    GenLaysOut(fs, Zeros(MAX_PROTO_DATA_LEN));
    MessageRoundTrip(fs, rs, MAX_PROTO_DATA_LEN);
    ExactRoundTrip(fs, rs, MAX_PROTO_DATA_LEN);
    var gs, ps := GenFrom(fs, 0, Zeros(MAX_PROTO_DATA_LEN)).0, ParseFrom(rs, 0, Message(fs));
    forall j | 0 <= j < |fs| ensures ps[j].lenUnit == fs[j].lenUnit {
      assert Twin(gs[j], ps[j]);
      LaidOutUnit(fs, gs, j);
    }
  }

  lemma {:induction false} LaidOutUnit(fs: seq<Field>, gs: seq<Field>, j: nat)
    requires LaidOut(fs, gs, |fs|) && j < |fs|
    ensures gs[j].lenUnit == fs[j].lenUnit
  {
    hide FinalLen, Pending;
  }

  lemma {:induction false} PlacedEndsWithin(t: seq<Field>, fs: seq<Field>, ps: seq<Field>)
    requires ByteTable(t) && Filled(t, fs) && Placed(fs, ps)
    ensures EndWithin(ps, 0, MessageLen(fs))
  {
    forall j | 0 <= j < |fs| ensures ps[j].lenUnit == 8 && ps[j].bytePos + ps[j].len <= MessageLen(fs) {
      assert ByteRow(t, j);
      EndsBelowLast(t, fs, j);
    }
  }

  /** dq starts with the message made of fs. */
  predicate StartsWith(dq: seq<uint8>, fs: seq<Field>) {
    MessageLen(fs) <= |dq| && MessageLen(fs) <= |Message(fs)| && dq[..MessageLen(fs)] == Message(fs)[..MessageLen(fs)]
  }

  /** A buffer that merely starts with the message is as good: what older records left behind it does not matter. */
  lemma {:induction false} RecordDelivered(t: seq<Field>, fs: seq<Field>, rs: seq<Field>, dq: seq<uint8>)
    requires ByteTable(t) && Sendable(t, fs) && AsNew(t, rs) && StartsWith(dq, fs)
    ensures ParseSafe(rs, 0, dq)
    ensures Delivered(fs, ParseFrom(rs, 0, dq)) && Placed(fs, ParseFrom(rs, 0, dq))
  {
    hide ByteTable, ValuesFit, ParseFrom, ParseSafe, MessageLen, Message, Delivered, Placed, EndWithin, AsNew, Filled;
    WholeMessage(t, fs, rs);
    PlacedEndsWithin(t, fs, ParseFrom(rs, 0, Message(fs)));
    ParseLocal(rs, 0, Message(fs), dq, MessageLen(fs));
  }

  /** After the record and a reset the analyzer is as new if and only if the record moved no field. */
  lemma {:induction false} AsNewAgainIff(t: seq<Field>, fs: seq<Field>, rs: seq<Field>, dq: seq<uint8>)
    requires ByteTable(t) && Sendable(t, fs) && AsNew(t, rs) && StartsWith(dq, fs)
    ensures AsNew(t, Reset(ParseFrom(rs, 0, dq))) <==> NothingMoves(fs)
  {
    var ps := ParseFrom(rs, 0, dq);
    assert forall j :: 0 <= j < |t| ==> t[j].vlenFlag == t[j].vlenFlagBak by {
      forall j | 0 <= j < |t| ensures t[j].vlenFlag == t[j].vlenFlagBak { assert ByteRow(t, j); }
    }
    hide ByteTable, ValuesFit, ParseFrom, ParseSafe, MessageLen, Message, Delivered, Pending, FinalLen, Discovered,
         ByteVariable, ToUint8,
         StartsWith;
    RecordDelivered(t, fs, rs, dq);
    AsNewIsByteVariable(t, rs);
    PassMoves(rs, 0, dq);
    PassKeepsLengths(rs, 0, dq);
    forall j | 0 <= j < |t|
      ensures Twin(t[j], Reset(ps)[j]) && Reset(ps)[j].vlenFlagBak == t[j].vlenFlagBak <==> Pending(fs, 0, j) == 0
    {
      assert Twin(t[j], rs[j]) && MovedBy(rs[j], ps[j], Discovered(rs, ps, 0, j));
    }
  }

  lemma {:induction false} DiscoveredIsPending(fs: seq<Field>, rs: seq<Field>, ps: seq<Field>, j: nat)
    requires j <= |fs| == |rs| && Placed(fs, ps) && forall m :: 0 <= m < |fs| ==> rs[m].vlenFlag == fs[m].vlenFlag
    ensures Discovered(rs, ps, 0, j) == Pending(fs, 0, j)
    decreases j
  {
    hide FinalLen;
    if j > 0 { DiscoveredIsPending(fs, rs, ps, j - 1); }
  }

  lemma {:induction false} WrappedShift(pos: uint8, p: nat, d: nat, shifted: uint8, final: uint8)
    requires pos + d < 0x100 && shifted == pos + d && final == ToUint8(shifted + p) && final == pos + p
    ensures d == 0
  {
  }

  /** A second record is looked for in the right place if and only if the first one moved no field. */
  lemma {:induction false} SecondPlacedIff(t: seq<Field>, fs: seq<Field>, rs: seq<Field>, dq: seq<uint8>,
                                           gs: seq<Field>, dr: seq<uint8>)
    requires ByteTable(t) && Sendable(t, fs) && AsNew(t, rs) && StartsWith(dq, fs)
    requires Sendable(t, gs) && StartsWith(dr, gs)
    ensures Placed(gs, ParseFrom(Reset(ParseFrom(rs, 0, dq)), 0, dr)) <==> NothingMoves(fs)
  {
    hide *;
    var first := ParseFrom(rs, 0, dq);
    AsNewAgainIff(t, fs, rs, dq);
    if NothingMoves(fs) {
      RecordDelivered(t, gs, Reset(first), dr);
    } else if Placed(gs, ParseFrom(Reset(first), 0, dr)) {
      AsNewIsByteVariable(t, rs);
      OneRound(rs, dq);
      RecordDelivered(t, fs, rs, dq);
      assert Filled(t, fs) && Filled(t, gs) by { SendableIsFilled(t, fs); SendableIsFilled(t, gs); }
      NeverMoved(t, fs, rs, gs, first, dr);
    }
  }

  lemma {:induction false} SendableIsFilled(t: seq<Field>, fs: seq<Field>)
    requires Sendable(t, fs)
    ensures Filled(t, fs)
  {
  }

  lemma {:induction false} NeverMoved(t: seq<Field>, fs: seq<Field>, rs: seq<Field>, gs: seq<Field>,
                                      first: seq<Field>, dr: seq<uint8>)
    requires ByteTable(t) && AsNew(t, rs) && Filled(t, fs) && Filled(t, gs) && Placed(fs, first)
    requires ByteVariable(Reset(first)) && Armed(Reset(first))
    requires |rs| == |first| && forall j :: 0 <= j < |rs| ==>
             MovedBy(rs[j], Reset(first)[j], Discovered(rs, first, 0, j))
    requires Placed(gs, ParseFrom(Reset(first), 0, dr))
    ensures NothingMoves(fs)
  {
    hide ByteTable, ByteRow, ParseFrom, Pending, FinalLen, Discovered, ByteVariable, Armed, ToUint8, Reset, Placed,
         Filled;
    var again := Reset(first);
    var ps := ParseFrom(again, 0, dr);
    assert |fs| == |gs| == |t| by { SameCount(t, fs); SameCount(t, gs); }
    forall k | 0 <= k < |t|
      ensures SameShape(rs[k], again[k])
    {
      assert MovedBy(rs[k], again[k], Discovered(rs, first, 0, k));
    }
    ArmedAsTable(t, rs, again);
    PassMoves(again, 0, dr);
    forall j | 0 <= j < |fs| ensures Pending(fs, 0, j) == 0 {
      assert MovedBy(again[j], ps[j], Discovered(again, ps, 0, j));
      ResetStays(first, j);
      ShiftedOnce(t, fs, gs, first, again, ps, j);
    }
  }

  lemma {:induction false} SameCount(t: seq<Field>, fs: seq<Field>)
    requires Filled(t, fs)
    ensures |fs| == |t|
  {
  }

  lemma {:induction false} ResetStays(ps: seq<Field>, j: nat)
    requires j < |ps|
    ensures Reset(ps)[j].bytePos == ps[j].bytePos
  {
  }

  lemma {:induction false} ArmedAsTable(t: seq<Field>, rs: seq<Field>, again: seq<Field>)
    requires ByteTable(t) && AsNew(t, rs) && |again| == |t| && Armed(again)
    requires forall k :: 0 <= k < |t| ==> SameShape(rs[k], again[k])
    ensures forall k :: 0 <= k < |t| ==> again[k].vlenFlag == t[k].vlenFlag
  {
    forall m | 0 <= m < |t| ensures again[m].vlenFlag == t[m].vlenFlag {
      assert ByteRow(t, m) && Twin(t[m], rs[m]) && SameShape(rs[m], again[m]);
    }
  }

  /** Field j of three states: laid out at pos, read, read again. */
  lemma {:induction false} ShiftedOnce(t: seq<Field>, fs: seq<Field>, gs: seq<Field>, first: seq<Field>,
                                       again: seq<Field>, ps: seq<Field>, j: nat)
    requires Filled(t, fs) && Filled(t, gs) && |again| == |t| && j < |t|
    requires forall k :: 0 <= k < |t| ==> again[k].vlenFlag == t[k].vlenFlag
    requires Placed(fs, first) && Placed(gs, ps) && again[j].bytePos == first[j].bytePos
    requires ps[j].bytePos == ToUint8(again[j].bytePos + Discovered(again, ps, 0, j))
    ensures Pending(fs, 0, j) == 0
  {
    hide Pending, FinalLen, Discovered, ToUint8;
    DiscoveredIsPending(gs, again, ps, j);
    WrappedShift(t[j].bytePos, Pending(gs, 0, j), Pending(fs, 0, j), again[j].bytePos, ps[j].bytePos);
  }

  // ---------- bytes of a message ----------

  /** A number stands in the message where its field is placed. */
  lemma {:induction false} NumberInMessage(t: seq<Field>, fs: seq<Field>, j: nat)
    requires ByteTable(t) && Sendable(t, fs) && j < |t| && FinalLen(fs, j) <= 4
    ensures ReadBytes(Message(fs), fs[j].bytePos + Pending(fs, 0, j), FinalLen(fs, j)) == fs[j].data
  {
    hide *;
    var ps := ParseFrom(t, 0, Message(fs));
    AllReadable(t, fs);
    FreshIsAsNew(t);
    WholeMessage(t, fs, t);
    ParseReadsOff(t, 0, Message(fs));
    assert |ps| == |fs| == |t| by { SameLength(t, fs, ps); }
    NumberReadOff(fs, t[j], ps, Message(fs), j);
  }

  lemma {:induction false} SameLength(t: seq<Field>, fs: seq<Field>, ps: seq<Field>)
    requires Sendable(t, fs) && Delivered(fs, ps)
    ensures |ps| == |fs| == |t|
  {
  }

  lemma {:induction false} AllReadable(t: seq<Field>, fs: seq<Field>)
    requires ByteTable(t) && Sendable(t, fs)
    ensures |fs| == |t| && forall k :: 0 <= k < |t| ==> Readable(t[k]) && fs[k].lenUnit == 8
  {
    forall k | 0 <= k < |t| ensures Readable(t[k]) && fs[k].lenUnit == 8 { assert ByteRow(t, k); }
  }

  lemma {:induction false} NumberReadOff(fs: seq<Field>, before: Field, ps: seq<Field>, message: seq<uint8>, j: nat)
    requires j < |fs| == |ps| && Delivered(fs, ps) && Placed(fs, ps) && ReadOff(before, ps[j], message)
    requires fs[j].lenUnit == 8 && FinalLen(fs, j) <= 4
    ensures ReadBytes(message, fs[j].bytePos + Pending(fs, 0, j), FinalLen(fs, j)) == fs[j].data
  {
    hide Pending, FinalLen, ReadBytes;
    assert ValueOf(ps[j]) == Sent(fs, j);
    ReadBytesFits(message, ps[j].bytePos, ps[j].len);
  }

  lemma {:induction false} OneByte(dp: seq<uint8>, p: nat)
    requires p < |dp|
    ensures ReadBytes(dp, p, 1) == dp[p]
  {
    ReadByte(dp, p);
  }

  lemma {:induction false} TwoBytes(dp: seq<uint8>)
    requires |dp| >= 2
    ensures var hi: int, lo: int := dp[0], dp[1]; ReadBytes(dp, 0, 2) == 0x100 * hi + lo
  {
    ReadByte(dp, 0);
    ReadByte(dp, 1);
    SecondByte(dp, 8);
  }

  lemma {:induction false} SecondByte(dp: seq<uint8>, n: nat)
    requires n <= 8
    ensures ReadStream(dp, 0, 8 + n) == ReadStream(dp, 0, 8) * Bits.Pow2(n) + ReadStream(dp, 8, n)
    decreases n
  {
    if n > 0 {
      SecondByte(dp, n - 1);
      var x, p, y := ReadStream(dp, 0, 8), Bits.Pow2(n - 1), ReadStream(dp, 8, n - 1);
      Doubled(x, p, y);
      hide StreamBit;
    }
  }

  lemma {:induction false} Doubled(x: nat, p: nat, y: nat)
    ensures 2 * (x * p + y) == x * (2 * p) + 2 * y
  {
  }

  // ---------- records in a container ----------

  /** The part of a message that travels in a container: everything behind the two identifier bytes. */
  function Record(fs: seq<Field>): (r: seq<uint8>)
    ensures 2 <= MessageLen(fs) <= |Message(fs)| ==> |r| == MessageLen(fs) - 2
  {
    if 2 <= MessageLen(fs) <= |Message(fs)| then Message(fs)[2..MessageLen(fs)] else []
  }

  function Concat(all: seq<seq<Field>>): seq<uint8> {
    if all == [] then [] else Record(all[0]) + Concat(all[1..])
  }

  /** The record of fs stands at offset os. */
  predicate RecordAt(data: seq<uint8>, os: nat, fs: seq<Field>) {
    os + |Record(fs)| <= |data| && data[os..os + |Record(fs)|] == Record(fs)
  }

  /** Values for a table that begins with the two-byte identifier 0x30, id. */
  ghost predicate Tagged(t: seq<Field>, fs: seq<Field>, id: uint8) {
    && Sendable(t, fs) && t != [] && !t[0].vlenFlag && t[0].bytePos == 0 && t[0].len == 2
    && fs[0].data == 0x3000 + id && 2 <= MessageLen(fs)
  }

  lemma {:induction false} TagBytes(t: seq<Field>, fs: seq<Field>, id: uint8)
    requires ByteTable(t) && Tagged(t, fs, id)
    ensures |Message(fs)| == MAX_PROTO_DATA_LEN && Message(fs)[0] == 0x30 && Message(fs)[1] == id
    ensures |Record(fs)| == MessageLen(fs) - 2
  {
    TagField(t, fs, id);
    FreshIsAsNew(t);
    hide *;
    WholeMessage(t, fs, t);
    NumberInMessage(t, fs, 0);
    TwoBytes(Message(fs));
    RecordLength(fs);
    SplitBytes(Message(fs)[0], Message(fs)[1], id);
  }

  lemma {:induction false} TagField(t: seq<Field>, fs: seq<Field>, id: uint8)
    requires Tagged(t, fs, id)
    ensures Sendable(t, fs) && |fs| == |t| > 0 && fs[0].data == 0x3000 + id
    ensures FinalLen(fs, 0) == 2 && fs[0].bytePos == 0 && Pending(fs, 0, 0) == 0
    ensures 2 <= MessageLen(fs) <= MAX_PROTO_DATA_LEN
  {
    hide ValuesFit, MessageLen;
  }

  lemma {:induction false} RecordLength(fs: seq<Field>)
    requires 2 <= MessageLen(fs) <= MAX_PROTO_DATA_LEN == |Message(fs)|
    ensures |Record(fs)| == MessageLen(fs) - 2
  {
  }

  lemma {:induction false} SplitBytes(hi: int, lo: int, id: int)
    requires 0 <= hi < 0x100 && 0 <= lo < 0x100 && 0 <= id < 0x100 && 0x100 * hi + lo == 0x3000 + id
    ensures hi == 0x30 && lo == id
  {
  }

  /** Copied behind the identifier, the record restores the message as far as it goes. */
  lemma {:induction false} LoadedStartsWith(buf: seq<uint8>, id: uint8, data: seq<uint8>, os: nat, fs: seq<Field>)
    requires 2 <= MessageLen(fs) <= |Message(fs)| && MessageLen(fs) <= |buf| && RecordAt(data, os, fs)
    requires Message(fs)[0] == 0x30 && Message(fs)[1] == id
    ensures StartsWith(Loaded(buf, id, data, os, |Record(fs)|), fs)
  {
    hide MessageLen, Message;
    var dq := Loaded(buf, id, data, os, |Record(fs)|);
    forall k | 0 <= k < MessageLen(fs) ensures dq[k] == Message(fs)[k] {
      if k >= 2 { assert data[os..os + |Record(fs)|][k - 2] == Record(fs)[k - 2]; }
    }
    assert dq[..MessageLen(fs)] == Message(fs)[..MessageLen(fs)];
  }

  lemma {:induction false} FirstRecordAt(pre: seq<uint8>, all: seq<seq<Field>>)
    requires all != []
    ensures RecordAt(pre + Concat(all), |pre|, all[0])
    ensures pre + Concat(all) == (pre + Record(all[0])) + Concat(all[1..])
  {
    hide Record;
  }
}
