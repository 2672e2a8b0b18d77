/** Concrete inputs on which the code does not do what it is meant to. The conditions under which it does are stated
    where the code is modelled. */
module Witnesses {
  import opened CTypes
  import opened Bits
  import opened BitStream
  import opened BitFields
  import opened Format
  import opened RoundTrip
  import opened Messages
  import opened ProtocolAnalyzer
  import opened Tables
  import opened Business
  import opened Records
  import opened Container3010
  import opened Container301b
  import opened Drift301b
  import opened Placement301b
  import opened OnePass
  import FieldIO
  import NameIndex
  import Numerals
  import Reuse
  import LinkList
  import Senders

  /** A one-bit field at bit 6 under a set bit 7 reads as 3. */
  lemma {:induction false} ReadTakesBitAbove()
    ensures ReadStream([0xC0], 1, 1) == 1 && FieldIO.ReadBits([0xC0], 0, 6, 1) == 3
  {
    var dp: seq<uint8> := [0xC0];
    assert Bit(0xC0, 7) && Bit(0xC0, 6) by { assert Pow2(7) == 0x80 && Pow2(6) == 0x40; }
    assert StreamBit(dp, 0) && StreamBit(dp, 1);
    assert ReadStream(dp, 0, 1) == 1 && ReadStream(dp, 0, 2) == 3;
  }

  /** The value 2 in a one-bit field at bit 6 of a clear byte sets bit 7, outside the field. */
  lemma {:induction false} WriteSpills()
    ensures StreamBit(FieldIO.WriteBits([0], 0, 6, 1, 2), 0) && !StreamBit([0], 0)
  {
    WriteBitsBit([0], 0, 6, 1, 2, 0);
    assert Bit(2, 1) && !Bit(0, 7) by { BitZero(7); }
  }

  /** One lower-case digit is not read as the 10 it denotes. */
  lemma {:induction false} LowerCaseDigit()
    ensures Numerals.AnyCaseValue("a") == 10 && Numerals.Str2NumValue("0xa") == 49
  {
    assert "0xa"[2..] == "a" && "a"[..0] == "" && Numerals.AnyCaseValue("a") == 10;
    assert Numerals.DigitBits('a') == 49 && Numerals.HexFold("") == 0 && Shl(0, 4) == 0 by { Numerals.ShlFour(0); }
    assert Or(0, 49) == 49 by { OrFortyNine(); }
    hide Or, Shl;
    assert Numerals.HexFold("a") == 49;
  }

  lemma {:induction false} OrFortyNine()
    ensures Or(0, 49) == 49
  {
    assert Or(0, 0) == 0;
    hide Or;
    Numerals.OrHalf(0, 1);
    Numerals.OrHalf(0, 3);
    Numerals.OrHalf(0, 6);
    Numerals.OrHalf(0, 12);
    Numerals.OrHalf(0, 24);
    Numerals.OrHalf(0, 49);
  }

  /** Of two fields with one name the index answers the second, the scan the first. */
  lemma {:induction false} DuplicateName()
    ensures var fs := [ByteField("len", 0, 1), ByteField("len", 1, 1)];
            Lookup(fs, "len") == Some(1) && NameIndex.Scan(fs, 0, "len") == Some(0)
  {
  }

  /** One insertion and one deletion leave the end cursor on the removed element. */
  lemma {:induction false} EmptiedList()
    ensures var ops := [LinkList.Insert(0, 'x'), LinkList.Delete(0)];
            && LinkList.Runs(LinkList.State([], true), ops)
            && LinkList.Run(LinkList.State([], true), ops) == LinkList.State([], false)
  {
    var s0 := LinkList.State([], true);
    var ops := [LinkList.Insert(0, 'x'), LinkList.Delete(0)];
    var s1 := LinkList.Step(s0, ops[0]);
    assert s1 == LinkList.State(['x'], true);
    assert ops[1..] == [LinkList.Delete(0)] && ops[1..][1..] == [];
    assert LinkList.Step(s1, ops[1]) == LinkList.State([], false);
  }

  /** A 0x3050 message with n bytes of slc_data, the given sync_index and no dc_data. */
  function SlcRecord(n: uint8, sync: uint8): seq<Field>
    requires n <= 87
  {
    var t := T3050();
    t[0 := t[0].(data := 0x3050)][1 := t[1].(data := 11 + n)][6 := t[6].(data := n)]
     [7 := t[7].(buf := Some(seq(n, _ => 0)))][8 := t[8].(data := sync)]
  }

  lemma {:induction false} SlcShape(n: uint8, sync: uint8)
    requires n <= 87
    ensures Filled(T3050(), SlcRecord(n, sync))
    ensures var fs := SlcRecord(n, sync);
            && |fs| == |T3050()| == 12 && fs[11].bytePos == 13
            && fs[0].data == 0x3050 && fs[1].data == 11 + n && fs[6].data == n && fs[8].data == sync
            && (fs[7].buf.Some? && |fs[7].buf.value| == n)
            && forall j :: 0 <= j < 12 && j != 0 && j != 1 && j != 6 && j != 8 ==> fs[j].data == 0
  {
  }

  lemma {:induction false} SlcLengths(n: uint8, sync: uint8)
    requires n <= 87
    ensures var fs := SlcRecord(n, sync); |fs| == 12
    ensures var fs := SlcRecord(n, sync);
            && FinalLen(fs, 0) == 2 && FinalLen(fs, 1) == 1 && FinalLen(fs, 6) == 1 && FinalLen(fs, 7) == n
            && FinalLen(fs, 8) == 1
            && (forall j :: 0 <= j < 12 && j != 7 ==> FinalLen(fs, j) <= 4) && MessageLen(fs) == 13 + n
  {
    hide T3050, SlcRecord, MeasuredBy, Pending, ByteTable;
    var t, fs := T3050(), SlcRecord(n, sync);
    SlcShape(n, sync);
    Entries3050();
    FilledLookup(t, fs, 7, 6);
    FilledLookup(t, fs, 11, 10);
    Filled3050(fs);
    PendingOfOne(fs, 7, 11);
    forall j | 0 <= j < 12 && j != 7 ensures FinalLen(fs, j) <= 4 { ShortRow(t, fs, j); }
  }

  lemma {:induction false} ShortRow(t: seq<Field>, fs: seq<Field>, j: nat)
    requires ByteTable(t) && Filled(t, fs) && j < |t| && (t[j].vlenFlag ==> FinalLen(fs, j) <= 4)
    ensures FinalLen(fs, j) <= 4
  {
    assert ByteRow(t, j);
  }

  /** It is a proper 0x301b record. */
  lemma {:induction false} SlcIsSendable(n: uint8, sync: uint8)
    requires n <= 87
    ensures For50(SlcRecord(n, sync)) && To50(SlcRecord(n, sync)) && Slc(SlcRecord(n, sync)) == n
  {
    hide T3050, SlcRecord, FinalLen, MessageLen, Filled;
    var fs := SlcRecord(n, sync);
    SlcShape(n, sync);
    SlcLengths(n, sync);
    Entries3050();
    FieldIO.Pow2Literals();
    FieldIO.Pow2Byte();
    assert ValuesFit(fs);
  }

  /** Two records with one byte of slc_data each: sync_index of the second is looked for one byte too far and comes out
      as 0 instead of 5. */
  lemma {:induction false} SecondRecordMisread()
    ensures var all := [SlcRecord(1, 5), SlcRecord(1, 5)];
            var records := Unpack301b(Fresh50(), Fresh52(), [0, 0, 0, 0, 2] + Concat(all), 5, 2);
            && (forall fs :: fs in all ==> ForEither(fs)) && |records| > 1
            && !Placed(all[1], records[1]) && !Delivered(all[1], records[1])
  {
    hide *;
    var fs, header: seq<uint8> := SlcRecord(1, 5), [0, 0, 0, 0, 2];
    var all := [fs, fs];
    SlcIsSendable(1, 5);
    assert ForEither(fs) by { OfEither(fs); }
    FreshDrift();
    var q50, q52, first := DriftTurn(Fresh50(), Fresh52(), header, all, 0);
    assert all[1..] == [fs];
    var r50, r52, second := DriftTurn(q50, q52, header + Record(fs), [fs], 1);
    MisreadByOne(q50, q52, fs, second);
  }

  lemma {:induction false} OfEither(fs: seq<Field>)
    requires For50(fs)
    ensures ForEither(fs)
  {
    hide For50, For52;
  }

  lemma {:induction false} MisreadByOne(p50: PaState, p52: PaState, fs: seq<Field>, record: seq<Field>)
    requires fs == SlcRecord(1, 5) && At50(p50.fields, 1) && Sized(p50, p52)
    requires record == ParseFrom(p50.fields, 0, Overlay(p50.buffer, fs))
    ensures !Delivered(fs, record)
  {
    hide *;
    SlcIsSendable(1, 5);
    SlcShape(1, 5);
    SlcLengths(1, 5);
    BufferSize();
    SizedParts(p50, p52);
    Entries3050();
    SendableFor50(fs);
    var dq := Overlay(p50.buffer, fs);
    OverlayStarts(p50.buffer, fs);
    Arrival50(p50.fields, 1, fs, dq);
    var ps := Pass50(p50.fields, 1, dq);
    ShiftOfSlc(8, 2);
    Unwrapped(10, 2);
    StInfoByte(fs, dq);
    SyncReadFrom(p50.fields, dq, ps);
    ShortNumber(fs, ps, 8);
  }

  lemma {:induction false} SendableFor50(fs: seq<Field>)
    requires For50(fs)
    ensures Sendable(T3050(), fs)
  {
    hide Sendable;
  }

  /** st_info of the record stands at position 12. */
  lemma {:induction false} StInfoByte(fs: seq<Field>, dq: seq<uint8>)
    requires fs == SlcRecord(1, 5) && Sendable(T3050(), fs) && StartsWith(dq, fs)
    ensures |dq| > 12 && dq[12] == 0
  {
    hide T3050, SlcRecord, ValuesFit, MessageLen, Message, ByteTable, FieldIO.ReadBytes, MeasuredBy, FinalLen, Pending;
    SlcShape(1, 5);
    SlcLengths(1, 5);
    Entries3050();
    Filled3050(fs);
    PendingOfOne(fs, 7, 9);
    Fixed(fs, 9);
    NumberInMessage(T3050(), fs, 9);
    assert dq[..MessageLen(fs)][12] == Message(fs)[..MessageLen(fs)][12];
    OneByte(Message(fs), 12);
  }

  lemma {:induction false} Fixed(fs: seq<Field>, j: nat)
    requires Filled(T3050(), fs) && j == 9
    ensures |fs| == 12 && FinalLen(fs, j) == 1 && fs[j].bytePos == 11
  {
    hide T3050, ByteTable, MeasuredBy;
    Entries3050();
  }

  lemma {:induction false} SyncReadFrom(rs: seq<Field>, dq: seq<uint8>, ps: seq<Field>)
    requires |T3050()| == |rs| == |ps| == 12 && Solved(T3050(), rs, dq, ps, 8) && ps[8].bytePos == 12
    requires |dq| > 12 && dq[12] == 0
    ensures ps[8].lenUnit == 8 && ps[8].len == 1 && ps[8].data == 0
  {
    hide T3050, ByteTable, MeasuredBy, FieldIO.ReadBytes, Reuse.Discovered;
    Entries3050();
    OneByte(dq, 12);
  }

  lemma {:induction false} ShortNumber(fs: seq<Field>, ps: seq<Field>, j: nat)
    requires j < |fs| == |ps| && ps[j].lenUnit == 8 && ps[j].len == 1 && FinalLen(fs, j) == 1
    requires ps[j].data != fs[j].data
    ensures !Delivered(fs, ps)
  {
    hide FinalLen;
    assert ValueOf(ps[j]) == Number(ps[j].data) && Sent(fs, j) == Number(fs[j].data);
  }

  /** Two ordinary records with 50 bytes of slc_data each: the second parse leaves the 100-byte buffer. */
  lemma {:induction false} TwoFiftiesAreUnsafe()
    ensures ForEither(SlcRecord(50, 0))
    ensures !Safe301b(Fresh50(), Fresh52(), [0, 0, 0, 0, 2] + Concat([SlcRecord(50, 0), SlcRecord(50, 0)]), 5, 2)
  {
    hide *;
    var fs, header: seq<uint8> := SlcRecord(50, 0), [0, 0, 0, 0, 2];
    var all := [fs, fs];
    SlcIsSendable(50, 0);
    OfEither(fs);
    if Safe301b(Fresh50(), Fresh52(), header + Concat(all), 5, 2) {
      SafeBoundsSlc(header, all, 1);
      SlcBeforeFromFront(all, 1);
      NothingBefore(all[1..]);
    }
  }

  /** A 0x3054 message with five bytes of data, and one with one. */
  function FiveBytes(): seq<Field> {
    var t := T3054();
    t[0 := t[0].(data := 0x3054)][3 := t[3].(data := 5)][4 := t[4].(buf := Some([1, 2, 3, 4, 5]), bufLen := 5)]
  }

  function OneMore(): seq<Field> {
    var t := T3054();
    t[0 := t[0].(data := 0x3054)][3 := t[3].(data := 1)][4 := t[4].(data := 7)]
  }

  lemma {:induction false} BothSendable()
    ensures Sendable3054(FiveBytes()) && Sendable3054(OneMore())
    ensures DataBytes(FiveBytes()) == 5 && DataBytes(OneMore()) == 1
  {
    var five, one := FiveBytes(), OneMore();
    assert Filled(T3054(), five) && five[0].data == 0x3054 && five[1].data == five[2].data == 0 && five[3].data == 5;
    assert five[4].buf == Some([1, 2, 3, 4, 5]);
    assert Filled(T3054(), one) && one[0].data == 0x3054 && one[1].data == one[2].data == 0 && one[3].data == 1
      && one[4].data == 7;
    hide T3054, FiveBytes, OneMore, Filled, DataBytes, Sendable3054;
    FieldIO.Pow2Byte();
    FittingIsSendable(five);
    FittingIsSendable(one);
  }

  /** Printed behind the first, the second shows the first one's leftover byte 1 instead of its own byte 7. */
  lemma {:induction false} ShortAfterLongIsMisprinted()
    ensures var all := [FiveBytes(), OneMore()];
            var records := Unpack3010(T3054(), Zeros(MAX_PROTO_DATA_LEN), Container([0, 0, 0, 0, 0, 2], all), 6, 2);
            var printed := ShownRecords(records);
            |printed| > 1 && |printed[1]| == 5 == |OneMore()| && !LineRight(OneMore(), printed[1][4], 4)
  {
    hide *;
    BothSendable();
    var header: seq<uint8> := [0, 0, 0, 0, 0, 2];
    var all := [FiveBytes(), OneMore()];
    assert all[0] == FiveBytes() && all[1] == OneMore() && |all| == 2;
    assert forall fs :: fs in all ==> fs == FiveBytes() || fs == OneMore();
    var printed := ShownRecords(Unpack3010(T3054(), Zeros(MAX_PROTO_DATA_LEN), Container(header, all), 6, 2));
    PrintedAsSentIff(header, all, printed, 1);
    LongFirst(all);
    FirstBytesDiffer();
  }

  lemma {:induction false} LongFirst(all: seq<seq<Field>>)
    requires |all| == 2 && DataBytes(all[0]) > 4
    ensures LastLong(all, 1) == Some(SentData(all[0]))
  {
    hide DataBytes, SentData;
  }

  lemma {:induction false} FirstBytesDiffer()
    ensures SentData(FiveBytes()) == [1, 2, 3, 4, 5] && |SentData(OneMore())| == 1 && SentData(OneMore())[0] != 1
  {
    BothSendable();
    hide DataBytes, FinalLen, Sendable3054;
    assert FiveBytes()[4].buf == Some([1, 2, 3, 4, 5]) && |FiveBytes()| == 5 == |OneMore()| && OneMore()[4].data == 7;
    assert [1, 2, 3, 4, 5][..5] == [1, 2, 3, 4, 5];
    FieldIO.ByteOfBit(7, 1, 0, 1);
    assert Bit(7, 1) && !Bit(1, 1);
  }

  /** The fields __pdt_drv_proto_init_3054 leaves for the single byte 7. */
  function SevenSet(): seq<Field> {
    var t := T3054();
    t[0 := t[0].(data := 0x3054)][3 := t[3].(data := 1)][4 := t[4].(buf := Some([7]), bufLen := 1)]
  }

  /** The message generated from them has a 0 where the 7 should be. */
  lemma {:induction false} ShortDataLost()
    ensures Senders.Prepared(T3054(), SevenSet(), 0, 0, 1, [7])
    ensures var message := GenFrom(SevenSet(), 0, Zeros(100)).1; |message| == 100 && message[5] == 0
  {
    var fs := SevenSet();
    assert Senders.Ready(fs) && fs[4].vlenFlag && fs[3].data == 1 && [7][..1] == [7];
    assert Senders.Prepared(T3054(), fs, 0, 0, 1, [7]);
    hide *;
    Senders.ReadyLens(fs);
    SevenBuffer();
    Senders.ReadyWellFormed(fs);
    Senders.ReadyData(fs, Zeros(100));
  }

  lemma {:induction false} SevenBuffer()
    ensures |SevenSet()| == 5 && SevenSet()[4].buf == Some([7]) && SevenSet()[3].data == 1 && SevenSet()[4].vlenFlag
  {
  }
}
