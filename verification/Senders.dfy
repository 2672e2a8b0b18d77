/** The repository's own senders, from pa_set_value to the bytes of the message: the ackd message of the PDU test, which
    is parsed again by the analyzer that generated it, and the 0x3054 message of the driver's test. */
module Senders {
  import opened CTypes
  import opened Bits
  import opened BitStream
  import opened BitFields
  import opened Format
  import opened RoundTrip
  import opened Messages
  import opened NameIndex
  import opened ProtocolAnalyzer
  import opened Tables
  import FieldIO
  import HashMap

  lemma {:induction false} FilledNames(t: seq<Field>, fs: seq<Field>, key: string)
    requires Filled(t, fs)
    ensures |fs| == |t| && Lookup(fs, key) == Lookup(t, key)
  {
    LookupByNames(t, fs, |t|, PadKey(key));
  }

  /** Set the number of field j of a table. */
  method SetNumber(pa: Analyzer, key: string, value: uint32, ghost t: seq<Field>, ghost j: nat)
    requires pa.Valid() && Filled(t, pa.View()) && |key| < KEY_SIZE && Lookup(t, key) == Some(j)
    modifies pa.fields
    ensures pa.Valid() && Filled(t, pa.View()) && j < |t| == |pa.View()| == |old(pa.View())|
    ensures pa.View() == old(pa.View())[j := old(pa.View())[j].(data := value)]
  {
    hide Analyzer.Valid, Lookup;
    FilledNames(t, pa.View(), key);
    pa.SetValue(key, value);
  }

  // ---------- a table of bit fields ----------

  lemma {:induction false} BitTableGenerates(fs: seq<Field>, i: nat, dp: seq<uint8>, size: nat)
    requires BitTable(fs) && i <= |fs| && forall j :: 0 <= j < |fs| ==> InBuffer(fs[j], size)
    ensures GenSafe(fs, i, size) && GenFrom(fs, i, dp).0 == fs
    decreases |fs| - i
  {
    hide WriteField, InBuffer;
    if i < |fs| { BitTableGenerates(fs, i + 1, WriteField(dp, fs[i]), size); }
  }

  lemma {:induction false} BitTableParses(fs: seq<Field>, i: nat, dp: seq<uint8>)
    requires BitTable(fs) && i <= |fs| && forall j :: 0 <= j < |fs| ==> InBuffer(fs[j], |dp|)
    ensures ParseSafe(fs, i, dp)
    ensures forall j :: 0 <= j < |fs| ==> ParseFrom(fs, i, dp)[j] == if j < i then fs[j] else ReadField(fs[j], dp)
    decreases |fs| - i
  {
    if i < |fs| {
      assert fs[i].lenUnit == 1 && !fs[i].vlenFlag && fs[i].bitPos <= 7;
      BitFieldRead(fs[i], dp);
      hide ReadField, InBuffer;
      assert Resolve(fs, i) == fs;
      var next := fs[i := ReadField(fs[i], dp)];
      assert InBuffer(next[i], |dp|) by { SameSlotInBuffer(fs[i], next[i], |dp|); }
      BitTableParses(next, i + 1, dp);
    }
  }

  lemma {:induction false} SameSlotInBuffer(f: Field, g: Field, size: nat)
    requires InBuffer(f, size) && SameSlot(f, g)
    ensures InBuffer(g, size)
  {
  }

  lemma {:induction false} BitFieldRead(f: Field, dp: seq<uint8>)
    requires f.lenUnit == 1 && f.bitPos <= 7
    ensures ReadField(f, dp) == f.(data := FieldIO.ReadBits(dp, f.bytePos, f.bitPos, f.len))
    ensures SameSlot(f, ReadField(f, dp))
  {
    hide FieldIO.ReadBits;
  }

  /** A value that begins at bit 7 is written modulo 2^len, so bits that do not fit are harmless there. */
  lemma {:induction false} ExcessBitsDropped(dp: seq<uint8>, bytePos: nat, len: nat, v: nat)
    ensures FieldIO.WriteBits(dp, bytePos, 7, len, v) == FieldIO.WriteBits(dp, bytePos, 7, len, v % Pow2(len))
  {
    var a, b := FieldIO.WriteBits(dp, bytePos, 7, len, v), FieldIO.WriteBits(dp, bytePos, 7, len, v % Pow2(len));
    var start := FieldIO.FieldStart(bytePos, 7);
    WriteBitsLength(dp, bytePos, 7, len, v);
    WriteBitsLength(dp, bytePos, 7, len, v % Pow2(len));
    hide FieldIO.WriteBits, Bit, Pow2, StreamBit;
    forall s: nat ensures StreamBit(a, s) <==> StreamBit(b, s) {
      WriteBitsBit(dp, bytePos, 7, len, v, s);
      WriteBitsBit(dp, bytePos, 7, len, v % Pow2(len), s);
      if start <= s < start + len { BitTruncate(v, len, start + len - 1 - s); }
    }
    SameStreamSameBuffer(a, b);
  }

  /** Every value cut to the width of its field. */
  function Cut(fs: seq<Field>): (r: seq<Field>)
    ensures |r| == |fs| && forall j :: 0 <= j < |fs| ==> r[j] == fs[j].(data := r[j].data)
    ensures forall j :: 0 <= j < |fs| ==> r[j].data == fs[j].data % Pow2(fs[j].len)
  {
    seq(|fs|, j requires 0 <= j < |fs| => CutField(fs[j]))
  }

  function CutField(f: Field): Field {
    ModuloSmaller(f.data, Pow2(f.len));
    f.(data := f.data % Pow2(f.len))
  }

  lemma {:induction false} ModuloSmaller(x: nat, p: nat)
    requires p > 0
    ensures x % p <= x
  {
  }

  /** A value beyond its width matters only in a field that does not begin at bit 7. */
  ghost predicate ExcessAtSeven(fs: seq<Field>) {
    forall j :: 0 <= j < |fs| ==> fs[j].bitPos == 7 || fs[j].data < Pow2(fs[j].len)
  }

  lemma {:induction false} SameMessageCut(fs: seq<Field>, i: nat, dp: seq<uint8>)
    requires BitTable(fs) && ExcessAtSeven(fs) && i <= |fs|
    ensures GenFrom(fs, i, dp).1 == GenFrom(Cut(fs), i, dp).1
    decreases |fs| - i
  {
    hide FieldIO.WriteBits, Pow2;
    if i < |fs| {
      var gs := Cut(fs);
      assert gs[i].lenUnit == 1 && !gs[i].vlenFlag && gs[i].bitPos <= 7;
      if fs[i].bitPos == 7 {
        ExcessBitsDropped(dp, fs[i].bytePos, fs[i].len, fs[i].data);
      } else {
        SmallModulo(fs[i].data, Pow2(fs[i].len));
      }
      assert WriteField(dp, gs[i]) == WriteField(dp, fs[i]);
      SameMessageCut(fs, i + 1, WriteField(dp, fs[i]));
    }
  }

  // ---------- the ackd message ----------

  lemma {:induction false} AckdNamed()
    ensures CNamed(TAckd()) && |TAckd()| == 9
    ensures TAckd()[0].name == "LB" && TAckd()[1].name == "PF" && TAckd()[2].name == "CSBKO"
    ensures TAckd()[3].name == "FID" && TAckd()[4].name == "RI" && TAckd()[5].name == "ARC"
    ensures TAckd()[6].name == "RSVD" && TAckd()[7].name == "TADDR" && TAckd()[8].name == "SADDR"
  {
    assert '\0' !in "LB" && '\0' !in "PF" && '\0' !in "CSBKO" && '\0' !in "FID" && '\0' !in "RI" && '\0' !in "ARC";
    assert '\0' !in "RSVD" && '\0' !in "TADDR" && '\0' !in "SADDR";
  }

  lemma {:induction false} AckdLookups()
    ensures Lookup(TAckd(), "LB") == Some(0) && Lookup(TAckd(), "PF") == Some(1) && Lookup(TAckd(), "CSBKO") == Some(2)
    ensures Lookup(TAckd(), "FID") == Some(3) && Lookup(TAckd(), "RI") == Some(4) && Lookup(TAckd(), "ARC") == Some(5)
    ensures Lookup(TAckd(), "RSVD") == Some(6) && Lookup(TAckd(), "TADDR") == Some(7)
    ensures Lookup(TAckd(), "SADDR") == Some(8)
  {
    AckdNamed();
    hide TAckd, CNamed, Lookup;
    assert '\0' !in "LB" && '\0' !in "PF" && '\0' !in "CSBKO" && '\0' !in "FID" && '\0' !in "RI" && '\0' !in "ARC";
    assert '\0' !in "RSVD" && '\0' !in "TADDR" && '\0' !in "SADDR";
    NamedLookup(TAckd(), 0, "LB");
    NamedLookup(TAckd(), 1, "PF");
    NamedLookup(TAckd(), 2, "CSBKO");
    NamedLookup(TAckd(), 3, "FID");
    NamedLookup(TAckd(), 4, "RI");
    NamedLookup(TAckd(), 5, "ARC");
    NamedLookup(TAckd(), 6, "RSVD");
    NamedLookup(TAckd(), 7, "TADDR");
    NamedLookup(TAckd(), 8, "SADDR");
  }

  lemma {:induction false} AckdInBuffer(fs: seq<Field>)
    requires Filled(TAckd(), fs)
    ensures |fs| == 9 && BitTable(fs) && forall j :: 0 <= j < 9 ==> InBuffer(fs[j], 100)
    ensures fs[8].bytePos == 7 && fs[8].len == 24
  {
  }

  /** Whatever values the nine fields hold, generate is safe and reports 7 + 24 as the length, and the parse of any
      buffer is safe. */
  lemma {:induction false} AckdLength(fs: seq<Field>, dp: seq<uint8>)
    requires Filled(TAckd(), fs) && |dp| == 100
    ensures GenSafe(fs, 0, |dp|) && ParseSafe(fs, 0, dp) && GenFrom(fs, 0, dp).0 == fs
    ensures |fs| == 9 && (fs[8].bytePos + fs[8].len) % 0x1_0000 == 31
  {
    AckdInBuffer(fs);
    hide TAckd, GenSafe, GenFrom, ParseSafe, InBuffer, BitTable;
    BitTableGenerates(fs, 0, dp, 100);
    BitTableParses(fs, 0, dp);
  }

  /** Field j of an ackd message read back: its value modulo 2^len, plus 2^len when the value above sets its last
      bit. */
  lemma {:induction false} AckdReadBack(fs: seq<Field>, j: nat)
    requires Filled(TAckd(), fs) && ExcessAtSeven(fs) && j < 9
    ensures |fs| == 9 && Pow2(fs[j].len) > 0
    ensures ParseFrom(fs, 0, GenFrom(fs, 0, Zeros(100)).1)[j]
         == fs[j].(data := WithSurplus(fs[j].data % Pow2(fs[j].len), fs[j].len, AckdAbove(Cut(fs), j)))
  {
    var message := GenFrom(fs, 0, Zeros(100)).1;
    AckdInBuffer(fs);
    assert Filled(TAckd(), Cut(fs));
    hide *;
    BufferLength();
    assert |message| == 100 by { BitTableMessage(fs, 0, Zeros(100)); assert |Zeros(100)| == 100; }
    BitTableParses(fs, 0, message);
    assert fs[j].lenUnit == 1 && fs[j].bitPos <= 7 by { BitRows(fs, j); }
    BitFieldRead(fs[j], message);
    SameMessageCut(fs, 0, Zeros(100));
    forall k | 0 <= k < 9 ensures Cut(fs)[k].data < Pow2(Cut(fs)[k].len) {}
    AckdRoundTrip(Cut(fs), j);
  }

  lemma {:induction false} BitRows(fs: seq<Field>, j: nat)
    requires BitTable(fs) && j < |fs|
    ensures fs[j].lenUnit == 1 && fs[j].bitPos <= 7
  {
  }

  lemma {:induction false} BufferLength()
    ensures MAX_PROTO_DATA_LEN == 100
  {
  }

  lemma {:induction false} BitTableMessage(fs: seq<Field>, i: nat, dp: seq<uint8>)
    requires BitTable(fs) && i <= |fs|
    ensures |GenFrom(fs, i, dp).1| == |dp|
    decreases |fs| - i
  {
    if i < |fs| {
      WriteBitsLength(dp, fs[i].bytePos, fs[i].bitPos, fs[i].len, fs[i].data);
      hide FieldIO.WriteBits;
      BitTableMessage(fs, i + 1, WriteField(dp, fs[i]));
    }
  }

  /** All nine in numbers. */
  lemma {:induction false} AckdNumbers(fs: seq<Field>)
    requires Filled(TAckd(), fs) && |fs| == 9
    requires fs[1].data < 2 && fs[2].data < 0x40 && fs[5].data < 0x100 && fs[6].data < 2
    ensures var ps := ParseFrom(fs, 0, GenFrom(fs, 0, Zeros(100)).1);
            && ps[0].data == fs[0].data % 2
            && ps[1].data == fs[1].data + (if fs[0].data % 2 == 1 then 2 else 0)
            && ps[2].data == fs[2].data + (if fs[1].data % 2 == 1 then 0x40 else 0)
            && ps[3].data == fs[3].data % 0x100
            && ps[4].data == fs[4].data % 0x80
            && ps[5].data == fs[5].data + (if fs[4].data % 2 == 1 then 0x100 else 0)
            && ps[6].data == fs[6].data + (if fs[5].data % 2 == 1 then 2 else 0)
            && ps[7].data == fs[7].data % 0x100_0000
            && ps[8].data == fs[8].data % 0x100_0000
            && forall j :: 0 <= j < 9 ==> ps[j] == fs[j].(data := ps[j].data)
  {
    AckdExcess(fs);
    AckdAboveCut(fs);
    AckdLens(fs);
    AckdPowers();
    var ps := ParseFrom(fs, 0, GenFrom(fs, 0, Zeros(100)).1);
    hide TAckd, ParseFrom, GenFrom, Filled, Pow2, WithSurplus, ExcessAtSeven, AckdAbove, Cut;
    forall j | 0 <= j < 9
      ensures Pow2(fs[j].len) > 0
      ensures ps[j] == fs[j].(data := WithSurplus(fs[j].data % Pow2(fs[j].len), fs[j].len, AckdAbove(Cut(fs), j)))
    {
      AckdReadBack(fs, j);
    }
    WithBitAbove(fs[0].data, 1, 2, false);
    WithBitAbove(fs[1].data, 1, 2, fs[0].data % 2 == 1);
    WithBitAbove(fs[2].data, 6, 0x40, fs[1].data % 2 == 1);
    WithBitAbove(fs[3].data, 8, 0x100, false);
    WithBitAbove(fs[4].data, 7, 0x80, false);
    WithBitAbove(fs[5].data, 8, 0x100, fs[4].data % 2 == 1);
    WithBitAbove(fs[6].data, 1, 2, fs[5].data % 2 == 1);
    WithBitAbove(fs[7].data, 24, 0x100_0000, false);
    WithBitAbove(fs[8].data, 24, 0x100_0000, false);
  }

  lemma {:induction false} WithBitAbove(x: nat, len: nat, p: nat, above: bool)
    requires 0 < p == Pow2(len) <= 0x100_0000
    ensures Pow2(len) > 0 && WithSurplus(x % Pow2(len), len, above) == x % p + if above then p else 0
    ensures x < p ==> x % p == x
  {
    hide Pow2;
    if x < p { SmallModulo(x, p); }
  }

  lemma {:induction false} AckdLens(fs: seq<Field>)
    requires Filled(TAckd(), fs) && |fs| == 9
    ensures fs[0].len == 1 && fs[1].len == 1 && fs[2].len == 6 && fs[3].len == 8 && fs[4].len == 7
    ensures fs[5].len == 8 && fs[6].len == 1 && fs[7].len == 24 && fs[8].len == 24
    ensures forall j :: 0 <= j < 9 && j != 1 && j != 2 && j != 5 && j != 6 ==> fs[j].bitPos == 7
  {
  }

  lemma {:induction false} AckdPowers()
    ensures Pow2(1) == 2 && Pow2(6) == 0x40 && Pow2(7) == 0x80 && Pow2(8) == 0x100 && Pow2(24) == 0x100_0000
  {
    FieldIO.Pow2Literals();
    FieldIO.Pow2Byte();
    assert Pow2(1) == 2;
    assert Pow2(4) == 0x10;
    assert Pow2(6) == 0x40;
    assert Pow2(7) == 0x80;
  }

  lemma {:induction false} AckdExcess(fs: seq<Field>)
    requires Filled(TAckd(), fs) && |fs| == 9
    requires fs[1].data < 2 && fs[2].data < 0x40 && fs[5].data < 0x100 && fs[6].data < 2
    ensures ExcessAtSeven(fs)
  {
    hide TAckd, Filled, Pow2;
    AckdLens(fs);
    AckdPowers();
  }

  /** Cutting a value to one bit or more keeps its last bit. */
  lemma {:induction false} AckdAboveCut(fs: seq<Field>)
    requires Filled(TAckd(), fs) && |fs| == 9
    ensures !AckdAbove(Cut(fs), 0) && !AckdAbove(Cut(fs), 3) && !AckdAbove(Cut(fs), 4)
    ensures !AckdAbove(Cut(fs), 7) && !AckdAbove(Cut(fs), 8)
    ensures AckdAbove(Cut(fs), 1) <==> fs[0].data % 2 == 1
    ensures AckdAbove(Cut(fs), 2) <==> fs[1].data % 2 == 1
    ensures AckdAbove(Cut(fs), 5) <==> fs[4].data % 2 == 1
    ensures AckdAbove(Cut(fs), 6) <==> fs[5].data % 2 == 1
  {
    hide TAckd, Filled, Pow2, Cut;
    AckdLens(fs);
    AckdPowers();
    LastBitKept(fs[0].data, 2);
    LastBitKept(fs[1].data, 2);
    LastBitKept(fs[4].data, 0x80);
    LastBitKept(fs[5].data, 0x100);
  }

  lemma {:induction false} LastBitKept(x: nat, p: nat)
    requires p == 2 || p == 0x80 || p == 0x100
    ensures x % p % 2 == x % 2
  {
  }

  /** test_pdu_proto_analyzer: a new analyzer of the ackd table, nine values, generate, parse. The parse runs, because
      the length generate reports is 31, and leaves each field with its value, plus 2^len when the value above sets its
      last bit. Values too wide for a field that begins at bit 7, as the test's own TADDR, are cut. */
  method SetGenerateParse(template: seq<ProtoInfo>, v: seq<uint32>)
    returns (pa: Analyzer, generated: int, parsed: int)
    requires Views(template) == TAckd() && |v| == 9
    ensures pa.Valid() && fresh(pa) && generated == 0 && parsed == 0 && pa.protocolDataLen == 31
    ensures |pa.View()| == 9
    ensures v[1] < 2 && v[2] < 0x40 && v[5] < 0x100 && v[6] < 2 ==>
              && pa.View()[0].data == v[0] % 2
              && pa.View()[1].data == v[1] + (if v[0] % 2 == 1 then 2 else 0)
              && pa.View()[2].data == v[2] + (if v[1] % 2 == 1 then 0x40 else 0)
              && pa.View()[3].data == v[3] % 0x100
              && pa.View()[4].data == v[4] % 0x80
              && pa.View()[5].data == v[5] + (if v[4] % 2 == 1 then 0x100 else 0)
              && pa.View()[6].data == v[6] + (if v[5] % 2 == 1 then 2 else 0)
              && pa.View()[7].data == v[7] % 0x100_0000
              && pa.View()[8].data == v[8] % 0x100_0000
  {
    hide *;
    BufferLength();
    pa := new Analyzer(template);
    AckdLookups();
    TableIsFilled(TAckd());
    assert pa.protocolData[..] == Zeros(100);
    SetNine(pa, v);
    ghost var fs := pa.View();
    AckdLength(fs, pa.protocolData[..]);
    FieldCount(pa);
    generated := pa.Generate();
    FieldCount(pa);
    AckdLength(fs, pa.protocolData[..]);
    parsed := pa.Parse();
    if v[1] < 2 && v[2] < 0x40 && v[5] < 0x100 && v[6] < 2 { AckdNumbers(fs); }
  }

  lemma {:induction false} ValidBuffer(pa: Analyzer)
    requires pa.Valid()
    ensures pa.protocolData.Length == 100
  {
    hide Indexed, HashMap.Map.Valid;
  }

  lemma {:induction false} FieldCount(pa: Analyzer)
    ensures |pa.View()| == |pa.fields|
  {
  }

  lemma {:induction false} TableIsFilled(t: seq<Field>)
    ensures Filled(t, t)
  {
  }

  /** The first j values are set. */
  ghost predicate SetUpTo(fs: seq<Field>, v: seq<uint32>, j: nat) {
    Filled(TAckd(), fs) && |fs| == 9 == |v| && forall i :: 0 <= i < 9 && i < j ==> fs[i].data == v[i]
  }

  lemma {:induction false} SetOneMore(fs: seq<Field>, gs: seq<Field>, v: seq<uint32>, j: nat)
    requires SetUpTo(fs, v, j) && j < 9 && gs == fs[j := fs[j].(data := v[j])]
    ensures SetUpTo(gs, v, j + 1)
  {
  }

  /** The j-th pa_set_value call. */
  method SetNext(pa: Analyzer, key: string, v: seq<uint32>, j: nat)
    requires pa.Valid() && SetUpTo(pa.View(), v, j) && j < 9 == |v| && |key| < KEY_SIZE
    requires Lookup(TAckd(), key) == Some(j)
    modifies pa.fields
    ensures pa.Valid() && SetUpTo(pa.View(), v, j + 1)
  {
    hide Analyzer.Valid, TAckd, Filled, Lookup;
    ghost var fs := pa.View();
    SetNumber(pa, key, v[j], TAckd(), j);
    SetOneMore(fs, pa.View(), v, j);
  }

  /** The nine pa_set_value calls of the test. */
  method SetNine(pa: Analyzer, v: seq<uint32>)
    requires pa.Valid() && Filled(TAckd(), pa.View()) && |v| == 9
    modifies pa.fields
    ensures pa.Valid() && Filled(TAckd(), pa.View()) && |pa.View()| == 9
    ensures forall j :: 0 <= j < 9 ==> pa.View()[j].data == v[j]
  {
    hide Analyzer.Valid, TAckd, Filled, Lookup, SetUpTo;
    AckdLookups();
    NothingSet(pa.View(), v);
    SetNext(pa, "LB", v, 0);
    SetNext(pa, "PF", v, 1);
    SetNext(pa, "CSBKO", v, 2);
    SetNext(pa, "FID", v, 3);
    SetNext(pa, "RI", v, 4);
    SetNext(pa, "ARC", v, 5);
    SetNext(pa, "RSVD", v, 6);
    SetNext(pa, "TADDR", v, 7);
    SetNext(pa, "SADDR", v, 8);
    AllSet(pa.View(), v);
  }

  lemma {:induction false} NothingSet(fs: seq<Field>, v: seq<uint32>)
    requires Filled(TAckd(), fs) && |v| == 9
    ensures SetUpTo(fs, v, 0)
  {
  }

  lemma {:induction false} AllSet(fs: seq<Field>, v: seq<uint32>)
    requires SetUpTo(fs, v, 9)
    ensures Filled(TAckd(), fs) && |fs| == 9 == |v| && forall j :: 0 <= j < 9 ==> fs[j].data == v[j]
  {
  }

  // ---------- the 0x3054 message ----------

  lemma {:induction false} Lookups3054()
    ensures |T3054()| == 5
    ensures Lookup(T3054(), PROTO_NUM) == Some(0) && Lookup(T3054(), NO_NAME1) == Some(1)
    ensures Lookup(T3054(), ST_INFO) == Some(2) && Lookup(T3054(), DC_INFO) == Some(3)
    ensures Lookup(T3054(), DC_DATA) == Some(4)
  {
    NamesAreCStrings();
    Table3054IsByteTable();
    assert |T3054()| == 5 && T3054()[0].name == PROTO_NUM && T3054()[1].name == NO_NAME1;
    assert T3054()[2].name == ST_INFO && T3054()[3].name == DC_INFO && T3054()[4].name == DC_DATA;
    assert CNamed(T3054());
    hide T3054, CNamed, Lookup;
    NamedLookup(T3054(), 0, PROTO_NUM);
    NamedLookup(T3054(), 1, NO_NAME1);
    NamedLookup(T3054(), 2, ST_INFO);
    NamedLookup(T3054(), 3, DC_INFO);
    NamedLookup(T3054(), 4, DC_DATA);
  }

  /** The fields of a 0x3054 analyzer that has sent any number of messages, none of them reset: after the first one the
      data field is no longer variable and keeps that message's length. */
  ghost predicate Ready(fs: seq<Field>) {
    && |fs| == 5 && |T3054()| == 5
    && (forall j :: 0 <= j < 4 ==> fs[j] == T3054()[j].(data := fs[j].data))
    && fs[4] == T3054()[4].(buf := fs[4].buf, bufLen := fs[4].bufLen, len := fs[4].len, vlenFlag := fs[4].vlenFlag)
    && (fs[4].buf.Some? ==> fs[4].bufLen <= |fs[4].buf.value|)
    && (!fs[4].vlenFlag ==> fs[4].buf.Some? && fs[4].len <= fs[4].bufLen && fs[4].len <= 95)
  }

  /** Bytes of data the next message will have: the number dc_info while the field is variable, the old length after. */
  function NextLen(fs: seq<Field>, dcInfo: uint8): nat
    requires |fs| == 5
  {
    if fs[4].vlenFlag then dcInfo else fs[4].len
  }

  /** What __pdt_drv_proto_init_3054 puts into the fields. */
  ghost predicate Prepared(was: seq<Field>, fs: seq<Field>, noName1: uint8, stInfo: uint8, dcInfo: uint8,
                           dcData: seq<uint8>)
  {
    && Ready(was) && Ready(fs) && dcInfo <= |dcData|
    && fs[0].data == 0x3054 && fs[1].data == noName1 && fs[2].data == stInfo && fs[3].data == dcInfo
    && fs[4] == was[4].(buf := fs[4].buf, bufLen := fs[4].bufLen)
    && fs[4].buf.Some? && dcInfo <= fs[4].bufLen <= |fs[4].buf.value|
    && fs[4].buf.value[..dcInfo] == dcData[..dcInfo]
  }

  /** A new analyzer is ready, its data field variable: its first message has the length asked for. */
  lemma {:induction false} NewIsReady()
    ensures Ready(T3054()) && T3054()[4].vlenFlag && forall n: uint8 :: NextLen(T3054(), n) == n
  {
  }

  lemma {:induction false} ReadyNames(fs: seq<Field>, key: string)
    requires Ready(fs)
    ensures Lookup(fs, key) == Lookup(T3054(), key)
  {
    hide T3054;
    LookupByNames(T3054(), fs, 5, PadKey(key));
  }

  method SetReady(pa: Analyzer, key: string, value: uint32, ghost j: nat)
    requires pa.Valid() && Ready(pa.View()) && |key| < KEY_SIZE && Lookup(T3054(), key) == Some(j) && j < 4
    modifies pa.fields
    ensures pa.Valid() && Ready(pa.View()) && |old(pa.View())| == 5
    ensures pa.View() == old(pa.View())[j := old(pa.View())[j].(data := value)]
  {
    hide Analyzer.Valid, Lookup, T3054;
    ReadyNames(pa.View(), key);
    pa.SetValue(key, value);
  }

  /** Its pa_set_variable_length_value call. */
  method SetLength(pa: Analyzer, dcInfo: uint8)
    requires pa.Valid() && Ready(pa.View())
    modifies pa.fields
    ensures pa.Valid() && Ready(pa.View()) && |old(pa.View())| == 5
    ensures pa.View() == old(pa.View())[3 := old(pa.View())[3].(data := dcInfo)]
  {
    hide Analyzer.Valid, Lookup, T3054;
    Lookups3054();
    NamesAreShort();
    ReadyNames(pa.View(), DC_INFO);
    var ret := pa.SetVariableLengthValue(DC_INFO, dcInfo);
  }

  /** Its pa_set_buf call. */
  method SetData(pa: Analyzer, bytes: seq<uint8>)
    requires pa.Valid() && Ready(pa.View()) && |bytes| < 0x100
    modifies pa.fields
    ensures pa.Valid() && Ready(pa.View()) && |old(pa.View())| == 5
    ensures var f, was := pa.View()[4], old(pa.View())[4];
            && pa.View() == old(pa.View())[4 := f] && f == was.(buf := f.buf, bufLen := f.bufLen)
            && f.buf.Some? && |bytes| <= f.bufLen <= |f.buf.value| && f.buf.value[..|bytes|] == bytes
  {
    hide Analyzer.Valid, Lookup, T3054, WithBuf;
    Lookups3054();
    NamesAreShort();
    ReadyNames(pa.View(), DC_DATA);
    ghost var fs := pa.View();
    pa.SetBuf(DC_DATA, bytes);
    ReadyWithBuf(fs, bytes);
  }

  lemma {:induction false} ReadyWithBuf(fs: seq<Field>, bytes: seq<uint8>)
    requires Ready(fs) && |bytes| < 0x100
    ensures var f := WithBuf(fs[4], bytes); Ready(fs[4 := f]) && |bytes| <= f.bufLen <= |f.buf.value|
  {
    hide T3054;
  }

  /** Its pa_set_value calls. */
  method SetHeader(pa: Analyzer, noName1: uint8, stInfo: uint8)
    requires pa.Valid() && Ready(pa.View())
    modifies pa.fields
    ensures pa.Valid() && Ready(pa.View()) && |old(pa.View())| == 5
    ensures var was := old(pa.View());
            pa.View() == was[0 := was[0].(data := 0x3054)][1 := was[1].(data := noName1)][2 := was[2].(data := stInfo)]
  {
    hide Analyzer.Valid, Lookup, T3054, Ready, Analyzer.View;
    Lookups3054();
    NamesAreShort();
    SetReady(pa, PROTO_NUM, 0x3054, 0);
    SetReady(pa, NO_NAME1, noName1, 1);
    SetReady(pa, ST_INFO, stInfo, 2);
  }

  /** __pdt_drv_proto_init_3054: three numbers, the length and the buffer. */
  method Init3054(pa: Analyzer, noName1: uint8, stInfo: uint8, dcInfo: uint8, dcData: seq<uint8>)
    requires pa.Valid() && Ready(pa.View()) && dcInfo <= |dcData|
    modifies pa.fields
    ensures pa.Valid() && Prepared(old(pa.View()), pa.View(), noName1, stInfo, dcInfo, dcData)
  {
    hide Analyzer.Valid, Lookup, T3054, Ready, Prepared, Analyzer.View;
    ghost var was := pa.View();
    SetHeader(pa, noName1, stInfo);
    SetLength(pa, dcInfo);
    ghost var numbers := pa.View();
    SetData(pa, dcData[..dcInfo]);
    PreparedInSteps(was, numbers, pa.View(), noName1, stInfo, dcInfo, dcData);
  }

  lemma {:induction false} PreparedInSteps(was: seq<Field>, numbers: seq<Field>, fs: seq<Field>, noName1: uint8,
                                           stInfo: uint8, dcInfo: uint8, dcData: seq<uint8>)
    requires Ready(was) && Ready(fs) && dcInfo <= |dcData| && |was| == 5 == |numbers|
    requires numbers == was[0 := was[0].(data := 0x3054)][1 := was[1].(data := noName1)]
                           [2 := was[2].(data := stInfo)][3 := was[3].(data := dcInfo)]
    requires |fs| == 5 && fs == numbers[4 := fs[4]] && fs[4] == was[4].(buf := fs[4].buf, bufLen := fs[4].bufLen)
    requires fs[4].buf.Some? && dcInfo <= fs[4].bufLen <= |fs[4].buf.value|
    requires fs[4].buf.value[..dcInfo] == dcData[..dcInfo]
    ensures Prepared(was, fs, noName1, stInfo, dcInfo, dcData)
  {
    hide Ready;
  }

  lemma {:induction false} NamesAreShort()
    ensures |PROTO_NUM| < KEY_SIZE && |NO_NAME1| < KEY_SIZE && |ST_INFO| < KEY_SIZE && |DC_INFO| < KEY_SIZE
    ensures |DC_DATA| < KEY_SIZE
  {
  }

  lemma {:induction false} ReadyLens(fs: seq<Field>)
    requires Ready(fs)
    ensures FinalLen(fs, 0) == 2 && FinalLen(fs, 1) == FinalLen(fs, 2) == FinalLen(fs, 3) == 1
    ensures FinalLen(fs, 4) == if fs[4].vlenFlag then fs[3].data else fs[4].len
    ensures forall j :: 0 <= j <= 4 ==> Pending(fs, 0, j) == 0 && fs[j].lenUnit == 8 && fs[j].bitPos == 0
    ensures fs[0].bytePos == 0 && fs[1].bytePos == 2 && fs[2].bytePos == 3 && fs[3].bytePos == 4 && fs[4].bytePos == 5
    ensures forall j :: 0 <= j < 4 ==> !fs[j].vlenFlag && fs[j].len == FinalLen(fs, j)
    ensures fs[4].vlenIndex == DC_INFO && Lookup(fs, DC_INFO) == Some(3)
  {
    Lookups3054();
    ReadyNames(fs, DC_INFO);
    hide Lookup;
    assert Pending(fs, 0, 0) == 0 && Pending(fs, 0, 1) == 0 && Pending(fs, 0, 2) == 0 && Pending(fs, 0, 3) == 0;
    assert Pending(fs, 0, 4) == 0;
  }

  lemma {:induction false} ReadyWellFormed(fs: seq<Field>)
    requires Ready(fs) && FinalLen(fs, 4) <= 95
    requires fs[4].buf.Some? && FinalLen(fs, 4) <= |fs[4].buf.value|
    ensures WellFormed(fs, 0, 100)
  {
    hide Ready, Lookup, FinalLen, Pending, T3054;
    assert |fs| == 5 by { FiveFields(fs); }
    ReadyLens(fs);
    NamesAreShort();
    FieldIO.Pow2Byte();
    forall j | 0 <= j < 5 ensures FieldWF(fs, j) {}
    assert Ordered(fs, 0);
    assert Fits(fs, 0, 100);
  }

  lemma {:induction false} FiveFields(fs: seq<Field>)
    requires Ready(fs)
    ensures |fs| == 5
  {
  }

  /** The descriptors after generate. */
  lemma {:induction false} ReadyAfter(fs: seq<Field>, dp: seq<uint8>)
    requires Ready(fs) && WellFormed(fs, 0, |dp|) && FinalLen(fs, 4) <= 95
    requires fs[4].buf.Some? && FinalLen(fs, 4) <= fs[4].bufLen
    ensures var gs := GenFrom(fs, 0, dp).0;
            Ready(gs) && gs[4] == fs[4].(len := FinalLen(fs, 4), vlenFlag := false)
  {
    var gs := GenFrom(fs, 0, dp).0;
    ReadyLens(fs);
    hide WellFormed, GenFrom, FinalLen, Pending, T3054, Lookup, LaidOut, Ready;
    FiveFields(fs);
    GenLaysOut(fs, dp);
    forall j | 0 <= j <= 4 ensures |gs| == 5 && gs[j] == fs[j].(len := FinalLen(fs, j), vlenFlag := false) {
      StaysPut(fs, gs, j);
    }
    assert forall j :: 0 <= j < 4 ==> gs[j] == fs[j];
    ReadyDisarmed(fs, gs);
  }

  lemma {:induction false} StaysPut(fs: seq<Field>, gs: seq<Field>, j: nat)
    requires LaidOut(fs, gs, |fs|) && j < |fs| && Pending(fs, 0, j) == 0
    ensures |gs| == |fs| && FinalLen(fs, j) < 0x1_0000 && gs[j] == fs[j].(len := FinalLen(fs, j), vlenFlag := false)
  {
    hide Pending, FinalLen;
  }

  lemma {:induction false} ReadyDisarmed(fs: seq<Field>, gs: seq<Field>)
    requires Ready(fs) && |gs| == 5 && forall j :: 0 <= j < 4 ==> gs[j] == fs[j]
    requires gs[4] == fs[4].(len := gs[4].len, vlenFlag := false)
    requires gs[4].buf.Some? && gs[4].len <= gs[4].bufLen && gs[4].len <= 95
    ensures Ready(gs)
  {
    hide T3054;
  }

  /** The bytes of the message. */
  lemma {:induction false} ReadyBytes(fs: seq<Field>, dp: seq<uint8>)
    requires Ready(fs) && |dp| == 100 && WellFormed(fs, 0, 100)
    requires fs[0].data == 0x3054 && fs[1].data < 0x100 && fs[2].data < 0x100 && fs[3].data < 0x100
    ensures var m := GenFrom(fs, 0, dp).1;
            |m| == 100 && m[..5] == [0x30, 0x54, fs[1].data, fs[2].data, fs[3].data]
  {
    hide *;
    FiveFields(fs);
    ReadyLens(fs);
    var m := GenFrom(fs, 0, dp).1;
    NumberBytesInMessage(fs, dp, 0, 0);
    NumberBytesInMessage(fs, dp, 0, 1);
    NumberBytesInMessage(fs, dp, 1, 0);
    NumberBytesInMessage(fs, dp, 2, 0);
    NumberBytesInMessage(fs, dp, 3, 0);
    assert m[..5] == [m[0], m[1], m[2], m[3], m[4]];
  }

  /** Its data: the buffer when there are more than four bytes, zeros otherwise. */
  lemma {:induction false} ReadyData(fs: seq<Field>, dp: seq<uint8>)
    requires Ready(fs) && |dp| == 100 && WellFormed(fs, 0, 100)
    ensures var m, n := GenFrom(fs, 0, dp).1, FinalLen(fs, 4);
            && 5 + n <= |m| == 100
            && (n > 4 ==> fs[4].buf.Some? && n <= |fs[4].buf.value| && m[5..5 + n] == fs[4].buf.value[..n])
            && (n <= 4 ==> forall i :: 5 <= i < 5 + n ==> m[i] == 0)
  {
    assert fs[4].data == 0;
    hide *;
    FiveFields(fs);
    ReadyLens(fs);
    var n := FinalLen(fs, 4);
    if n > 4 {
      BufferInMessage(fs, dp, 4);
    } else {
      NumberBytesInMessage(fs, dp, 3, 0);
      forall i | 5 <= i < 5 + n ensures GenFrom(fs, 0, dp).1[i] == 0 { ZeroByte(fs, dp, i - 5); }
    }
  }

  lemma {:induction false} ZeroByte(fs: seq<Field>, dp: seq<uint8>, k: nat)
    requires |fs| == 5 && |dp| == 100 && WellFormed(fs, 0, 100) && k < FinalLen(fs, 4) <= 4 && Pending(fs, 0, 4) == 0
    requires fs[4].data == 0 && fs[4].bytePos == 5 && fs[4].lenUnit == 8
    ensures 5 + FinalLen(fs, 4) <= |GenFrom(fs, 0, dp).1| == 100 && GenFrom(fs, 0, dp).1[5 + k] == 0
  {
    hide *;
    NumberBytesInMessage(fs, dp, 4, k);
    assert forall q: nat :: q == 1 || q == 0x100 || q == 0x1_0000 || q == 0x100_0000 ==> 0 / q % 0x100 == 0;
  }

  /** A message of the driver's test: init and generate, on an analyzer that may have sent messages before and has not
      been reset. The header is as asked for. The data field has the length of the first message. So the message is the
      one meant if and only if that is the length meant, and the data is longer than four bytes or all zero: pa_set_buf
      fills the buffer, but generate prints the number of a field of up to four bytes, which nobody has set. */
  method Send3054(pa: Analyzer, noName1: uint8, stInfo: uint8, dcInfo: uint8, dcData: seq<uint8>)
    requires pa.Valid() && Ready(pa.View()) && dcInfo <= 95 && dcInfo <= |dcData|
    modifies pa.fields, pa.protocolData, pa`protocolDataLen
    ensures pa.Valid() && Ready(pa.View()) && |old(pa.View())| == 5 && pa.protocolData.Length == 100
    ensures var n := NextLen(old(pa.View()), dcInfo);
            && n <= 95 && !pa.View()[4].vlenFlag && pa.View()[4].len == n && pa.protocolDataLen == 5 + n
            && pa.protocolData[..5] == [0x30, 0x54, noName1, stInfo, dcInfo]
            && (4 < n <= dcInfo ==> pa.protocolData[5..5 + n] == dcData[..n])
            && (n <= 4 ==> forall i :: 5 <= i < 5 + n ==> pa.protocolData[i] == 0)
    ensures pa.protocolDataLen == 5 + dcInfo && pa.protocolData[5..5 + dcInfo] == dcData[..dcInfo]
       <==> NextLen(old(pa.View()), dcInfo) == dcInfo && (dcInfo > 4 || forall k :: 0 <= k < dcInfo ==> dcData[k] == 0)
  {
    hide *;
    ghost var was := pa.View();
    Init3054(pa, noName1, stInfo, dcInfo, dcData);
    ghost var fs, dp := pa.View(), pa.protocolData[..];
    PreparedParts(was, fs, noName1, stInfo, dcInfo, dcData);
    BufferLength();
    ValidBuffer(pa);
    ReadyWellFormed(fs);
    GenerateStaysInside(fs, 0, 100);
    FieldCount(pa);
    var ret := pa.Generate();
    FieldCount(pa);
    ReadyAfter(fs, dp);
    ReadyLens(fs);
    ReadyBytes(fs, dp);
    ReadyData(fs, dp);
    MeantIff(pa.protocolData[..], fs[4].buf.value, dcData, FinalLen(fs, 4), dcInfo);
  }

  lemma {:induction false} MeantIff(m: seq<uint8>, buf: seq<uint8>, dcData: seq<uint8>, n: nat, dcInfo: nat)
    requires n <= 95 && |m| == 100 && dcInfo <= 95 && dcInfo <= |dcData| && dcInfo <= |buf|
    requires buf[..dcInfo] == dcData[..dcInfo]
    requires n > 4 ==> n <= |buf| && m[5..5 + n] == buf[..n]
    requires n <= 4 ==> forall i :: 5 <= i < 5 + n ==> m[i] == 0
    ensures 4 < n <= dcInfo ==> m[5..5 + n] == dcData[..n]
    ensures n == dcInfo && m[5..5 + dcInfo] == dcData[..dcInfo]
       <==> n == dcInfo && (dcInfo > 4 || forall k :: 0 <= k < dcInfo ==> dcData[k] == 0)
  {
    if 4 < n <= dcInfo { assert buf[..n] == buf[..dcInfo][..n] == dcData[..dcInfo][..n] == dcData[..n]; }
    if n == dcInfo <= 4 {
      var sent := m[5..5 + n];
      forall k | 0 <= k < n ensures sent[k] == 0 { assert m[5 + k] == 0; }
      if sent == dcData[..n] {
        forall k | 0 <= k < n ensures dcData[k] == 0 { assert dcData[..n][k] == sent[k]; }
      }
    }
  }

  lemma {:induction false} PreparedParts(was: seq<Field>, fs: seq<Field>, noName1: uint8, stInfo: uint8, dcInfo: uint8,
                                         dcData: seq<uint8>)
    requires Prepared(was, fs, noName1, stInfo, dcInfo, dcData) && dcInfo <= 95
    ensures Ready(fs) && |was| == 5 == |fs| && dcInfo <= |dcData|
    ensures fs[0].data == 0x3054 && fs[1].data == noName1 && fs[2].data == stInfo && fs[3].data == dcInfo
    ensures fs[4].buf.Some? && dcInfo <= fs[4].bufLen <= |fs[4].buf.value|
    ensures fs[4].buf.value[..dcInfo] == dcData[..dcInfo]
    ensures FinalLen(fs, 4) == NextLen(was, dcInfo) <= 95 && FinalLen(fs, 4) <= fs[4].bufLen
    ensures fs[4].bytePos == 5
  {
    hide T3054, FinalLen, Lookup, Pending;
    ReadyLens(fs);
  }
}
