/** What the 0x3010 loop makes of a well-formed container: exactly the records that were put in. */
module Container3010 {
  import opened CTypes
  import opened Bits
  import opened Format
  import opened RoundTrip
  import opened Messages
  import opened ParseResult
  import opened ProtocolAnalyzer
  import opened Tables
  import opened Business
  import opened Records

  /** A 0x3054 message as a sender means it. */
  ghost predicate Sendable3054(fs: seq<Field>) { Tagged(T3054(), fs, 0x54) }

  lemma {:induction false} Layout3054(fs: seq<Field>)
    requires Filled(T3054(), fs)
    ensures MessageLen(fs) == 5 + FinalLen(fs, 4) && NothingMoves(fs)
    ensures FinalLen(fs, 3) == 1 && fs[3].bytePos == 4
  {
    assert Pending(fs, 0, 0) == 0 && Pending(fs, 0, 1) == 0 && Pending(fs, 0, 2) == 0 && Pending(fs, 0, 3) == 0;
    assert Pending(fs, 0, 4) == Pending(fs, 0, 3) + Own(fs, 3) == 0;
  }

  /** Bytes of data in a record. */
  function DataBytes(fs: seq<Field>): nat { if |fs| == 5 then FinalLen(fs, 4) else 0 }

  lemma {:induction false} DataLength3054(fs: seq<Field>)
    requires Filled(T3054(), fs)
    ensures |fs| == 5 && FinalLen(fs, 0) == 2 && FinalLen(fs, 1) == FinalLen(fs, 2) == FinalLen(fs, 3) == 1
    ensures FinalLen(fs, 4) == DataBytes(fs) == fs[3].data && MessageLen(fs) == 5 + fs[3].data
  {
    Layout3054(fs);
    assert MeasuredBy(T3054(), 4, 3) && T3054()[4].vlenFlag;
    Table3054IsByteTable();
    assert |T3054()| == 5 && T3054()[0].len == 2 && !T3054()[0].vlenFlag;
    assert T3054()[1].len == 1 && !T3054()[1].vlenFlag && T3054()[2].len == 1 && !T3054()[2].vlenFlag;
    hide T3054, MeasuredBy, ByteTable, Pending, MessageLen;
    FilledLookup(T3054(), fs, 4, 3);
  }

  /** Any data of up to 95 bytes, as a number up to four and as a buffer beyond, makes a message that can be sent. */
  lemma {:induction false} FittingIsSendable(fs: seq<Field>)
    requires Filled(T3054(), fs) && fs[0].data == 0x3054 && fs[1].data < 0x100 && fs[2].data < 0x100 && fs[3].data <= 95
    requires if fs[3].data <= 4 then fs[4].data < Pow2(8 * fs[3].data)
             else fs[4].buf.Some? && fs[3].data <= |fs[4].buf.value|
    ensures Sendable3054(fs) && DataBytes(fs) == fs[3].data
  {
    DataLength3054(fs);
    assert T3054() != [] && !T3054()[0].vlenFlag && T3054()[0].bytePos == 0 && T3054()[0].len == 2;
    hide T3054, FinalLen, MessageLen, DataBytes, Filled;
    FieldIO.Pow2Literals();
    FieldIO.Pow2Byte();
  }

  /** The third byte of a record is the length of its data, so the loop computes the record's size. */
  lemma {:induction false} SizeByte3054(fs: seq<Field>)
    requires Sendable3054(fs)
    ensures |Record(fs)| >= 3 && var n: int := Record(fs)[2]; |Record(fs)| == n + 3
  {
    Table3054IsByteTable();
    Layout3054(fs);
    assert MeasuredBy(T3054(), 4, 3);
    FilledLookup(T3054(), fs, 4, 3);
    assert Pending(fs, 0, 3) == 0;
    hide *;
    assert Sendable(T3054(), fs) && |T3054()| == 5 by { TableOf(fs); }
    TagBytes(T3054(), fs, 0x54);
    NumberInMessage(T3054(), fs, 3);
    OneByte(Message(fs), 4);
    ThirdByte(fs);
  }

  lemma {:induction false} TableOf(fs: seq<Field>)
    requires Sendable3054(fs)
    ensures Sendable(T3054(), fs) && |T3054()| == 5 == |fs| && Tagged(T3054(), fs, 0x54)
  {
  }

  lemma {:induction false} ThirdByte(fs: seq<Field>)
    requires 5 <= MessageLen(fs) <= |Message(fs)|
    ensures Record(fs)[2] == Message(fs)[4]
  {
    hide MessageLen, Message;
  }

  /** The container: a six-byte header whose last byte counts the records, then the records. */
  function Container(header: seq<uint8>, all: seq<seq<Field>>): seq<uint8> { header + Concat(all) }

  /** One turn of the loop on a well-formed record. */
  lemma {:induction false} TurnDelivers(fs: seq<Field>, rs: seq<Field>, buf: seq<uint8>, data: seq<uint8>, os: nat)
    requires Sendable3054(fs) && AsNew(T3054(), rs) && |buf| == MAX_PROTO_DATA_LEN && RecordAt(data, os, fs)
    ensures RecordFits(buf, data, os) && RecordSize(data, os) == |Record(fs)|
    ensures os + |Record(fs)| <= |data| && |Record(fs)| + 2 <= |buf|
    ensures var message := Loaded(buf, 0x54, data, os, |Record(fs)|);
            && ParseSafe(rs, 0, message) && Delivered(fs, ParseFrom(rs, 0, message))
            && Placed(fs, ParseFrom(rs, 0, message))
            && AsNew(T3054(), Reset(ParseFrom(rs, 0, message)))
  {
    TableOf(fs);
    Table3054IsByteTable();
    Layout3054(fs);
    hide *;
    SizeByte3054(fs);
    TagBytes(T3054(), fs, 0x54);
    assert 2 <= MessageLen(fs) <= MAX_PROTO_DATA_LEN by { LengthFits(fs); }
    SizeRead(buf, data, os, fs);
    LoadedStartsWith(buf, 0x54, data, os, fs);
    assert os + |Record(fs)| <= |data| by { InData(data, os, fs); }
    var message := Loaded(buf, 0x54, data, os, |Record(fs)|);
    RecordDelivered(T3054(), fs, rs, message);
    AsNewAgainIff(T3054(), fs, rs, message);
  }

  lemma {:induction false} InData(data: seq<uint8>, os: nat, fs: seq<Field>)
    requires RecordAt(data, os, fs)
    ensures os + |Record(fs)| <= |data|
  {
  }

  lemma {:induction false} LengthFits(fs: seq<Field>)
    requires Sendable3054(fs)
    ensures 2 <= MessageLen(fs) <= MAX_PROTO_DATA_LEN
  {
  }

  lemma {:induction false} SizeRead(buf: seq<uint8>, data: seq<uint8>, os: nat, fs: seq<Field>)
    requires RecordAt(data, os, fs) && |Record(fs)| >= 3 && |Record(fs)| + 2 <= |buf|
    requires var n: int := Record(fs)[2]; |Record(fs)| == n + 3
    ensures RecordFits(buf, data, os) && RecordSize(data, os) == |Record(fs)|
  {
    hide Record;
    assert data[os..os + |Record(fs)|][2] == data[os + 2];
  }

  /** The loop's first turn on a container, and the container that is left. */
  lemma {:induction false} FirstTurn(rs: seq<Field>, buf: seq<uint8>, pre: seq<uint8>, all: seq<seq<Field>>)
    returns (message: seq<uint8>, record: seq<Field>)
    requires AsNew(T3054(), rs) && |buf| == MAX_PROTO_DATA_LEN && all != [] && Sendable3054(all[0])
    ensures record == ParseFrom(rs, 0, message) && |message| == MAX_PROTO_DATA_LEN
    ensures Delivered(all[0], record) && Placed(all[0], record) && AsNew(T3054(), Reset(record))
    ensures var data, rest := pre + Concat(all), (pre + Record(all[0])) + Concat(all[1..]);
            var next := |pre + Record(all[0])|;
            && Unpack3010(rs, buf, data, |pre|, |all|)
              == [record] + Unpack3010(Reset(record), message, rest, next, |all| - 1)
            && (Safe3010(Reset(record), message, rest, next, |all| - 1) ==> Safe3010(rs, buf, data, |pre|, |all|))
  {
    hide *;
    var fs, data, os := all[0], pre + Concat(all), |pre|;
    FirstRecordAt(pre, all);
    TurnDelivers(fs, rs, buf, data, os);
    message := Loaded(buf, 0x54, data, os, |Record(fs)|);
    record := ParseFrom(rs, 0, message);
    Unpack3010Step(rs, buf, data, os, |all|, message, record);
    if Safe3010(Reset(record), message, data, os + |Record(fs)|, |all| - 1) {
      SafeStepBack(rs, buf, data, os, |all|, message, record);
    }
  }

  /** Records from the analyzer state rs on are decoded one for one, and no access leaves the container. */
  lemma {:induction false} UnpackDelivers(rs: seq<Field>, buf: seq<uint8>, pre: seq<uint8>, all: seq<seq<Field>>)
    requires AsNew(T3054(), rs) && |buf| == MAX_PROTO_DATA_LEN && forall fs :: fs in all ==> Sendable3054(fs)
    ensures var data, count := pre + Concat(all), |all|;
            var records := Unpack3010(rs, buf, data, |pre|, count);
            && Safe3010(rs, buf, data, |pre|, count)
            && |records| == |all| && forall i :: 0 <= i < |all| ==> Delivered(all[i], records[i])
    decreases |all|
  {
    hide *;
    if all == [] {
      Unpack3010Done(rs, buf, pre + Concat(all), |pre|);
    } else {
      var message, record := FirstTurn(rs, buf, pre, all);
      assert forall f :: f in all[1..] ==> f in all;
      UnpackDelivers(Reset(record), message, pre + Record(all[0]), all[1..]);
      Shifted(all[0], all, record,
              Unpack3010(Reset(record), message, (pre + Record(all[0])) + Concat(all[1..]),
                         |pre + Record(all[0])|, |all| - 1));
    }
  }

  lemma {:induction false} SafeStepBack(fs: seq<Field>, buf: seq<uint8>, data: seq<uint8>, os: nat, count: nat,
                                        message: seq<uint8>, record: seq<Field>)
    requires count > 0 && RecordFits(buf, data, os)
    requires message == Loaded(buf, 0x54, data, os, RecordSize(data, os)) && record == ParseFrom(fs, 0, message)
    requires ParseSafe(fs, 0, message)
    requires Safe3010(Reset(record), message, data, os + RecordSize(data, os), count - 1)
    ensures Safe3010(fs, buf, data, os, count)
  {
    hide ParseFrom, ParseSafe, Loaded, Reset, RecordSize;
  }

  lemma {:induction false} Shifted(fs: seq<Field>, all: seq<seq<Field>>, record: seq<Field>, later: seq<seq<Field>>)
    requires all != [] && fs == all[0] && Delivered(fs, record)
    requires |later| == |all| - 1 && forall i :: 0 <= i < |later| ==> Delivered(all[1..][i], later[i])
    ensures forall i :: 0 <= i < |all| ==> Delivered(all[i], ([record] + later)[i])
  {
    hide Delivered;
    forall i | 0 <= i < |all| ensures Delivered(all[i], ([record] + later)[i]) {
      if i > 0 { assert all[1..][i - 1] == all[i]; }
    }
  }

  /** Container round trip: whatever 0x3054 messages are packed into a 0x3010 command, the loop with its one reused
      analyzer stays inside the command and decodes exactly the values of every one of them, in order, as a fresh
      analyzer would from the whole message. */
  lemma {:induction false} ContainerRoundTrip(header: seq<uint8>, all: seq<seq<Field>>)
    requires |header| == 6 && header[5] == |all| && forall fs :: fs in all ==> Sendable3054(fs)
    ensures var data := Container(header, all);
            var records := Unpack3010(T3054(), Zeros(MAX_PROTO_DATA_LEN), data, 6, data[5]);
            && Safe3010(T3054(), Zeros(MAX_PROTO_DATA_LEN), data, 6, data[5])
            && |records| == |all|
            && forall i :: 0 <= i < |all| ==>
                 && Delivered(all[i], records[i])
                 && Values(records[i]) == Values(ParseFrom(T3054(), 0, Message(all[i])))
  {
    var data := Container(header, all);
    assert data[5] == header[5];
    hide *;
    FreshIsAsNew(T3054());
    assert |Zeros(MAX_PROTO_DATA_LEN)| == MAX_PROTO_DATA_LEN && data == header + Concat(all) by { hide Concat; }
    UnpackDelivers(T3054(), Zeros(MAX_PROTO_DATA_LEN), header, all);
    var records := Unpack3010(T3054(), Zeros(MAX_PROTO_DATA_LEN), data, 6, data[5]);
    forall i | 0 <= i < |all| ensures Values(records[i]) == Values(ParseFrom(T3054(), 0, Message(all[i]))) {
      assert all[i] in all;
      TableOf(all[i]);
      Table3054IsByteTable();
      WholeMessage(T3054(), all[i], T3054());
      SameDelivery(all[i], records[i], ParseFrom(T3054(), 0, Message(all[i])));
    }
  }

  lemma {:induction false} SameDelivery(fs: seq<Field>, ps: seq<Field>, qs: seq<Field>)
    requires Delivered(fs, ps) && Delivered(fs, qs)
    ensures Values(ps) == Values(qs)
  {
  }

  // ---------- what gets printed ----------

  /** The data bytes of a record, as sent. */
  function SentData(fs: seq<Field>): seq<uint8> {
    if |fs| != 5 then []
    else if DataBytes(fs) <= 4 then BigEndian(fs[4].data, DataBytes(fs))
    else if fs[4].buf.Some? && DataBytes(fs) <= |fs[4].buf.value| then fs[4].buf.value[..DataBytes(fs)]
    else []
  }

  /** The line for field j shows the bytes that were sent in it. */
  predicate LineRight(fs: seq<Field>, line: Line, j: nat)
    requires j < |fs|
  {
    Octets(line.value, FinalLen(fs, j)) == Octets(Sent(fs, j), FinalLen(fs, j)) && line.name == fs[j].name
  }

  /** What Shown sees of a delivered field, and the buffer the field is left with. */
  lemma {:induction false} FieldShown(fs: seq<Field>, before: Field, ps: seq<Field>, message: seq<uint8>, j: nat)
    requires j < |fs| == |ps| && Delivered(fs, ps) && Placed(fs, ps) && ReadOff(before, ps[j], message)
    requires fs[j].lenUnit == 8 && before.name == fs[j].name
    ensures var n := FinalLen(fs, j);
            LineRight(fs, Shown(ps[j]), j) <==>
              n > 4 || before.buf.None?
                || (n <= |before.buf.value| && before.buf.value[..n] == BigEndian(fs[j].data, n))
    ensures if FinalLen(fs, j) > 4 then ps[j].buf.Some? && Sent(fs, j).Bytes? && Sent(fs, j).b <= ps[j].buf.value
            else ps[j].buf == before.buf
  {
    assert ValueOf(ps[j]) == Sent(fs, j) && ps[j].len == FinalLen(fs, j);
    hide FinalLen, Pending, Octets, BigEndian, ValueAt;
    ShownRightIff(ps[j]);
  }

  /** No buffer is attached to the four fixed fields. */
  predicate FixedUnbuffered(rs: seq<Field>) { |rs| == 5 && forall j :: 0 <= j < 4 ==> rs[j].buf.None? }

  lemma {:induction false} FixedLengths(fs: seq<Field>, rs: seq<Field>)
    requires Filled(T3054(), fs) && AsNew(T3054(), rs)
    ensures |fs| == |rs| == 5 && DataBytes(fs) == FinalLen(fs, 4)
    ensures forall j :: 0 <= j < 5 ==> fs[j].lenUnit == 8 && Readable(rs[j]) && rs[j].name == fs[j].name
    ensures forall j :: 0 <= j < 4 ==> FinalLen(fs, j) <= 4
  {
  }

  /** The data field's buffer begins with the given bytes, those of the last long record; None before the first. */
  predicate LeftOver(rs: seq<Field>, left: Option<seq<uint8>>) {
    && |rs| == 5 && (rs[4].buf.Some? <==> left.Some?)
    && (left.Some? ==> |left.value| > 4 && left.value <= rs[4].buf.value)
  }

  /** The lines of one record, given what is left over from before: fixed fields are right; the data is unless it is
      short and differs from the beginning of what is left over. */
  ghost predicate RecordShown(fs: seq<Field>, ps: seq<Field>, left: Option<seq<uint8>>) {
    && |fs| == |ps| == 5 && (left.Some? ==> |left.value| > 4)
    && (forall j :: 0 <= j < 4 ==> LineRight(fs, Shown(ps[j]), j))
    && (LineRight(fs, Shown(ps[4]), 4)
        <==> DataBytes(fs) > 4 || left.None? || left.value[..DataBytes(fs)] == SentData(fs))
  }

  function LeftBehind(fs: seq<Field>, left: Option<seq<uint8>>): Option<seq<uint8>> {
    if DataBytes(fs) > 4 then Some(SentData(fs)) else left
  }

  lemma {:induction false} SentDataOf(fs: seq<Field>)
    requires Filled(T3054(), fs)
    ensures |fs| == 5 && DataBytes(fs) == FinalLen(fs, 4)
    ensures DataBytes(fs) <= 4 ==> SentData(fs) == BigEndian(fs[4].data, DataBytes(fs))
    ensures DataBytes(fs) > 4 && Sent(fs, 4).Bytes? ==> Sent(fs, 4).b == SentData(fs) && |SentData(fs)| == DataBytes(fs)
  {
    hide FinalLen, BigEndian;
    assert |T3054()| == 5 && T3054()[4].lenUnit == 8;
  }

  lemma {:induction false} TurnShows(fs: seq<Field>, rs: seq<Field>, message: seq<uint8>, left: Option<seq<uint8>>)
    requires Filled(T3054(), fs) && AsNew(T3054(), rs) && FixedUnbuffered(rs) && LeftOver(rs, left)
    requires Delivered(fs, ParseFrom(rs, 0, message)) && Placed(fs, ParseFrom(rs, 0, message))
    ensures var ps := ParseFrom(rs, 0, message);
            && FixedUnbuffered(Reset(ps)) && LeftOver(Reset(ps), LeftBehind(fs, left)) && RecordShown(fs, ps, left)
  {
    hide T3054, Filled, AsNew, FinalLen, Pending, Sent, ReadOff, ParseFrom, DataBytes, SentData, Delivered, Placed,
         LineRight, BigEndian;
    var ps := ParseFrom(rs, 0, message);
    FixedLengths(fs, rs);
    ParseReadsOff(rs, 0, message);
    forall j | 0 <= j < 4
      ensures LineRight(fs, Shown(ps[j]), j) && ps[j].buf == rs[j].buf
    {
      FieldShown(fs, rs[j], ps, message, j);
    }
    FieldShown(fs, rs[4], ps, message, 4);
    SentDataOf(fs);
  }

  /** The data of the last record among the first i that carried more than four bytes. */
  function LastLong(all: seq<seq<Field>>, i: nat): Option<seq<uint8>>
    requires i <= |all|
  {
    if i == 0 then None else LeftBehind(all[i - 1], LastLong(all, i - 1))
  }

  /** The same with something left over from before. */
  function LongOr(all: seq<seq<Field>>, i: nat, left: Option<seq<uint8>>): Option<seq<uint8>>
    requires i <= |all|
  {
    if LastLong(all, i).Some? then LastLong(all, i) else left
  }

  lemma {:induction false} LongLater(all: seq<seq<Field>>, i: nat, left: Option<seq<uint8>>)
    requires i < |all|
    ensures LongOr(all, i, left) == if i == 0 then left else LongOr(all[1..], i - 1, LeftBehind(all[0], left))
  {
    hide DataBytes, SentData;
    var rest := all[1..];
    if i == 1 {
      assert LastLong(all, 0) == None && LastLong(rest, 0) == None;
    } else if i > 1 {
      LongLater(all, i - 1, left);
      assert rest[i - 2] == all[i - 1];
      assert LastLong(rest, i - 1) == LeftBehind(rest[i - 2], LastLong(rest, i - 2));
    }
  }

  lemma {:induction false} UnpackShows(rs: seq<Field>, buf: seq<uint8>, pre: seq<uint8>, all: seq<seq<Field>>, i: nat,
                                       left: Option<seq<uint8>>)
    requires AsNew(T3054(), rs) && |buf| == MAX_PROTO_DATA_LEN && forall fs :: fs in all ==> Sendable3054(fs)
    requires FixedUnbuffered(rs) && LeftOver(rs, left) && i < |all|
    ensures var records := Unpack3010(rs, buf, pre + Concat(all), |pre|, |all|);
            i < |records| && RecordShown(all[i], records[i], LongOr(all, i, left))
    decreases |all|
  {
    hide *;
    var message, record := FirstTurn(rs, buf, pre, all);
    assert Filled(T3054(), all[0]) by { TableOf(all[0]); SendableIsFilled(T3054(), all[0]); }
    TurnShows(all[0], rs, message, left);
    LongLater(all, i, left);
    if i > 0 {
      assert forall f :: f in all[1..] ==> f in all;
      UnpackShows(Reset(record), message, pre + Record(all[0]), all[1..], i - 1, LeftBehind(all[0], left));
    }
  }

  /** The command's output, byte for byte: a block per record and a line per field; fixed fields are printed as sent;
      the data of record i is if and only if it is longer than four bytes, or no record before it was, or it equals
      the beginning of the last one that was. */
  lemma {:induction false} PrintedAsSentIff(header: seq<uint8>, all: seq<seq<Field>>, printed: seq<seq<Line>>, i: nat)
    requires |header| == 6 && header[5] == |all| && i < |all| && forall fs :: fs in all ==> Sendable3054(fs)
    requires printed
          == ShownRecords(Unpack3010(T3054(), Zeros(MAX_PROTO_DATA_LEN), Container(header, all), 6, |all|))
    ensures LastLong(all, i).Some? ==> |LastLong(all, i).value| > 4
    ensures i < |printed| && |all[i]| == |printed[i]| == 5
    ensures forall j :: 0 <= j < 4 ==> LineRight(all[i], printed[i][j], j)
    ensures LineRight(all[i], printed[i][4], 4)
       <==> DataBytes(all[i]) > 4 || LastLong(all, i).None?
              || LastLong(all, i).value[..DataBytes(all[i])] == SentData(all[i])
  {
    hide *;
    var records := Unpack3010(T3054(), Zeros(MAX_PROTO_DATA_LEN), Container(header, all), 6, |all|);
    FreshIsAsNew(T3054());
    FreshUnbuffered();
    assert Container(header, all) == header + Concat(all) by { ContainerParts(header, all); }
    UnpackShows(T3054(), Zeros(MAX_PROTO_DATA_LEN), header, all, i, None);
    assert LongOr(all, i, None) == LastLong(all, i) by { LongOrNone(all, i); }
    ShownParts(all[i], records[i], LastLong(all, i));
  }

  lemma {:induction false} FreshUnbuffered()
    ensures FixedUnbuffered(T3054()) && LeftOver(T3054(), None)
  {
  }

  lemma {:induction false} ContainerParts(header: seq<uint8>, all: seq<seq<Field>>)
    ensures Container(header, all) == header + Concat(all)
  {
    hide Concat;
  }

  lemma {:induction false} LongOrNone(all: seq<seq<Field>>, i: nat)
    requires i <= |all|
    ensures LongOr(all, i, None) == LastLong(all, i)
  {
    hide LastLong;
  }

  lemma {:induction false} ShownParts(fs: seq<Field>, ps: seq<Field>, left: Option<seq<uint8>>)
    requires RecordShown(fs, ps, left)
    ensures |fs| == |ps| == 5 && (left.Some? ==> |left.value| > 4)
    ensures forall j :: 0 <= j < 4 ==> LineRight(fs, Shown(ps[j]), j)
    ensures LineRight(fs, Shown(ps[4]), 4)
       <==> DataBytes(fs) > 4 || left.None? || left.value[..DataBytes(fs)] == SentData(fs)
  {
    hide LineRight, DataBytes, SentData, Shown;
  }
}
