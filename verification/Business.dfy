/** The container commands of business.c: cut a message into records and feed each to a reused analyzer. */
module Business {
  import opened CTypes
  import opened FieldIO
  import opened Format
  import opened Messages
  import opened ProtocolAnalyzer
  import HashMap
  import HashTable

  // ---------- what is printed ----------

  /** One line of pfs_print_list_for_each: a field's name and what is shown behind it. */
  datatype Line = Line(name: string, value: Value)

  /** print_info_list. A short byte field is shown as a number only while it has no buffer. */
  function Shown(f: Field): (line: Line)
    ensures line.name == f.name
    ensures f.lenUnit != 8 || (f.len <= 4 && f.buf.None?) ==> line.value == Number(f.data)
    ensures f.lenUnit == 8 && f.buf.Some? && f.len <= |f.buf.value| ==> line.value == Bytes(f.buf.value[..f.len])
    ensures f.lenUnit == 8 && (if f.buf.Some? then f.len > |f.buf.value| else f.len > 4) ==> line.value == Unknown
  {
    if f.lenUnit == 8 && !(f.len <= 4 && f.buf.None?) then
      Line(f.name, if f.buf.Some? && f.len <= |f.buf.value| then Bytes(f.buf.value[..f.len]) else Unknown)
    else Line(f.name, Number(f.data))
  }

  /** The lines of all descriptors, in turn. */
  function ShownAll(fs: seq<Field>): (lines: seq<Line>)
    ensures |lines| == |fs| && forall j :: 0 <= j < |fs| ==> lines[j] == Shown(fs[j])
  {
    seq(|fs|, j requires 0 <= j < |fs| => Shown(fs[j]))
  }

  method PrintInfoList(info: ProtoInfo) returns (line: Line)
    ensures line == Shown(info.View()) && line.name == info.name
    ensures info.lenUnit != 8 || (info.len <= 4 && info.buf.None?) ==> line.value == Number(info.data)
    ensures info.lenUnit == 8 && info.buf.Some? && info.len <= |info.buf.value| ==>
              line.value == Bytes(info.buf.value[..info.len])
  {
    if info.lenUnit == 8 {
      if info.len <= 4 && info.buf.None? {
        line := Line(info.name, Number(info.data));
      } else if info.buf.Some? && info.len <= |info.buf.value| {
        line := Line(info.name, Bytes(info.buf.value[..info.len]));
      } else {
        line := Line(info.name, Unknown);
      }
    } else {
      line := Line(info.name, Number(info.data));
    }
  }

  /** pfs_print_list_for_each: one line per descriptor, in order, each about that descriptor. */
  method PrintListForEach(pa: Analyzer) returns (lines: seq<Line>)
    requires pa.Valid()
    ensures lines == ShownAll(pa.View())
    ensures |lines| == |pa.fields|
    ensures forall j :: 0 <= j < |lines| ==> lines[j].name == pa.fields[j].name
    ensures forall j :: 0 <= j < |lines| ==>
              var f := pa.fields[j];
              && (f.lenUnit != 8 || (f.len <= 4 && f.buf.None?) ==> lines[j].value == Number(f.data))
              && (f.lenUnit == 8 && f.buf.Some? && f.len <= |f.buf.value| ==>
                    lines[j].value == Bytes(f.buf.value[..f.len]))
  {
    hide Shown, HashMap.Map.Valid, Indexed;
    lines := [];
    var i := 0;
    while i < |pa.fields|
      invariant 0 <= i <= |pa.fields| && lines == ShownAll(pa.View())[..i]
    {
      var line := PrintInfoList(pa.fields[i]);
      lines := lines + [line];
      i := i + 1;
    }
  }

  /** The n big-endian bytes of a number. */
  function BigEndian(v: nat, n: nat): (b: seq<uint8>)
    ensures |b| == n
  {
    seq(n, i requires 0 <= i < n => ByteOf(v, n, i))
  }

  lemma {:induction false} BigEndianByte(v: nat, n: nat, i: nat)
    requires i < n <= 4
    ensures BigEndian(v, n)[i] == v / [1, 0x100, 0x1_0000, 0x100_0000][n - 1 - i] % 0x100
  {
    ByteIsQuotient(v, n, i);
  }

  /** The n bytes a value stands for, whether it is written as a number or as bytes. */
  function Octets(v: Value, n: nat): Option<seq<uint8>> {
    match v
    case Number(x) => Some(BigEndian(x, n))
    case Bytes(b) => Some(b)
    case Unknown => None
  }

  /** A byte field's line shows the bytes of the field's value if and only if the value is longer than four bytes, or
      there is no old buffer, or the old buffer happens to begin with those very bytes. */
  lemma {:induction false} ShownRightIff(f: Field)
    requires f.lenUnit == 8 && (f.len > 4 ==> f.buf.Some? && f.len <= |f.buf.value|)
    ensures Octets(Shown(f).value, f.len) == Octets(ValueOf(f), f.len)
       <==> f.len > 4 || f.buf.None? || (f.len <= |f.buf.value| && f.buf.value[..f.len] == BigEndian(f.data, f.len))
  {
    hide BigEndian;
  }

  // ---------- one record ----------

  /** The analyzer's buffer once a record of n bytes has been copied in behind the two identifier bytes. */
  function Loaded(buf: seq<uint8>, id: uint8, data: seq<uint8>, os: nat, n: nat): (r: seq<uint8>)
    requires os + n <= |data| && n + 2 <= |buf|
    ensures |r| == |buf| && r[0] == 0x30 && r[1] == id
    ensures forall k :: 2 <= k < n + 2 ==> r[k] == data[os + k - 2]
    ensures forall k :: n + 2 <= k < |buf| ==> r[k] == buf[k]
  {
    [0x30, id] + data[os..os + n] + buf[n + 2..]
  }

  /** Copy a record into the analyzer's buffer. */
  method LoadRecord(pa: Analyzer, id: uint8, data: seq<uint8>, os: nat, n: nat)
    requires pa.Valid() && os + n <= |data| && n + 2 <= MAX_PROTO_DATA_LEN
    modifies pa.protocolData, pa`protocolDataLen
    ensures pa.Valid() && pa.View() == old(pa.View()) && pa.protocolDataLen == n + 2
    ensures pa.protocolData[..] == Loaded(old(pa.protocolData[..]), id, data, os, n)
  {
    hide Indexed, HashMap.Map.Valid;
    ghost var before := pa.protocolData[..];
    pa.protocolData[0] := 0x30;
    pa.protocolData[1] := id;
    forall k | 0 <= k < n { pa.protocolData[2 + k] := data[os + k]; }
    assert pa.protocolData[..] == Loaded(before, id, data, os, n);
    pa.protocolDataLen := n + 2;
  }

  /** One turn of a container loop: load, parse, print, reset. */
  method DoRecord(pa: Analyzer, id: uint8, data: seq<uint8>, os: nat, n: nat)
    returns (lines: seq<Line>, ghost record: seq<Field>)
    requires pa.Valid() && os + n <= |data| && n + 2 <= MAX_PROTO_DATA_LEN
    requires ParseSafe(pa.View(), 0, Loaded(pa.protocolData[..], id, data, os, n))
    modifies pa.fields, pa.protocolData, pa`protocolDataLen
    ensures pa.Valid()
    ensures pa.protocolData[..] == Loaded(old(pa.protocolData[..]), id, data, os, n)
    ensures record == ParseFrom(old(pa.View()), 0, pa.protocolData[..])
    ensures lines == ShownAll(record) && pa.View() == Reset(record)
  {
    hide Analyzer.Valid, ParseFrom, ParseSafe, Loaded, Reset, ShownAll;
    LoadRecord(pa, id, data, os, n);
    var ret := pa.Parse();
    record := pa.View();
    lines := PrintListForEach(pa);
    pa.ResetVlenFlag();
  }

  // ---------- command 0x3010 ----------

  /** Size of the 0x3010 record at offset os: three bytes and the data, whose length is the third byte. */
  function RecordSize(data: seq<uint8>, os: nat): nat
    requires os + 2 < |data|
  {
    var dataLen: int := data[os + 2];
    dataLen + 3
  }

  /** The next record lies inside the container and fits the analyzer's buffer. */
  predicate RecordFits(buf: seq<uint8>, data: seq<uint8>, os: nat) {
    os + 2 < |data| && os + RecordSize(data, os) <= |data| && RecordSize(data, os) + 2 <= |buf|
  }

  /** The records the 0x3010 loop decodes from offset os on, given the analyzer's fields and buffer. */
  function Unpack3010(fs: seq<Field>, buf: seq<uint8>, data: seq<uint8>, os: nat, count: nat): seq<seq<Field>>
    decreases count
  {
    if count == 0 || !RecordFits(buf, data, os) then []
    else
      var n := RecordSize(data, os);
      var message := Loaded(buf, 0x54, data, os, n);
      var record := ParseFrom(fs, 0, message);
      [record] + Unpack3010(Reset(record), message, data, os + n, count - 1)
  }

  /** No access of the loop leaves the container or the analyzer's buffer. */
  predicate Safe3010(fs: seq<Field>, buf: seq<uint8>, data: seq<uint8>, os: nat, count: nat)
    decreases count
  {
    count == 0 ||
    (RecordFits(buf, data, os) &&
     var n := RecordSize(data, os);
     var message := Loaded(buf, 0x54, data, os, n);
     ParseSafe(fs, 0, message) && Safe3010(Reset(ParseFrom(fs, 0, message)), message, data, os + n, count - 1))
  }

  function ShownRecords(records: seq<seq<Field>>): (printed: seq<seq<Line>>)
    ensures |printed| == |records| && forall i :: 0 <= i < |records| ==> printed[i] == ShownAll(records[i])
  {
    seq(|records|, i requires 0 <= i < |records| => ShownAll(records[i]))
  }

  lemma {:induction false} PrintedLines(printed: seq<seq<Line>>, records: seq<seq<Field>>)
    requires printed == ShownRecords(records)
    ensures |printed| == |records| && forall i :: 0 <= i < |records| ==> |printed[i]| == |records[i]|
    ensures forall i, j :: 0 <= i < |records| && 0 <= j < |records[i]| ==>
              var f, line := records[i][j], printed[i][j];
              && line.name == f.name
              && (f.lenUnit != 8 || (f.len <= 4 && f.buf.None?) ==> line.value == Number(f.data))
              && (f.lenUnit == 8 && f.buf.Some? && f.len <= |f.buf.value| ==> line.value == Bytes(f.buf.value[..f.len]))
  {
    hide Shown;
  }

  /** One turn of the 0x3010 loop: the record at os, and the offset of the next one. */
  method Turn3010(pa: Analyzer, data: seq<uint8>, os: nat, ghost count: nat)
    returns (lines: seq<Line>, ghost record: seq<Field>, next: nat)
    requires pa.Valid() && pa.protocolData.Length == MAX_PROTO_DATA_LEN && count > 0
    requires Safe3010(pa.View(), pa.protocolData[..], data, os, count)
    modifies pa.fields, pa.protocolData, pa`protocolDataLen
    ensures pa.Valid() && lines == ShownAll(record)
    ensures Safe3010(pa.View(), pa.protocolData[..], data, next, count - 1)
    ensures Unpack3010(old(pa.View()), old(pa.protocolData[..]), data, os, count)
         == [record] + Unpack3010(pa.View(), pa.protocolData[..], data, next, count - 1)
  {
    hide Analyzer.Valid, ParseFrom, ParseSafe, Loaded, Reset, ShownAll, Unpack3010, Safe3010;
    ghost var fs, buf := pa.View(), pa.protocolData[..];
    Safe3010Step(fs, buf, data, os, count);
    var n := RecordSize(data, os);
    lines, record := DoRecord(pa, 0x54, data, os, n);
    next := os + n;
    Unpack3010Step(fs, buf, data, os, count, pa.protocolData[..], record);
  }

  /** do_command_0x3010. The offset is 16 bits wide, hence the bound on the container. */
  method DoCommand0x3010(data: seq<uint8>, template: seq<ProtoInfo>)
    returns (printed: seq<seq<Line>>, ghost records: seq<seq<Field>>)
    requires 6 <= |data| < 0x1_0000
    requires Safe3010(Views(template), Zeros(MAX_PROTO_DATA_LEN), data, 6, data[5])
    ensures records == Unpack3010(Views(template), Zeros(MAX_PROTO_DATA_LEN), data, 6, data[5])
    ensures printed == ShownRecords(records)
    ensures |printed| == |records| && forall i :: 0 <= i < |records| ==> |printed[i]| == |records[i]|
    ensures forall i, j :: 0 <= i < |records| && 0 <= j < |records[i]| ==>
              var f, line := records[i][j], printed[i][j];
              && line.name == f.name
              && (f.lenUnit != 8 || (f.len <= 4 && f.buf.None?) ==> line.value == Number(f.data))
              && (f.lenUnit == 8 && f.buf.Some? && f.len <= |f.buf.value| ==> line.value == Bytes(f.buf.value[..f.len]))
    ensures Views(template) == old(Views(template))
  {
    hide Analyzer.Valid, ParseFrom, ParseSafe, Loaded, Reset, ShownAll, Unpack3010, Safe3010, Zeros, Shown;
    var pa := new Analyzer(template);
    var count: nat, i: nat, os: nat := data[5], 0, 6;
    printed, records := [], [];
    ghost var all := Unpack3010(pa.View(), pa.protocolData[..], data, 6, count);
    assert pa.protocolData[..] == Zeros(MAX_PROTO_DATA_LEN) && |Zeros(MAX_PROTO_DATA_LEN)| == MAX_PROTO_DATA_LEN;
    while i < count
      invariant 0 <= i <= count && pa.Valid() && fresh(pa) && fresh(pa.fields) && fresh(pa.protocolData)
      invariant pa.protocolData.Length == MAX_PROTO_DATA_LEN
      invariant Safe3010(pa.View(), pa.protocolData[..], data, os, count - i)
      invariant all == records + Unpack3010(pa.View(), pa.protocolData[..], data, os, count - i)
      invariant printed == ShownRecords(records)
    {
      var lines, record, next := Turn3010(pa, data, os, count - i);
      os, i := next, i + 1;
      HashTable.Regroup(records, [record], Unpack3010(pa.View(), pa.protocolData[..], data, os, count - i));
      printed, records := printed + [lines], records + [record];
    }
    Unpack3010Done(pa.View(), pa.protocolData[..], data, os);
    PrintedLines(printed, records);
  }

  lemma {:induction false} Safe3010Step(fs: seq<Field>, buf: seq<uint8>, data: seq<uint8>, os: nat, count: nat)
    requires Safe3010(fs, buf, data, os, count) && count > 0
    ensures RecordFits(buf, data, os) && ParseSafe(fs, 0, Loaded(buf, 0x54, data, os, RecordSize(data, os)))
  {
    hide ParseFrom, ParseSafe, Loaded, Reset, RecordSize;
  }

  lemma {:induction false} Unpack3010Step(fs: seq<Field>, buf: seq<uint8>, data: seq<uint8>, os: nat, count: nat,
                                          message: seq<uint8>, record: seq<Field>)
    requires count > 0 && RecordFits(buf, data, os)
    requires message == Loaded(buf, 0x54, data, os, RecordSize(data, os)) && record == ParseFrom(fs, 0, message)
    ensures Unpack3010(fs, buf, data, os, count)
         == [record] + Unpack3010(Reset(record), message, data, os + RecordSize(data, os), count - 1)
    ensures Safe3010(fs, buf, data, os, count) ==>
              Safe3010(Reset(record), message, data, os + RecordSize(data, os), count - 1)
  {
    hide ParseFrom, ParseSafe, Loaded, Reset, RecordSize;
  }

  lemma {:induction false} Unpack3010Done(fs: seq<Field>, buf: seq<uint8>, data: seq<uint8>, os: nat)
    ensures Safe3010(fs, buf, data, os, 0) && Unpack3010(fs, buf, data, os, 0) == []
  {
  }

  // ---------- command 0x301b ----------

  /** An analyzer's descriptors and buffer. */
  datatype PaState = PaState(fields: seq<Field>, buffer: seq<uint8>)

  ghost function State(pa: Analyzer): PaState
    reads pa, pa.fields, pa.protocolData
  {
    PaState(pa.View(), pa.protocolData[..])
  }

  /** The record at os, whose first byte is its size, lies inside the container and fits the analyzer's buffer. */
  predicate PduFits(p: PaState, data: seq<uint8>, os: nat) {
    os + 1 < |data| && os + data[os] <= |data| && data[os] + 2 <= |p.buffer|
  }

  /** The buffer once the record has been copied in. */
  function PduLoaded(p: PaState, id: uint8, data: seq<uint8>, os: nat): seq<uint8>
    requires PduFits(p, data, os)
  {
    Loaded(p.buffer, id, data, os, data[os])
  }

  function PduDecoded(p: PaState, id: uint8, data: seq<uint8>, os: nat): seq<Field>
    requires PduFits(p, data, os)
  {
    ParseFrom(p.fields, 0, PduLoaded(p, id, data, os))
  }

  function PduNext(p: PaState, id: uint8, data: seq<uint8>, os: nat): PaState
    requires PduFits(p, data, os)
  {
    PaState(Reset(PduDecoded(p, id, data, os)), PduLoaded(p, id, data, os))
  }

  /** The records the 0x301b loop decodes from offset os on. The second byte of a record says which analyzer gets it. */
  function Unpack301b(p50: PaState, p52: PaState, data: seq<uint8>, os: nat, count: nat): seq<seq<Field>>
    decreases count
  {
    if count == 0 || os + 1 >= |data| then []
    else if data[os + 1] == 0 then
      if PduFits(p50, data, os) then
        [PduDecoded(p50, 0x50, data, os)]
        + Unpack301b(PduNext(p50, 0x50, data, os), p52, data, os + data[os], count - 1)
      else []
    else
      if PduFits(p52, data, os) then
        [PduDecoded(p52, 0x52, data, os)]
        + Unpack301b(p50, PduNext(p52, 0x52, data, os), data, os + data[os], count - 1)
      else []
  }

  predicate PduSafe(p: PaState, id: uint8, data: seq<uint8>, os: nat) {
    PduFits(p, data, os) && ParseSafe(p.fields, 0, PduLoaded(p, id, data, os))
  }

  /** No access of the loop leaves the container or an analyzer's buffer. */
  predicate Safe301b(p50: PaState, p52: PaState, data: seq<uint8>, os: nat, count: nat)
    decreases count
  {
    count == 0 ||
    (os + 1 < |data| &&
     if data[os + 1] == 0 then
       PduSafe(p50, 0x50, data, os) && Safe301b(PduNext(p50, 0x50, data, os), p52, data, os + data[os], count - 1)
     else
       PduSafe(p52, 0x52, data, os) && Safe301b(p50, PduNext(p52, 0x52, data, os), data, os + data[os], count - 1))
  }

  /** Two analyzers that share no descriptor, buffer or index. */
  ghost predicate Separate(a: Analyzer, b: Analyzer)
    reads a, b, a.hmap, b.hmap
  {
    && a != b && a.protocolData != b.protocolData
    && (forall n :: n in a.fields ==> n !in b.fields && n !in b.hmap.Repr)
    && (forall n :: n in b.fields ==> n !in a.hmap.Repr)
    && a !in b.hmap.Repr && b !in a.hmap.Repr && a.protocolData !in b.hmap.Repr && b.protocolData !in a.hmap.Repr
  }

  /** One turn of the 0x301b loop, with the analyzer the record goes to and the other one. */
  method DoPdu(pa: Analyzer, other: Analyzer, id: uint8, data: seq<uint8>, os: nat)
    returns (lines: seq<Line>, ghost record: seq<Field>)
    requires pa.Valid() && other.Valid() && Separate(pa, other) && PduSafe(State(pa), id, data, os)
    modifies pa.fields, pa.protocolData, pa`protocolDataLen
    ensures pa.Valid() && other.Valid() && Separate(pa, other) && State(other) == old(State(other))
    ensures PduFits(old(State(pa)), data, os)
    ensures record == PduDecoded(old(State(pa)), id, data, os) && lines == ShownAll(record)
    ensures State(pa) == PduNext(old(State(pa)), id, data, os)
  {
    hide HashMap.Map.Valid, Indexed, ParseFrom, ParseSafe, Loaded, Reset, ShownAll;
    assert pa.protocolData[..] == State(pa).buffer;
    assert forall j :: 0 <= j < |other.fields| ==> other.fields[j] !in pa.fields;
    lines, record := DoRecord(pa, id, data, os, data[os]);
    assert forall j :: 0 <= j < |other.fields| ==> other.fields[j].View() == old(other.fields[j].View());
    assert other.View() == old(other.View());
  }

  lemma {:induction false} Safe301bStep(p50: PaState, p52: PaState, data: seq<uint8>, os: nat, count: nat)
    requires Safe301b(p50, p52, data, os, count) && count > 0
    ensures os + 1 < |data|
    ensures if data[os + 1] == 0 then
              && PduSafe(p50, 0x50, data, os) && PduFits(p50, data, os)
              && Safe301b(PduNext(p50, 0x50, data, os), p52, data, os + data[os], count - 1)
              && Unpack301b(p50, p52, data, os, count)
              == [PduDecoded(p50, 0x50, data, os)]
                 + Unpack301b(PduNext(p50, 0x50, data, os), p52, data, os + data[os], count - 1)
            else
              && PduSafe(p52, 0x52, data, os) && PduFits(p52, data, os)
              && Safe301b(p50, PduNext(p52, 0x52, data, os), data, os + data[os], count - 1)
              && Unpack301b(p50, p52, data, os, count)
              == [PduDecoded(p52, 0x52, data, os)]
                 + Unpack301b(p50, PduNext(p52, 0x52, data, os), data, os + data[os], count - 1)
  {
    hide ParseFrom, ParseSafe, Loaded, Reset;
  }

  lemma {:induction false} Unpack301bDone(p50: PaState, p52: PaState, data: seq<uint8>, os: nat)
    ensures Safe301b(p50, p52, data, os, 0) && Unpack301b(p50, p52, data, os, 0) == []
  {
  }

  /** One turn of the 0x301b loop: route, decode, advance. */
  method Turn301b(pa50: Analyzer, pa52: Analyzer, data: seq<uint8>, os: nat, ghost count: nat)
    returns (lines: seq<Line>, ghost record: seq<Field>, next: nat)
    requires pa50.Valid() && pa52.Valid() && Separate(pa50, pa52) && count > 0
    requires Safe301b(State(pa50), State(pa52), data, os, count)
    modifies pa50.fields, pa50.protocolData, pa50`protocolDataLen, pa52.fields, pa52.protocolData, pa52`protocolDataLen
    ensures pa50.Valid() && pa52.Valid() && Separate(pa50, pa52) && lines == ShownAll(record)
    ensures Safe301b(State(pa50), State(pa52), data, next, count - 1)
    ensures Unpack301b(old(State(pa50)), old(State(pa52)), data, os, count)
         == [record] + Unpack301b(State(pa50), State(pa52), data, next, count - 1)
  {
    hide Analyzer.Valid, PduSafe, PduFits, PduDecoded, PduNext, State, ShownAll, Unpack301b, Safe301b;
    Safe301bStep(State(pa50), State(pa52), data, os, count);
    next := os + data[os];
    if data[os + 1] == 0 {
      lines, record := DoPdu(pa50, pa52, 0x50, data, os);
    } else {
      lines, record := DoPdu(pa52, pa50, 0x52, data, os);
    }
  }

  /** The analyzers of the 0x301b command: each a private copy of its table. */
  method CreatePair(template50: seq<ProtoInfo>, template52: seq<ProtoInfo>) returns (pa50: Analyzer, pa52: Analyzer)
    ensures pa50.Valid() && pa52.Valid() && Separate(pa50, pa52)
    ensures fresh(pa50) && fresh(pa50.fields) && fresh(pa50.protocolData)
    ensures fresh(pa52) && fresh(pa52.fields) && fresh(pa52.protocolData)
    ensures State(pa50) == PaState(old(Views(template50)), Zeros(MAX_PROTO_DATA_LEN))
    ensures State(pa52) == PaState(old(Views(template52)), Zeros(MAX_PROTO_DATA_LEN))
  {
    hide HashMap.Map.Valid, Indexed, Zeros, Distinct;
    pa50 := new Analyzer(template50);
    pa52 := new Analyzer(template52);
  }

  /** do_command_0x301b. */
  method DoCommand0x301b(data: seq<uint8>, template50: seq<ProtoInfo>, template52: seq<ProtoInfo>)
    returns (printed: seq<seq<Line>>, ghost records: seq<seq<Field>>)
    requires 5 <= |data| < 0x1_0000
    requires Safe301b(PaState(Views(template50), Zeros(MAX_PROTO_DATA_LEN)),
             PaState(Views(template52), Zeros(MAX_PROTO_DATA_LEN)),
                      data, 5, data[4])
    ensures records == Unpack301b(PaState(Views(template50), Zeros(MAX_PROTO_DATA_LEN)),
                                  PaState(Views(template52), Zeros(MAX_PROTO_DATA_LEN)), data, 5, data[4])
    ensures printed == ShownRecords(records)
    ensures |printed| == |records| && forall i :: 0 <= i < |records| ==> |printed[i]| == |records[i]|
    ensures forall i, j :: 0 <= i < |records| && 0 <= j < |records[i]| ==>
              var f, line := records[i][j], printed[i][j];
              && line.name == f.name
              && (f.lenUnit != 8 || (f.len <= 4 && f.buf.None?) ==> line.value == Number(f.data))
              && (f.lenUnit == 8 && f.buf.Some? && f.len <= |f.buf.value| ==> line.value == Bytes(f.buf.value[..f.len]))
    ensures Views(template50) == old(Views(template50)) && Views(template52) == old(Views(template52))
  {
    hide Analyzer.Valid, ShownAll, Unpack301b, Safe301b, Zeros, State, Separate, Shown;
    var pa50, pa52 := CreatePair(template50, template52);
    var count: nat, i: nat, os: nat := data[4], 0, 5;
    printed, records := [], [];
    ghost var all := Unpack301b(State(pa50), State(pa52), data, 5, count);
    while i < count
      invariant 0 <= i <= count && pa50.Valid() && pa52.Valid() && Separate(pa50, pa52)
      invariant fresh(pa50) && fresh(pa50.fields) && fresh(pa50.protocolData)
      invariant fresh(pa52) && fresh(pa52.fields) && fresh(pa52.protocolData)
      invariant Safe301b(State(pa50), State(pa52), data, os, count - i)
      invariant all == records + Unpack301b(State(pa50), State(pa52), data, os, count - i)
      invariant printed == ShownRecords(records)
    {
      var lines, record, next := Turn301b(pa50, pa52, data, os, count - i);
      os, i := next, i + 1;
      HashTable.Regroup(records, [record], Unpack301b(State(pa50), State(pa52), data, os, count - i));
      printed, records := printed + [lines], records + [record];
    }
    Unpack301bDone(State(pa50), State(pa52), data, os);
    PrintedLines(printed, records);
  }
}
