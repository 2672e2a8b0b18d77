/** When the 0x301b command reads its records right and when it stays inside its memory, decided by the values packed
    into the container. */
module Placement301b {
  import opened CTypes
  import opened Format
  import opened Messages
  import opened ProtocolAnalyzer
  import opened Tables
  import opened Business
  import opened Records
  import opened Drift301b
  import opened Container301b

  // ---------- one record ----------

  /** The analyzer's buffer after a message: the message, then whatever longer ones before it left behind. */
  function Overlay(buf: seq<uint8>, fs: seq<Field>): (r: seq<uint8>)
    ensures |r| == |buf|
  {
    var n := MessageLen(fs);
    if n <= |buf| && n <= |Message(fs)| then Message(fs)[..n] + buf[n..] else buf
  }

  lemma {:induction false} LoadedIsOverlay(buf: seq<uint8>, id: uint8, data: seq<uint8>, os: nat, fs: seq<Field>)
    requires 2 <= MessageLen(fs) <= |Message(fs)| && MessageLen(fs) <= |buf| && RecordAt(data, os, fs)
    requires Message(fs)[0] == 0x30 && Message(fs)[1] == id && |Record(fs)| == MessageLen(fs) - 2
    ensures Loaded(buf, id, data, os, |Record(fs)|) == Overlay(buf, fs)
  {
    LoadedStartsWith(buf, id, data, os, fs);
    hide MessageLen, Message, Record;
    var dq, n := Loaded(buf, id, data, os, |Record(fs)|), MessageLen(fs);
    assert dq[..n] == Message(fs)[..n];
    assert dq[n..] == buf[n..];
    assert dq == dq[..n] + dq[n..];
  }

  /** A well-formed record at os, routed to an analyzer with a full-size buffer. */
  lemma {:induction false} PduOverlay(t: seq<Field>, id: uint8, fs: seq<Field>, p: PaState, data: seq<uint8>, os: nat)
    requires PduTable(t) && Pdu(t, id, fs) && |p.buffer| == MAX_PROTO_DATA_LEN && RecordAt(data, os, fs)
    ensures PduFits(p, data, os) && os + 1 < |data| && data[os] == |Record(fs)| && |fs| > 3
    ensures data[os + 1] == fs[2].data
    ensures var dq := Overlay(p.buffer, fs);
            && PduLoaded(p, id, data, os) == dq && |dq| == MAX_PROTO_DATA_LEN && StartsWith(dq, fs)
            && PduDecoded(p, id, data, os) == ParseFrom(p.fields, 0, dq)
            && PduNext(p, id, data, os) == PaState(Reset(ParseFrom(p.fields, 0, dq)), dq)
            && (PduSafe(p, id, data, os) <==> ParseSafe(p.fields, 0, dq))
  {
    hide *;
    HeadFields(t, id, fs);
    PduHead(t, id, fs);
    TagBytes(t, fs, id);
    PduRead(p, data, os, fs);
    LoadedStartsWith(p.buffer, id, data, os, fs);
    LoadedIsOverlay(p.buffer, id, data, os, fs);
    NextByParts(p, id, data, os);
    PduSafeParts(p, id, data, os);
  }

  lemma {:induction false} PduSafeParts(p: PaState, id: uint8, data: seq<uint8>, os: nat)
    requires PduFits(p, data, os)
    ensures PduSafe(p, id, data, os) <==> ParseSafe(p.fields, 0, PduLoaded(p, id, data, os))
  {
    hide ParseSafe;
  }

  // ---------- 0x3050, whatever the other analyzer does ----------

  /** slc_info of a record. */
  function Slc(fs: seq<Field>): nat { if |fs| > 6 then fs[6].data else 0 }

  /** Bytes of slc_data in the 0x3050 records in front of record i. */
  function SlcBefore(all: seq<seq<Field>>, i: nat): nat
    requires i <= |all|
  {
    if i == 0 then 0 else SlcBefore(all, i - 1) + if To50(all[i - 1]) then Slc(all[i - 1]) else 0
  }

  lemma {:induction false} SlcBeforeFromFront(all: seq<seq<Field>>, i: nat)
    requires 0 < i <= |all|
    ensures SlcBefore(all, i) == (if To50(all[0]) then Slc(all[0]) else 0) + SlcBefore(all[1..], i - 1)
  {
    hide To50, Slc;
    if i > 1 {
      SlcBeforeFromFront(all, i - 1);
      assert all[1..][i - 2] == all[i - 1];
    }
  }

  lemma {:induction false} BufferSize()
    ensures MAX_PROTO_DATA_LEN == 100
  {
  }

  lemma {:induction false} DriftPdu(fs: seq<Field>, p: PaState, data: seq<uint8>, os: nat, d: nat)
    requires Pdu(T3050(), 0x50, fs) && |p.buffer| == MAX_PROTO_DATA_LEN && RecordAt(data, os, fs) && At50(p.fields, d)
    ensures PduFits(p, data, os) && os + 1 < |data| && data[os] == |Record(fs)| && |fs| == 12
    ensures data[os + 1] == fs[2].data
    ensures |PduNext(p, 0x50, data, os).buffer| == MAX_PROTO_DATA_LEN
    ensures At50(PduNext(p, 0x50, data, os).fields, d + Slc(fs))
    ensures Placed(fs, PduDecoded(p, 0x50, data, os)) <==> d % 0x100 == 0
    ensures d % 0x100 == 0 ==> Delivered(fs, PduDecoded(p, 0x50, data, os))
    ensures PduDecoded(p, 0x50, data, os) == ParseFrom(p.fields, 0, Overlay(p.buffer, fs))
  {
    hide *;
    PduTables();
    BufferSize();
    PduOverlay(T3050(), 0x50, fs, p, data, os);
    HeadFields(T3050(), 0x50, fs);
    Arrival50(p.fields, d, fs, Overlay(p.buffer, fs));
    SlcOf(fs);
  }

  /** One turn, seen from the drift of the 0x3050 analyzer. */
  lemma {:induction false} DriftTurn(p50: PaState, p52: PaState, pre: seq<uint8>, all: seq<seq<Field>>, d: nat)
    returns (q50: PaState, q52: PaState, record: seq<Field>)
    requires Sized(p50, p52) && all != [] && ForEither(all[0]) && At50(p50.fields, d)
    ensures Sized(q50, q52)
    ensures At50(q50.fields, d + if To50(all[0]) then Slc(all[0]) else 0)
    ensures To50(all[0]) ==> (Placed(all[0], record) <==> d % 0x100 == 0)
    ensures To50(all[0]) && d % 0x100 == 0 ==> Delivered(all[0], record)
    ensures To50(all[0]) ==> record == ParseFrom(p50.fields, 0, Overlay(p50.buffer, all[0]))
    ensures Unpack301b(p50, p52, pre + Concat(all), |pre|, |all|)
         == [record]
            + Unpack301b(q50, q52, (pre + Record(all[0])) + Concat(all[1..]), |pre + Record(all[0])|, |all| - 1)
  {
    hide *;
    var fs, data, os := all[0], pre + Concat(all), |pre|;
    PduTables();
    Kind(fs);
    Records301b(pre, all);
    SizedParts(p50, p52);
    if To50(fs) {
      DriftPdu(fs, p50, data, os, d);
      q50, q52, record := PduNext(p50, 0x50, data, os), p52, PduDecoded(p50, 0x50, data, os);
    } else {
      PduOverlay(T3052(), 0x52, fs, p52, data, os);
      q50, q52, record := p50, PduNext(p52, 0x52, data, os), PduDecoded(p52, 0x52, data, os);
    }
    SizedParts(q50, q52);
    UnpackOnce(fs, p50, p52, q50, q52, record, data, os, |all|);
  }

  lemma {:induction false} SlcOf(fs: seq<Field>)
    requires |fs| > 6
    ensures Slc(fs) == fs[6].data
  {
  }

  lemma {:induction false} UnpackOnce(fs: seq<Field>, p50: PaState, p52: PaState, q50: PaState, q52: PaState,
                                      record: seq<Field>,
                                      data: seq<uint8>, os: nat, count: nat)
    requires count > 0 && os + 1 < |data| && |fs| > 3 && data[os + 1] == fs[2].data && data[os] == |Record(fs)|
    requires if To50(fs) then
               && PduFits(p50, data, os) && q50 == PduNext(p50, 0x50, data, os) && q52 == p52
               && record == PduDecoded(p50, 0x50, data, os)
             else
               && PduFits(p52, data, os) && q52 == PduNext(p52, 0x52, data, os) && q50 == p50
               && record == PduDecoded(p52, 0x52, data, os)
    ensures Unpack301b(p50, p52, data, os, count) == [record] + Unpack301b(q50, q52, data, os + |Record(fs)|, count - 1)
    ensures Safe301b(p50, p52, data, os, count)
       <==> (if To50(fs) then PduSafe(p50, 0x50, data, os) else PduSafe(p52, 0x52, data, os))
            && Safe301b(q50, q52, data, os + |Record(fs)|, count - 1)
  {
    hide PduNext, PduDecoded, PduSafe, PduFits, Record;
  }

  lemma {:induction false} PlacedByDrift(p50: PaState, p52: PaState, pre: seq<uint8>, all: seq<seq<Field>>, d: nat,
                                         i: nat)
    requires Sized(p50, p52) && i < |all| && (forall fs :: fs in all ==> ForEither(fs)) && At50(p50.fields, d)
    requires To50(all[i])
    ensures var records := Unpack301b(p50, p52, pre + Concat(all), |pre|, |all|);
            && i < |records| && (Placed(all[i], records[i]) <==> (d + SlcBefore(all, i)) % 0x100 == 0)
            && ((d + SlcBefore(all, i)) % 0x100 == 0 ==> Delivered(all[i], records[i]))
    decreases |all|
  {
    hide *;
    var q50, q52, record := DriftTurn(p50, p52, pre, all, d);
    if i == 0 {
      NothingBefore(all);
    } else {
      assert forall f :: f in all[1..] ==> f in all;
      SlcBeforeFromFront(all, i);
      PlacedByDrift(q50, q52, pre + Record(all[0]), all[1..], d + if To50(all[0]) then Slc(all[0]) else 0, i - 1);
    }
  }

  lemma {:induction false} NothingBefore(all: seq<seq<Field>>)
    ensures SlcBefore(all, 0) == 0
  {
  }

  lemma {:induction false} FreshDrift()
    ensures Sized(Fresh50(), Fresh52()) && At50(Fresh50().fields, 0) && At52(Fresh52().fields, 0, 0)
  {
    Entries3050();
    Entries3052();
    Bounds3050();
    hide T3050, T3052, ByteTable, MeasuredBy;
  }

  /** In any 0x301b command a 0x3050 record is looked for in the right place if and only if the slc_info values of the
      0x3050 records in front of it add up to a multiple of 256; then it is delivered. */
  lemma {:induction false} Placed3050Iff(header: seq<uint8>, all: seq<seq<Field>>, i: nat)
    requires |header| == 5 && i < |all| && To50(all[i]) && forall fs :: fs in all ==> ForEither(fs)
    ensures var records := Unpack301b(Fresh50(), Fresh52(), header + Concat(all), 5, |all|);
            && i < |records| && (Placed(all[i], records[i]) <==> SlcBefore(all, i) % 0x100 == 0)
            && (SlcBefore(all, i) % 0x100 == 0 ==> Delivered(all[i], records[i]))
  {
    hide *;
    FreshDrift();
    PlacedByDrift(Fresh50(), Fresh52(), header, all, 0, i);
  }

  // ---------- safety, and both kinds of record in a safe command ----------

  /** How far the two analyzers have drifted and what their buffers hold, computed from the records packed. */
  datatype Progress = Progress(d50: nat, buf50: seq<uint8>, d52: nat, e52: nat, buf52: seq<uint8>)

  predicate Full(s: Progress) { |s.buf50| == 100 == |s.buf52| }

  /** Everything the next record makes its analyzer read lies inside that analyzer's buffer. */
  predicate Room(s: Progress, fs: seq<Field>)
    requires Full(s)
  {
    if To50(fs) then Room50(s.d50, Overlay(s.buf50, fs)) else Room52(s.d52, s.e52, Overlay(s.buf52, fs))
  }

  function Onward(s: Progress, fs: seq<Field>): (r: Progress)
    requires Full(s)
    ensures Full(r)
  {
    if To50(fs) then s.(d50 := s.d50 + Slc(fs), buf50 := Overlay(s.buf50, fs))
    else
      var b := Overlay(s.buf52, fs);
      s.(d52 := s.d52 + Slc(fs), e52 := s.e52 + Both52(s.d52, b), buf52 := b)
  }

  predicate RoomForAll(s: Progress, all: seq<seq<Field>>)
    requires Full(s)
    decreases |all|
  {
    all == [] || (Room(s, all[0]) && RoomForAll(Onward(s, all[0]), all[1..]))
  }

  /** The analyzers are where the records so far have left them. */
  ghost predicate Matches(s: Progress, p50: PaState, p52: PaState) {
    && Full(s) && s.d50 <= 100 && s.d52 <= 100 && s.e52 <= 100 && Sized(p50, p52)
    && p50.buffer == s.buf50 && p52.buffer == s.buf52
    && At50(p50.fields, s.d50) && At52(p52.fields, s.d52, s.e52)
  }

  /** A 0x3050 record in a run without wrap-around. */
  lemma {:induction false} SafePdu50(fs: seq<Field>, p: PaState, data: seq<uint8>, os: nat, d: nat)
    requires Pdu(T3050(), 0x50, fs) && |p.buffer| == MAX_PROTO_DATA_LEN == 100 && RecordAt(data, os, fs)
    requires At50(p.fields, d) && d <= 100
    ensures PduFits(p, data, os) && os + 1 < |data| && data[os] == |Record(fs)| && |fs| == 12
    ensures data[os + 1] == fs[2].data
    ensures PduNext(p, 0x50, data, os).buffer == Overlay(p.buffer, fs)
    ensures At50(PduNext(p, 0x50, data, os).fields, d + Slc(fs))
    ensures PduSafe(p, 0x50, data, os) <==> Room50(d, Overlay(p.buffer, fs))
    ensures Room50(d, Overlay(p.buffer, fs)) ==> d + Slc(fs) <= 100
    ensures Placed(fs, PduDecoded(p, 0x50, data, os)) <==> AsNew(T3050(), p.fields)
    ensures AsNew(T3050(), PduNext(p, 0x50, data, os).fields) <==> AsNew(T3050(), p.fields) && NothingMoves(fs)
  {
    hide *;
    PduTables();
    PduOverlay(T3050(), 0x50, fs, p, data, os);
    HeadFields(T3050(), 0x50, fs);
    var dq := Overlay(p.buffer, fs);
    Arrival50(p.fields, d, fs, dq);
    SlcOf(fs);
    Sent3050(fs);
    Safe50(p.fields, d, dq);
    Room50Limits(d, dq);
    QuietRecord3050(fs);
    AsNewByDrift50(Reset(ParseFrom(p.fields, 0, dq)), d + Slc(fs));
    SmallDrift(d, Slc(fs));
  }

  lemma {:induction false} SmallDrift(d: nat, n: nat)
    requires d <= 100 && n <= 100
    ensures d % 0x100 == 0 <==> d == 0
    ensures (d + n) % 0x100 == 0 <==> d == 0 && n == 0
  {
  }

  lemma {:induction false} Room50Limits(d: nat, dq: seq<uint8>)
    requires |dq| == 100
    ensures Room50(d, dq) ==> d + dq[9] <= 87
  {
  }

  /** A 0x3052 record in a run without wrap-around. */
  lemma {:induction false} SafePdu52(fs: seq<Field>, p: PaState, data: seq<uint8>, os: nat, d: nat, e: nat)
    requires Pdu(T3052(), 0x52, fs) && |p.buffer| == MAX_PROTO_DATA_LEN == 100 && RecordAt(data, os, fs)
    requires At52(p.fields, d, e) && d <= 100 && e <= 100
    ensures PduFits(p, data, os) && os + 1 < |data| && data[os] == |Record(fs)| && |fs| == 13
    ensures data[os + 1] == fs[2].data
    ensures PduNext(p, 0x52, data, os).buffer == Overlay(p.buffer, fs)
    ensures PduSafe(p, 0x52, data, os) <==> Room52(d, e, Overlay(p.buffer, fs))
    ensures Room52(d, e, Overlay(p.buffer, fs)) ==>
              && d + Slc(fs) <= 100 && e + Both52(d, Overlay(p.buffer, fs)) <= 100
              && At52(PduNext(p, 0x52, data, os).fields, d + Slc(fs), e + Both52(d, Overlay(p.buffer, fs)))
              && (Placed(fs, PduDecoded(p, 0x52, data, os)) <==> AsNew(T3052(), p.fields))
              && (AsNew(T3052(), PduNext(p, 0x52, data, os).fields) <==> AsNew(T3052(), p.fields) && NothingMoves(fs))
  {
    hide *;
    PduTables();
    PduOverlay(T3052(), 0x52, fs, p, data, os);
    HeadFields(T3052(), 0x52, fs);
    var dq := Overlay(p.buffer, fs);
    Arrival52(p.fields, d, e, fs, dq);
    Sent3052(fs);
    SlcOf(fs);
    if Room52(d, e, dq) {
      Room52Limits(d, e, dq);
      AsNewByDrift52(Reset(ParseFrom(p.fields, 0, dq)), d + Slc(fs), e + Both52(d, dq));
      if AsNew(T3052(), p.fields) { AsNewAgainIff(T3052(), fs, p.fields, dq); }
    }
  }

  /** One turn of a run that has been safe so far: it is safe if and only if there is room, and then the record is in
      its place if and only if its analyzer is as new, and leaves it so if and only if it moves nothing. */
  lemma {:induction false} SafeTurn(s: Progress, p50: PaState, p52: PaState, pre: seq<uint8>, all: seq<seq<Field>>)
    returns (q50: PaState, q52: PaState, record: seq<Field>)
    requires Matches(s, p50, p52) && Full(s) && all != [] && ForEither(all[0])
    ensures Unpack301b(p50, p52, pre + Concat(all), |pre|, |all|)
         == [record]
            + Unpack301b(q50, q52, (pre + Record(all[0])) + Concat(all[1..]), |pre + Record(all[0])|, |all| - 1)
    ensures Safe301b(p50, p52, pre + Concat(all), |pre|, |all|)
       <==> Room(s, all[0])
            && Safe301b(q50, q52, (pre + Record(all[0])) + Concat(all[1..]), |pre + Record(all[0])|, |all| - 1)
    ensures Room(s, all[0]) ==> Matches(Onward(s, all[0]), q50, q52)
    ensures Room(s, all[0]) ==> (Placed(all[0], record) <==> HolderAsNew(all[0], p50, p52))
    ensures Room(s, all[0]) ==> NewStays(all[0], p50, p52, q50, q52)
  {
    hide *;
    var fs, data, os := all[0], pre + Concat(all), |pre|;
    PduTables();
    Kind(fs);
    BufferSize();
    Records301b(pre, all);
    MatchParts(s, p50, p52);
    if To50(fs) {
      SafePdu50(fs, p50, data, os, s.d50);
      q50, q52, record := PduNext(p50, 0x50, data, os), p52, PduDecoded(p50, 0x50, data, os);
    } else {
      SafePdu52(fs, p52, data, os, s.d52, s.e52);
      q50, q52, record := p50, PduNext(p52, 0x52, data, os), PduDecoded(p52, 0x52, data, os);
    }
    UnpackOnce(fs, p50, p52, q50, q52, record, data, os, |all|);
    TurnByParts(s, fs, p50, p52, q50, q52);
  }

  /** An analyzer is as new after the turn if and only if it was and the record did not move its fields. */
  ghost predicate NewStays(fs: seq<Field>, p50: PaState, p52: PaState, q50: PaState, q52: PaState) {
    && (AsNew(T3050(), q50.fields) <==> AsNew(T3050(), p50.fields) && (To50(fs) ==> NothingMoves(fs)))
    && (AsNew(T3052(), q52.fields) <==> AsNew(T3052(), p52.fields) && (!To50(fs) ==> NothingMoves(fs)))
  }

  lemma {:induction false} MatchParts(s: Progress, p50: PaState, p52: PaState)
    requires Full(s)
    ensures Matches(s, p50, p52)
       <==> s.d50 <= 100 && s.d52 <= 100 && s.e52 <= 100 && |p50.buffer| == MAX_PROTO_DATA_LEN == |p52.buffer|
            && p50.buffer == s.buf50 && p52.buffer == s.buf52
            && At50(p50.fields, s.d50) && At52(p52.fields, s.d52, s.e52)
  {
    hide At50, At52;
  }

  lemma {:induction false} TurnByParts(s: Progress, fs: seq<Field>, p50: PaState, p52: PaState, q50: PaState,
                                       q52: PaState)
    requires Full(s) && Matches(s, p50, p52)
    requires To50(fs) ==>
               && q52 == p52 && q50.buffer == Overlay(s.buf50, fs) && At50(q50.fields, s.d50 + Slc(fs))
               && (Room50(s.d50, Overlay(s.buf50, fs)) ==> s.d50 + Slc(fs) <= 100)
               && (AsNew(T3050(), q50.fields) <==> AsNew(T3050(), p50.fields) && NothingMoves(fs))
    requires !To50(fs) ==>
               && q50 == p50 && q52.buffer == Overlay(s.buf52, fs)
               && (Room52(s.d52, s.e52, Overlay(s.buf52, fs)) ==>
                     && s.d52 + Slc(fs) <= 100 && s.e52 + Both52(s.d52, Overlay(s.buf52, fs)) <= 100
                     && At52(q52.fields, s.d52 + Slc(fs), s.e52 + Both52(s.d52, Overlay(s.buf52, fs)))
                     && (AsNew(T3052(), q52.fields) <==> AsNew(T3052(), p52.fields) && NothingMoves(fs)))
    ensures Room(s, fs) ==> Matches(Onward(s, fs), q50, q52) && NewStays(fs, p50, p52, q50, q52)
    ensures Room(s, fs)
       <==> if To50(fs) then Room50(s.d50, Overlay(s.buf50, fs)) else Room52(s.d52, s.e52, Overlay(s.buf52, fs))
    ensures HolderAsNew(fs, p50, p52) <==> if To50(fs) then AsNew(T3050(), p50.fields) else AsNew(T3052(), p52.fields)
  {
    hide At50, At52, AsNew, NothingMoves, Room50, Room52, Both52, Overlay, T3050, T3052;
  }

  lemma {:induction false} SafeByRoom(s: Progress, p50: PaState, p52: PaState, pre: seq<uint8>, all: seq<seq<Field>>)
    requires Matches(s, p50, p52) && Full(s) && forall fs :: fs in all ==> ForEither(fs)
    ensures Safe301b(p50, p52, pre + Concat(all), |pre|, |all|) <==> RoomForAll(s, all)
    decreases |all|
  {
    hide *;
    RoomUnfold(s, all);
    if all == [] {
      Unpack301bDone(p50, p52, pre + Concat(all), |pre|);
    } else {
      var q50, q52, record := SafeTurn(s, p50, p52, pre, all);
      assert forall f :: f in all[1..] ==> f in all;
      if Room(s, all[0]) { SafeByRoom(Onward(s, all[0]), q50, q52, pre + Record(all[0]), all[1..]); }
    }
  }

  lemma {:induction false} RoomUnfold(s: Progress, all: seq<seq<Field>>)
    requires Full(s)
    ensures RoomForAll(s, all) <==> all == [] || (Room(s, all[0]) && RoomForAll(Onward(s, all[0]), all[1..]))
  {
  }

  lemma {:induction false} PlacedByRoom(s: Progress, p50: PaState, p52: PaState, pre: seq<uint8>,
                                        all: seq<seq<Field>>, i: nat)
    requires Matches(s, p50, p52) && Full(s) && i < |all| && forall fs :: fs in all ==> ForEither(fs)
    requires RoomForAll(s, all)
    ensures var records := Unpack301b(p50, p52, pre + Concat(all), |pre|, |all|);
            i < |records| && (Placed(all[i], records[i]) <==> HolderAsNew(all[i], p50, p52) && Quiet(all, i))
    decreases |all|
  {
    hide *;
    RoomUnfold(s, all);
    var q50, q52, record := SafeTurn(s, p50, p52, pre, all);
    if i == 0 {
      QuietFirst(all);
    } else {
      assert forall f :: f in all[1..] ==> f in all;
      PlacedByRoom(Onward(s, all[0]), q50, q52, pre + Record(all[0]), all[1..], i - 1);
      QuietLater(all, i);
      HolderOnward(all[0], all[i], p50, p52, q50, q52);
    }
  }

  lemma {:induction false} QuietFirst(all: seq<seq<Field>>)
    requires all != []
    ensures Quiet(all, 0)
  {
  }

  lemma {:induction false} HolderOnward(fs: seq<Field>, gs: seq<Field>, p50: PaState, p52: PaState, q50: PaState,
                                        q52: PaState)
    requires NewStays(fs, p50, p52, q50, q52)
    ensures HolderAsNew(gs, q50, q52) <==> HolderAsNew(gs, p50, p52) && ((To50(fs) <==> To50(gs)) ==> NothingMoves(fs))
  {
    hide AsNew, NothingMoves, T3050, T3052;
  }

  // ---------- the command ----------

  /** Two new analyzers. */
  function Start(): (s: Progress)
    ensures Full(s)
  {
    Progress(0, Zeros(100), 0, 0, Zeros(100))
  }

  lemma {:induction false} StartMatches()
    ensures Matches(Start(), Fresh50(), Fresh52())
  {
    FreshDrift();
    hide At50, At52;
  }

  /** A 0x301b command stays inside its memory if and only if for every record, given the drift left by those in front
      of it, the fields behind slc_data and lc_data and the data behind them fit the 100-byte buffer. */
  lemma {:induction false} Safe301bIff(header: seq<uint8>, all: seq<seq<Field>>)
    requires |header| == 5 && forall fs :: fs in all ==> ForEither(fs)
    ensures Safe301b(Fresh50(), Fresh52(), header + Concat(all), 5, |all|) <==> RoomForAll(Start(), all)
  {
    hide *;
    StartMatches();
    SafeByRoom(Start(), Fresh50(), Fresh52(), header, all);
  }

  /** In a command that does, a record of either kind is looked for in the right place if and only if no record of its
      kind in front of it has moved a field. */
  lemma {:induction false} Placed301bIff(header: seq<uint8>, all: seq<seq<Field>>, i: nat)
    requires |header| == 5 && i < |all| && forall fs :: fs in all ==> ForEither(fs)
    requires Safe301b(Fresh50(), Fresh52(), header + Concat(all), 5, |all|)
    ensures var records := Unpack301b(Fresh50(), Fresh52(), header + Concat(all), 5, |all|);
            i < |records| && (Placed(all[i], records[i]) <==> Quiet(all, i))
  {
    hide *;
    StartMatches();
    Safe301bIff(header, all);
    FreshHolders(all[i]);
    PlacedByRoom(Start(), Fresh50(), Fresh52(), header, all, i);
  }

  /** So a command is unsafe as soon as the slc_info values of the 0x3050 records up to one of them exceed 87. */
  lemma {:induction false} SlcBounded(s: Progress, all: seq<seq<Field>>, i: nat)
    requires Full(s) && RoomForAll(s, all) && i < |all| && To50(all[i]) && forall fs :: fs in all ==> ForEither(fs)
    ensures s.d50 + SlcBefore(all, i) + Slc(all[i]) <= 87
    decreases |all|
  {
    hide *;
    RoomUnfold(s, all);
    if i == 0 {
      NothingBefore(all);
      RoomBounds(s, all[0]);
    } else {
      assert forall f :: f in all[1..] ==> f in all;
      SlcBeforeFromFront(all, i);
      OnwardDrift(s, all[0]);
      SlcBounded(Onward(s, all[0]), all[1..], i - 1);
    }
  }

  lemma {:induction false} OnwardDrift(s: Progress, fs: seq<Field>)
    requires Full(s)
    ensures Onward(s, fs).d50 == s.d50 + if To50(fs) then Slc(fs) else 0
  {
    hide Overlay, Both52, To50, Slc;
  }

  lemma {:induction false} RoomBounds(s: Progress, fs: seq<Field>)
    requires Full(s) && Room(s, fs) && To50(fs) && ForEither(fs)
    ensures s.d50 + Slc(fs) <= 87
  {
    hide Overlay, T3050, T3052, AsNew, Pdu;
    Kind(fs);
    PduTables();
    HeadFields(T3050(), 0x50, fs);
    OverlayStarts(s.buf50, fs);
    SlcByteOf(fs, Overlay(s.buf50, fs));
    Room50Limits(s.d50, Overlay(s.buf50, fs));
  }

  lemma {:induction false} OverlayStarts(buf: seq<uint8>, fs: seq<Field>)
    requires Sendable(T3050(), fs) && |buf| == 100
    ensures StartsWith(Overlay(buf, fs), fs)
  {
    hide ByteTable, ValuesFit, MessageLen, Message, T3050, Filled;
    Table3050IsByteTable();
    FreshIsAsNew(T3050());
    WholeMessage(T3050(), fs, T3050());
    var n := MessageLen(fs);
    assert Overlay(buf, fs)[..n] == Message(fs)[..n];
  }

  lemma {:induction false} SlcByteOf(fs: seq<Field>, dq: seq<uint8>)
    requires Sendable(T3050(), fs) && StartsWith(dq, fs) && |dq| == 100
    ensures dq[9] == Slc(fs)
  {
    hide *;
    Entries3050();
    Sent3050(fs);
    SlcByte(T3050(), fs, dq);
    SlcOf(fs);
  }

  /** A safe command carries at most 87 bytes of slc_data in its 0x3050 records, up to and including any of them. */
  lemma {:induction false} SafeBoundsSlc(header: seq<uint8>, all: seq<seq<Field>>, i: nat)
    requires |header| == 5 && i < |all| && To50(all[i]) && forall fs :: fs in all ==> ForEither(fs)
    requires Safe301b(Fresh50(), Fresh52(), header + Concat(all), 5, |all|)
    ensures SlcBefore(all, i) + Slc(all[i]) <= 87
  {
    hide *;
    Safe301bIff(header, all);
    SlcBounded(Start(), all, i);
    assert Start().d50 == 0 by { StartDrift(); }
  }

  lemma {:induction false} StartDrift()
    ensures Start().d50 == 0
  {
  }

  /** The 0x301b command on any well-formed container: one decoded record per record packed; safe exactly when there is
      room; and in a safe command a record is looked for in the right place exactly when no record of its kind in front
      of it moved a field, and then it is delivered. */
  lemma {:induction false} Command301b(header: seq<uint8>, all: seq<seq<Field>>)
    requires |header| == 5 && header[4] == |all| && forall fs :: fs in all ==> ForEither(fs)
    ensures var data := header + Concat(all);
            var records := Unpack301b(Fresh50(), Fresh52(), data, 5, data[4]);
            && |records| == |all|
            && (Safe301b(Fresh50(), Fresh52(), data, 5, data[4]) <==> RoomForAll(Start(), all))
            && forall i :: 0 <= i < |all| ==>
                 && (RoomForAll(Start(), all) ==> (Placed(all[i], records[i]) <==> Quiet(all, i)))
                 && (Quiet(all, i) ==> Delivered(all[i], records[i]))
  {
    assert (header + Concat(all))[4] == header[4];
    hide *;
    Container301bRoundTrip(header, all);
    Safe301bIff(header, all);
    var records := Unpack301b(Fresh50(), Fresh52(), header + Concat(all), 5, |all|);
    if RoomForAll(Start(), all) {
      forall i | 0 <= i < |all| ensures Placed(all[i], records[i]) <==> Quiet(all, i) { Placed301bIff(header, all, i); }
    }
  }
}
