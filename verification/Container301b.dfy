/** What the 0x301b loop makes of a well-formed container: each record goes to one of two reused analyzers, which
    decode faithfully for as long as no record moves a field. */
module Container301b {
  import opened CTypes
  import opened Format
  import opened RoundTrip
  import opened Messages
  import opened Reuse
  import opened ProtocolAnalyzer
  import opened Tables
  import opened Business
  import opened Records
  import opened Drift301b

  /** A message whose len field counts the record and whose emb_flag is as required. */
  ghost predicate Pdu(t: seq<Field>, id: uint8, fs: seq<Field>) {
    Tagged(t, fs, id) && |t| > 3 && 4 <= MessageLen(fs) && fs[1].data == MessageLen(fs) - 2
  }

  ghost predicate For50(fs: seq<Field>) { Pdu(T3050(), 0x50, fs) && fs[2].data == 0 }

  ghost predicate For52(fs: seq<Field>) { Pdu(T3052(), 0x52, fs) && fs[2].data != 0 }

  ghost predicate ForEither(fs: seq<Field>) { For50(fs) || For52(fs) }

  /** The loop's routing test, on the values sent: a record whose emb_flag is 0 goes to the 0x3050 analyzer. */
  predicate To50(fs: seq<Field>) { |fs| > 2 && fs[2].data == 0 }

  /** The bytes at positions 2 and 3 are fixed one-byte fields. */
  ghost predicate PduTable(t: seq<Field>) {
    && ByteTable(t) && |t| > 3
    && !t[0].vlenFlag && !t[1].vlenFlag && t[1].bytePos == 2 && t[1].len == 1
    && !t[2].vlenFlag && t[2].bytePos == 3 && t[2].len == 1
  }

  lemma {:induction false} PduTables()
    ensures PduTable(T3050()) && PduTable(T3052()) && |T3050()| == 12 && |T3052()| == 13
  {
    Table3050IsByteTable();
    Table3052IsByteTable();
    hide ByteTable;
  }

  lemma {:induction false} HeadFields(t: seq<Field>, id: uint8, fs: seq<Field>)
    requires PduTable(t) && Pdu(t, id, fs)
    ensures ByteTable(t) && Tagged(t, fs, id) && Sendable(t, fs) && |t| > 3 && |fs| == |t|
    ensures 4 <= MessageLen(fs) <= MAX_PROTO_DATA_LEN && fs[1].data == MessageLen(fs) - 2
    ensures FinalLen(fs, 1) == FinalLen(fs, 2) == 1
    ensures fs[1].bytePos + Pending(fs, 0, 1) == 2 && fs[2].bytePos + Pending(fs, 0, 2) == 3
  {
    hide ByteTable, ValuesFit, MessageLen;
    assert Pending(fs, 0, 0) == 0 && Own(fs, 0) == 0 && Own(fs, 1) == 0;
    assert Pending(fs, 0, 1) == 0 && Pending(fs, 0, 2) == Pending(fs, 0, 1) + Own(fs, 1);
  }

  /** A record starts with its own size and the flag that routes it. */
  lemma {:induction false} PduHead(t: seq<Field>, id: uint8, fs: seq<Field>)
    requires PduTable(t) && Pdu(t, id, fs)
    ensures |fs| > 3 && |Record(fs)| >= 2 && Record(fs)[0] == |Record(fs)| && Record(fs)[1] == fs[2].data
  {
    hide *;
    HeadFields(t, id, fs);
    TagBytes(t, fs, id);
    NumberInMessage(t, fs, 1);
    NumberInMessage(t, fs, 2);
    OneByte(Message(fs), 2);
    OneByte(Message(fs), 3);
    HeadOfRecord(fs);
  }

  lemma {:induction false} HeadOfRecord(fs: seq<Field>)
    requires 4 <= MessageLen(fs) <= |Message(fs)|
    ensures |Record(fs)| >= 2 && Record(fs)[0] == Message(fs)[2] && Record(fs)[1] == Message(fs)[3]
  {
    hide MessageLen, Message;
  }

  lemma {:induction false} PduRead(p: PaState, data: seq<uint8>, os: nat, fs: seq<Field>)
    requires RecordAt(data, os, fs) && 2 <= |Record(fs)| == Record(fs)[0] && |Record(fs)| + 2 <= |p.buffer|
    ensures PduFits(p, data, os) && data[os] == |Record(fs)| && data[os + 1] == Record(fs)[1]
  {
    hide Record;
    assert data[os..os + |Record(fs)|][0] == data[os] && data[os..os + |Record(fs)|][1] == data[os + 1];
  }

  /** What a turn does for a record that arrives at an analyzer laid out as new. */
  ghost predicate TurnGood(t: seq<Field>, fs: seq<Field>, p: PaState, next: PaState, record: seq<Field>) {
    AsNew(t, p.fields) ==> Delivered(fs, record) && (NothingMoves(fs) ==> AsNew(t, next.fields))
  }

  lemma {:induction false} PduTurn(t: seq<Field>, id: uint8, fs: seq<Field>, p: PaState, data: seq<uint8>, os: nat)
    requires PduTable(t) && Pdu(t, id, fs) && |p.buffer| == MAX_PROTO_DATA_LEN && RecordAt(data, os, fs)
    ensures PduFits(p, data, os) && os + 1 < |data| && data[os] == |Record(fs)| && |fs| > 3
    ensures data[os + 1] == fs[2].data
    ensures |PduNext(p, id, data, os).buffer| == MAX_PROTO_DATA_LEN
    ensures TurnGood(t, fs, p, PduNext(p, id, data, os), PduDecoded(p, id, data, os))
    ensures AsNew(t, p.fields) ==> PduSafe(p, id, data, os)
  {
    hide *;
    HeadFields(t, id, fs);
    PduHead(t, id, fs);
    TagBytes(t, fs, id);
    PduRead(p, data, os, fs);
    LoadedStartsWith(p.buffer, id, data, os, fs);
    NextByParts(p, id, data, os);
    if AsNew(t, p.fields) {
      RecordDelivered(t, fs, p.fields, PduLoaded(p, id, data, os));
      AsNewAgainIff(t, fs, p.fields, PduLoaded(p, id, data, os));
    }
    GoodByParts(t, fs, p, PduNext(p, id, data, os), PduDecoded(p, id, data, os));
  }

  lemma {:induction false} NextByParts(p: PaState, id: uint8, data: seq<uint8>, os: nat)
    requires PduFits(p, data, os)
    ensures os + 1 < |data| && data[os] + 2 <= |p.buffer| && os + data[os] <= |data|
    ensures var loaded := PduLoaded(p, id, data, os);
            && loaded == Loaded(p.buffer, id, data, os, data[os]) && |loaded| == |p.buffer|
            && PduDecoded(p, id, data, os) == ParseFrom(p.fields, 0, loaded)
            && PduNext(p, id, data, os) == PaState(Reset(PduDecoded(p, id, data, os)), loaded)
            && (ParseSafe(p.fields, 0, loaded) ==> PduSafe(p, id, data, os))
  {
    hide ParseFrom, ParseSafe, Reset;
  }

  lemma {:induction false} GoodByParts(t: seq<Field>, fs: seq<Field>, p: PaState, next: PaState, record: seq<Field>)
    requires AsNew(t, p.fields) ==> Delivered(fs, record) && (AsNew(t, next.fields) <==> NothingMoves(fs))
    ensures TurnGood(t, fs, p, next, record)
  {
  }

  // ---------- the loop ----------

  /** Analyzer buffers have their full size. */
  predicate Sized(p50: PaState, p52: PaState) { |p50.buffer| == MAX_PROTO_DATA_LEN == |p52.buffer| }

  /** The analyzer a record goes to is laid out as new. */
  ghost predicate HolderAsNew(fs: seq<Field>, p50: PaState, p52: PaState) {
    if To50(fs) then AsNew(T3050(), p50.fields) else AsNew(T3052(), p52.fields)
  }

  /** One turn: the analyzer of the other kind is untouched. */
  ghost predicate Routed(fs: seq<Field>, p50: PaState, p52: PaState, q50: PaState, q52: PaState, record: seq<Field>) {
    if To50(fs) then q52 == p52 && TurnGood(T3050(), fs, p50, q50, record)
    else q50 == p50 && TurnGood(T3052(), fs, p52, q52, record)
  }

  lemma {:induction false} Kind(fs: seq<Field>)
    requires ForEither(fs)
    ensures To50(fs) ==> Pdu(T3050(), 0x50, fs) && fs[2].data == 0
    ensures !To50(fs) ==> |fs| == 13 && Pdu(T3052(), 0x52, fs) && fs[2].data != 0
  {
    PduTables();
    hide T3050, T3052, ByteTable, ValuesFit, MessageLen;
  }

  /** The loop's first turn on a container, and the container that is left. */
  lemma {:induction false} FirstTurn(p50: PaState, p52: PaState, pre: seq<uint8>, all: seq<seq<Field>>)
    returns (q50: PaState, q52: PaState, record: seq<Field>)
    requires Sized(p50, p52) && all != [] && ForEither(all[0])
    ensures Sized(q50, q52) && Routed(all[0], p50, p52, q50, q52, record)
    ensures var data, rest := pre + Concat(all), (pre + Record(all[0])) + Concat(all[1..]);
            var next := |pre + Record(all[0])|;
            && Unpack301b(p50, p52, data, |pre|, |all|) == [record] + Unpack301b(q50, q52, rest, next, |all| - 1)
            && (HolderAsNew(all[0], p50, p52) && Safe301b(q50, q52, rest, next, |all| - 1)
                ==> Safe301b(p50, p52, data, |pre|, |all|))
  {
    hide *;
    var fs, data, os := all[0], pre + Concat(all), |pre|;
    PduTables();
    Kind(fs);
    Records301b(pre, all);
    assert |p50.buffer| == MAX_PROTO_DATA_LEN == |p52.buffer| by { SizedParts(p50, p52); }
    if To50(fs) {
      PduTurn(T3050(), 0x50, fs, p50, data, os);
      q50, q52, record := PduNext(p50, 0x50, data, os), p52, PduDecoded(p50, 0x50, data, os);
    } else {
      PduTurn(T3052(), 0x52, fs, p52, data, os);
      q50, q52, record := p50, PduNext(p52, 0x52, data, os), PduDecoded(p52, 0x52, data, os);
    }
    Unpack301bStep(fs, p50, p52, q50, q52, record, data, os, |all|);
  }

  lemma {:induction false} Records301b(pre: seq<uint8>, all: seq<seq<Field>>)
    requires all != []
    ensures RecordAt(pre + Concat(all), |pre|, all[0])
    ensures pre + Concat(all) == (pre + Record(all[0])) + Concat(all[1..])
    ensures |pre + Record(all[0])| == |pre| + |Record(all[0])|
  {
    FirstRecordAt(pre, all);
    hide Record, Concat;
  }

  lemma {:induction false} SizedParts(p50: PaState, p52: PaState)
    ensures Sized(p50, p52) <==> |p50.buffer| == MAX_PROTO_DATA_LEN == |p52.buffer|
  {
  }

  lemma {:induction false} Unpack301bStep(fs: seq<Field>, p50: PaState, p52: PaState, q50: PaState, q52: PaState,
                                          record: seq<Field>,
                                          data: seq<uint8>, os: nat, count: nat)
    requires count > 0 && Sized(p50, p52) && os + 1 < |data| && |fs| > 3 && data[os + 1] == fs[2].data
    requires data[os] == |Record(fs)|
    requires if To50(fs) then
               && PduFits(p50, data, os) && q50 == PduNext(p50, 0x50, data, os) && q52 == p52
               && record == PduDecoded(p50, 0x50, data, os)
               && |q50.buffer| == MAX_PROTO_DATA_LEN && TurnGood(T3050(), fs, p50, q50, record)
               && (AsNew(T3050(), p50.fields) ==> PduSafe(p50, 0x50, data, os))
             else
               && PduFits(p52, data, os) && q52 == PduNext(p52, 0x52, data, os) && q50 == p50
               && record == PduDecoded(p52, 0x52, data, os)
               && |q52.buffer| == MAX_PROTO_DATA_LEN && TurnGood(T3052(), fs, p52, q52, record)
               && (AsNew(T3052(), p52.fields) ==> PduSafe(p52, 0x52, data, os))
    ensures Sized(q50, q52) && Routed(fs, p50, p52, q50, q52, record)
    ensures Unpack301b(p50, p52, data, os, count) == [record] + Unpack301b(q50, q52, data, os + |Record(fs)|, count - 1)
    ensures HolderAsNew(fs, p50, p52) && Safe301b(q50, q52, data, os + |Record(fs)|, count - 1) ==>
            Safe301b(p50, p52, data, os, count)
  {
    hide T3050, T3052, PduNext, PduDecoded, PduSafe, PduFits, TurnGood, AsNew, Record;
  }

  /** Records of the same kind in front of record i have moved no field. */
  ghost predicate Quiet(all: seq<seq<Field>>, i: nat)
    requires i < |all|
  {
    forall k :: 0 <= k < i && (To50(all[k]) <==> To50(all[i])) ==> NothingMoves(all[k])
  }

  lemma {:induction false} QuietLater(all: seq<seq<Field>>, i: nat)
    requires 0 < i < |all|
    ensures Quiet(all, i) <==> Quiet(all[1..], i - 1) && ((To50(all[0]) <==> To50(all[i])) ==> NothingMoves(all[0]))
  {
    hide NothingMoves;
    var rest := all[1..];
    assert forall k :: 0 <= k < i ==> rest[k] == all[k + 1];
    assert forall k :: 0 < k <= i ==> all[k] == rest[k - 1];
  }

  lemma {:induction false} HolderLater(fs: seq<Field>, gs: seq<Field>, p50: PaState, p52: PaState, q50: PaState,
                                       q52: PaState, record: seq<Field>)
    requires Routed(fs, p50, p52, q50, q52, record) && HolderAsNew(gs, p50, p52)
    requires (To50(fs) <==> To50(gs)) ==> NothingMoves(fs)
    ensures HolderAsNew(gs, q50, q52)
  {
    hide T3050, T3052, AsNew, NothingMoves;
  }

  lemma {:induction false} HolderNow(fs: seq<Field>, p50: PaState, p52: PaState, q50: PaState, q52: PaState,
                                     record: seq<Field>)
    requires Routed(fs, p50, p52, q50, q52, record) && HolderAsNew(fs, p50, p52)
    ensures Delivered(fs, record)
  {
    hide T3050, T3052, AsNew, NothingMoves, Delivered;
  }

  /** Record i is delivered if the analyzer it goes to starts as new and no earlier record of its kind moved a field,
      whatever happens on the other analyzer. */
  lemma {:induction false} UnpackDelivers(p50: PaState, p52: PaState, pre: seq<uint8>, all: seq<seq<Field>>, i: nat)
    requires Sized(p50, p52) && i < |all| && forall fs :: fs in all ==> ForEither(fs)
    ensures var records := Unpack301b(p50, p52, pre + Concat(all), |pre|, |all|);
            i < |records| && (Quiet(all, i) && HolderAsNew(all[i], p50, p52) ==> Delivered(all[i], records[i]))
    decreases |all|
  {
    hide *;
    var q50, q52, record := FirstTurn(p50, p52, pre, all);
    if i == 0 {
      if HolderAsNew(all[0], p50, p52) { HolderNow(all[0], p50, p52, q50, q52, record); }
    } else {
      assert forall f :: f in all[1..] ==> f in all;
      UnpackDelivers(q50, q52, pre + Record(all[0]), all[1..], i - 1);
      QuietLater(all, i);
      if Quiet(all, i) && HolderAsNew(all[i], p50, p52) { HolderLater(all[0], all[i], p50, p52, q50, q52, record); }
    }
  }

  lemma {:induction false} UnpackCount(p50: PaState, p52: PaState, pre: seq<uint8>, all: seq<seq<Field>>)
    requires Sized(p50, p52) && forall fs :: fs in all ==> ForEither(fs)
    ensures |Unpack301b(p50, p52, pre + Concat(all), |pre|, |all|)| == |all|
    decreases |all|
  {
    hide *;
    if all == [] {
      Unpack301bDone(p50, p52, pre + Concat(all), |pre|);
    } else {
      var q50, q52, record := FirstTurn(p50, p52, pre, all);
      assert forall f :: f in all[1..] ==> f in all;
      UnpackCount(q50, q52, pre + Record(all[0]), all[1..]);
    }
  }

  lemma {:induction false} HoldersLater(all: seq<seq<Field>>, p50: PaState, p52: PaState, q50: PaState, q52: PaState,
                                        record: seq<Field>)
    requires all != [] && Routed(all[0], p50, p52, q50, q52, record)
    requires forall i :: 0 <= i < |all| ==> Quiet(all, i) && HolderAsNew(all[i], p50, p52)
    ensures forall i :: 0 <= i < |all| - 1 ==> Quiet(all[1..], i) && HolderAsNew(all[1..][i], q50, q52)
  {
    hide T3050, T3052, AsNew, NothingMoves, Quiet, HolderAsNew, Routed;
    forall i | 0 <= i < |all| - 1 ensures Quiet(all[1..], i) && HolderAsNew(all[1..][i], q50, q52) {
      assert Quiet(all, i + 1) && HolderAsNew(all[i + 1], p50, p52) && all[1..][i] == all[i + 1];
      QuietLater(all, i + 1);
      HolderLater(all[0], all[i + 1], p50, p52, q50, q52, record);
    }
  }

  /** If that holds for every record the loop never leaves the container or a buffer. */
  lemma {:induction false} UnpackSafe(p50: PaState, p52: PaState, pre: seq<uint8>, all: seq<seq<Field>>)
    requires Sized(p50, p52) && forall fs :: fs in all ==> ForEither(fs)
    requires forall i :: 0 <= i < |all| ==> Quiet(all, i) && HolderAsNew(all[i], p50, p52)
    ensures Safe301b(p50, p52, pre + Concat(all), |pre|, |all|)
    decreases |all|
  {
    hide *;
    if all == [] {
      Unpack301bDone(p50, p52, pre + Concat(all), |pre|);
    } else {
      var q50, q52, record := FirstTurn(p50, p52, pre, all);
      assert forall f :: f in all[1..] ==> f in all;
      HoldersLater(all, p50, p52, q50, q52, record);
      assert forall i :: 0 <= i < |all[1..]| ==> Quiet(all[1..], i) && HolderAsNew(all[1..][i], q50, q52);
      UnpackSafe(q50, q52, pre + Record(all[0]), all[1..]);
    }
  }

  // ---------- the command ----------

  function Fresh50(): PaState { PaState(T3050(), Zeros(MAX_PROTO_DATA_LEN)) }

  function Fresh52(): PaState { PaState(T3052(), Zeros(MAX_PROTO_DATA_LEN)) }

  lemma {:induction false} FreshHolders(fs: seq<Field>)
    ensures Sized(Fresh50(), Fresh52()) && HolderAsNew(fs, Fresh50(), Fresh52())
  {
    FreshIsAsNew(T3050());
    FreshIsAsNew(T3052());
    hide T3050, T3052, AsNew;
  }

  /** The 0x301b command: as many records are decoded as were packed; each is delivered as long as no earlier record of
      its kind carried slc_data (or, for 0x3052, lc_data) - in particular the first of each kind always is - and if
      that holds throughout, the loop stays inside its memory. */
  lemma {:induction false} Container301bRoundTrip(header: seq<uint8>, all: seq<seq<Field>>)
    requires |header| == 5 && header[4] == |all| && forall fs :: fs in all ==> ForEither(fs)
    ensures var data := header + Concat(all);
            var records := Unpack301b(Fresh50(), Fresh52(), data, 5, data[4]);
            && |records| == |all|
            && (forall i :: 0 <= i < |all| && Quiet(all, i) ==> Delivered(all[i], records[i]))
            && ((forall i :: 0 <= i < |all| ==> Quiet(all, i)) ==> Safe301b(Fresh50(), Fresh52(), data, 5, data[4]))
  {
    assert (header + Concat(all))[4] == header[4];
    hide *;
    FreshHolders([]);
    UnpackCount(Fresh50(), Fresh52(), header, all);
    var records := Unpack301b(Fresh50(), Fresh52(), header + Concat(all), 5, |all|);
    forall i | 0 <= i < |all| && Quiet(all, i) ensures Delivered(all[i], records[i]) {
      FreshHolders(all[i]);
      UnpackDelivers(Fresh50(), Fresh52(), header, all, i);
    }
    if forall i :: 0 <= i < |all| ==> Quiet(all, i) {
      forall i | 0 <= i < |all| ensures HolderAsNew(all[i], Fresh50(), Fresh52()) { FreshHolders(all[i]); }
      UnpackSafe(Fresh50(), Fresh52(), header, all);
    }
  }

  /** So the first record routed to each of the two analyzers is always delivered. */
  lemma {:induction false} FirstOfKindDelivered(header: seq<uint8>, all: seq<seq<Field>>, i: nat)
    requires |header| == 5 && header[4] == |all| && forall fs :: fs in all ==> ForEither(fs)
    requires i < |all| && forall k :: 0 <= k < i ==> !(To50(all[k]) <==> To50(all[i]))
    ensures i < |Unpack301b(Fresh50(), Fresh52(), header + Concat(all), 5, |all|)|
    ensures Delivered(all[i], Unpack301b(Fresh50(), Fresh52(), header + Concat(all), 5, |all|)[i])
  {
    assert Quiet(all, i);
    assert (header + Concat(all))[4] == header[4];
    hide *;
    Container301bRoundTrip(header, all);
  }

  /** In the 0x3050 table only slc_data has fields behind it. */
  lemma {:induction false} QuietRecord3050(fs: seq<Field>)
    requires Filled(T3050(), fs)
    ensures NothingMoves(fs) <==> fs[6].data == 0
  {
    Filled3050(fs);
    hide T3050, Filled, Pending, FinalLen;
    forall j | 0 <= j < 12 ensures Pending(fs, 0, j) == if j <= 7 then 0 else Own(fs, 7) { PendingOfOne(fs, 7, j); }
    assert Pending(fs, 0, 8) == Own(fs, 7);
  }

  /** In the 0x3052 table slc_data and lc_data have. */
  lemma {:induction false} QuietRecord3052(fs: seq<Field>)
    requires Filled(T3052(), fs)
    ensures NothingMoves(fs) <==> fs[6].data == 0 && fs[9].data == 0
  {
    Filled3052(fs);
    hide T3052, Filled, Pending, FinalLen;
    forall j | 0 <= j < 13
      ensures Pending(fs, 0, j) == (if j <= 7 then 0 else Own(fs, 7)) + (if j <= 10 then 0 else Own(fs, 10))
    {
      PendingOfTwo(fs, 7, 10, j);
    }
    assert Pending(fs, 0, 8) == Own(fs, 7) && Pending(fs, 0, 11) == Own(fs, 7) + Own(fs, 10);
  }

  // ---------- any container: where the analyzers end up ----------

  /** Both analyzers after the loop. */
  function Finish(p50: PaState, p52: PaState, data: seq<uint8>, os: nat, count: nat): (PaState, PaState)
    decreases count
  {
    if count == 0 || os + 1 >= |data| then (p50, p52)
    else if data[os + 1] == 0 then
      if PduFits(p50, data, os) then Finish(PduNext(p50, 0x50, data, os), p52, data, os + data[os], count - 1)
      else (p50, p52)
    else
      if PduFits(p52, data, os) then Finish(p50, PduNext(p52, 0x52, data, os), data, os + data[os], count - 1)
      else (p50, p52)
  }

  /** The buffers parsed by the 0x3050 analyzer, and those parsed by the 0x3052 one. */
  function Parsed(p50: PaState, p52: PaState, data: seq<uint8>, os: nat, count: nat): (seq<seq<uint8>>, seq<seq<uint8>>)
    decreases count
  {
    if count == 0 || os + 1 >= |data| then ([], [])
    else if data[os + 1] == 0 then
      if PduFits(p50, data, os) then
        var rest := Parsed(PduNext(p50, 0x50, data, os), p52, data, os + data[os], count - 1);
        ([PduLoaded(p50, 0x50, data, os)] + rest.0, rest.1)
      else ([], [])
    else
      if PduFits(p52, data, os) then
        var rest := Parsed(p50, PduNext(p52, 0x52, data, os), data, os + data[os], count - 1);
        (rest.0, [PduLoaded(p52, 0x52, data, os)] + rest.1)
      else ([], [])
  }

  lemma {:induction false} RoundsFromFront(fs: seq<Field>, dp: seq<uint8>, dps: seq<seq<uint8>>)
    ensures Rounds(fs, [dp] + dps) == Rounds(Reset(ParseFrom(fs, 0, dp)), dps)
    decreases |dps|
  {
    hide ParseFrom, Reset;
    var all := [dp] + dps;
    if dps == [] {
      assert all[..|all| - 1] == [] && all[|all| - 1] == dp;
      assert Rounds(fs, []) == fs;
    } else {
      assert all[..|all| - 1] == [dp] + dps[..|dps| - 1] && all[|all| - 1] == dps[|dps| - 1];
      RoundsFromFront(fs, dp, dps[..|dps| - 1]);
    }
  }

  /** Whatever the container holds, each analyzer goes through parse-and-reset rounds for exactly the messages routed
      to it; so its fields drift by what those messages, and no others, discovered. */
  lemma {:induction false} EachAnalyzerItsOwnRounds(p50: PaState, p52: PaState, data: seq<uint8>, os: nat, count: nat)
    ensures Finish(p50, p52, data, os, count).0.fields == Rounds(p50.fields, Parsed(p50, p52, data, os, count).0)
    ensures Finish(p50, p52, data, os, count).1.fields == Rounds(p52.fields, Parsed(p50, p52, data, os, count).1)
    decreases count
  {
    hide ParseFrom, Reset, Loaded;
    if count > 0 && os + 1 < |data| {
      if data[os + 1] == 0 && PduFits(p50, data, os) {
        EachAnalyzerItsOwnRounds(PduNext(p50, 0x50, data, os), p52, data, os + data[os], count - 1);
        RoundsFromFront(p50.fields, PduLoaded(p50, 0x50, data, os),
          Parsed(PduNext(p50, 0x50, data, os), p52, data, os + data[os], count - 1).0);
      } else if data[os + 1] != 0 && PduFits(p52, data, os) {
        EachAnalyzerItsOwnRounds(p50, PduNext(p52, 0x52, data, os), data, os + data[os], count - 1);
        RoundsFromFront(p52.fields, PduLoaded(p52, 0x52, data, os),
          Parsed(p50, PduNext(p52, 0x52, data, os), data, os + data[os], count - 1).1);
      }
    }
  }

  /** After the command field j of the 0x3050 analyzer is at its base position if and only if the lengths discovered
      in front of it, over the messages routed to it, add up to a multiple of 256; likewise field k of the other. */
  lemma {:induction false} CommandDriftIff(data: seq<uint8>, count: nat, j: nat, k: nat)
    requires j < 12 && k < 13
    ensures var parsed := Parsed(Fresh50(), Fresh52(), data, 5, count);
            var (end50, end52) := Finish(Fresh50(), Fresh52(), data, 5, count);
            && |end50.fields| == 12 && |end52.fields| == 13
            && (end50.fields[j].bytePos == T3050()[j].bytePos <==> TotalDiscovered(T3050(), parsed.0, j) % 0x100 == 0)
            && (end52.fields[k].bytePos == T3052()[k].bytePos <==> TotalDiscovered(T3052(), parsed.1, k) % 0x100 == 0)
  {
    PduTables();
    hide T3050, T3052, ByteTable, ByteVariable, Armed, TotalDiscovered, Rounds, Finish, Parsed;
    FreshIsAsNew(T3050());
    FreshIsAsNew(T3052());
    AsNewIsByteVariable(T3050(), T3050());
    AsNewIsByteVariable(T3052(), T3052());
    EachAnalyzerItsOwnRounds(Fresh50(), Fresh52(), data, 5, count);
    var parsed := Parsed(Fresh50(), Fresh52(), data, 5, count);
    DriftIsHarmlessIff(T3050(), parsed.0, j);
    DriftIsHarmlessIff(T3052(), parsed.1, k);
  }
}
