/** protocol_analyzer_s: a private copy of a format's descriptor list, a message buffer and a name index. */
module ProtocolAnalyzer {
  import opened CTypes
  import opened FieldIO
  import opened Format
  import opened Messages
  import RoundTrip
  import Numerals
  import HashTable
  import HashMap

  const MAX_PROTO_DATA_LEN: nat := 100
  const BUCKET_SIZE: uint32 := 10

  /** proto_info_list_s, one descriptor in the list. */
  class ProtoInfo {
    var name: string
    var vlenIndex: string
    var vlenFlag: bool
    var vlenFlagBak: bool
    var bytePos: uint8
    var bitPos: uint8
    var len: uint16
    var lenUnit: uint8
    var data: uint32
    var buf: Option<seq<uint8>>
    var bufLen: uint16

    function View(): Field
      reads this
    {
      Field(name, vlenIndex, vlenFlag, vlenFlagBak, bytePos, bitPos, len, lenUnit, data, buf, bufLen)
    }

    /** Parse's dispatch on unit and length. */
    method Read(dp: array<uint8>)
      requires InBuffer(View(), dp.Length)
      modifies this
      ensures View() == ReadField(old(View()), dp[..])
      ensures lenUnit == 8 && len > 4 ==>
                && buf.Some? && len <= |buf.value| && buf.value[..len] == dp[bytePos..bytePos + len]
                && View() == old(View()).(buf := buf, bufLen := len)
      ensures lenUnit == 1 || (lenUnit == 8 && len <= 4) ==> View() == old(View()).(data := data)
      ensures lenUnit != 8 && lenUnit != 1 ==> View() == old(View())
    {
      if lenUnit == 8 {
        if len <= 4 {
          data := GetProtocolByteData(dp, bytePos, len);
          assert ToUint32(data) == data;
        } else {
          GetProtocolBuf(dp);
        }
      } else if lenUnit == 1 {
        data := GetProtocolBitData(dp, bytePos, bitPos, len);
      }
    }

    /** pa_get_protocol_buf. */
    method GetProtocolBuf(dp: array<uint8>)
      requires bytePos + len <= dp.Length
      modifies this`buf, this`bufLen
      ensures View() == StoreBuf(old(View()), BytesAt(dp[..], bytePos, len))
      ensures buf.Some? && bufLen == len && len <= |buf.value| && buf.value[..len] == dp[bytePos..bytePos + len]
      ensures old(buf).Some? && len <= old(bufLen) && len <= |old(buf).value| ==>
                |buf.value| == |old(buf).value| && buf.value[len..] == old(buf).value[len..]
    {
      var bytes := dp[bytePos..bytePos + len];
      assert bytes == BytesAt(dp[..], bytePos, len) && bytes + [] == bytes;
      if buf.None? {
        buf, bufLen := Some(bytes), len;
      } else if len <= bufLen && len <= |buf.value| {
        buf, bufLen := Some(bytes + buf.value[len..]), len;
      } else {
        buf, bufLen := Some(bytes), len;
      }
    }

    /** The memory handling of pa_set_buf. */
    method TakeBuf(bytes: seq<uint8>)
      requires |bytes| < 0x1_0000
      modifies this`buf, this`bufLen
      ensures View() == WithBuf(old(View()), bytes)
      ensures buf.Some? && |bytes| <= |buf.value| && buf.value[..|bytes|] == bytes
    {
      if buf.None? {
        buf, bufLen := Some(bytes), |bytes|;
      } else if |bytes| <= bufLen && |bytes| <= |buf.value| {
        buf := Some(bytes + buf.value[|bytes|..]);
      } else {
        buf, bufLen := Some(bytes), |bytes|;
      }
    }

    method Disarm()
      modifies this`vlenFlag
      ensures View() == old(View()).(vlenFlag := false)
    {
      vlenFlag := false;
    }

    /** Generate's dispatch on unit and length. */
    method Write(dp: array<uint8>)
      requires InBuffer(View(), dp.Length) && HasBytes(View())
      modifies dp
      ensures dp[..] == WriteField(old(dp[..]), View())
      ensures lenUnit == 8 && len > 4 && bitPos == 0 ==>
                && dp[bytePos..bytePos + len] == buf.value[..len]
                && dp[..bytePos] == old(dp[..bytePos]) && dp[bytePos + len..] == old(dp[bytePos + len..])
      ensures (lenUnit == 8 && len > 4 && bitPos != 0) || (lenUnit != 8 && lenUnit != 1) ==> dp[..] == old(dp[..])
    {
      if lenUnit == 8 {
        if len <= 4 {
          SetProtocolByteData(data, bytePos, len, dp);
        } else if bitPos == 0 {
          SetProtocolBuf(buf.value, len, bytePos, dp);
        }
      } else if lenUnit == 1 {
        SetProtocolBitData(data, bytePos, bitPos, len, dp);
      }
    }

    constructor (f: Field)
      ensures View() == f
    {
      name, vlenIndex, vlenFlag, vlenFlagBak := f.name, f.vlenIndex, f.vlenFlag, f.vlenFlagBak;
      bytePos, bitPos, len, lenUnit := f.bytePos, f.bitPos, f.len, f.lenUnit;
      data, buf, bufLen := f.data, f.buf, f.bufLen;
    }
  }

  /** pa_set_protocol_buf at bit position 0. */
  method SetProtocolBuf(data: seq<uint8>, len: nat, bytePos: nat, dp: array<uint8>)
    requires len <= |data| && bytePos + len <= dp.Length
    modifies dp
    ensures dp[..] == Splice(old(dp[..]), bytePos, data[..len])
  {
    forall k | 0 <= k < len { dp[bytePos + k] := data[k]; }
  }

  /** The loop of pa_reset_vlen_flag. */
  method Rearm(ns: seq<ProtoInfo>)
    requires Distinct(ns)
    modifies ns
    ensures forall j :: 0 <= j < |ns| ==> ns[j].View() == Reset(old(Views(ns)))[j]
  {
    ghost var fs := Views(ns);
    var i := 0;
    while i < |ns|
      invariant 0 <= i <= |ns|
      invariant forall j :: 0 <= j < |ns| ==> ns[j].View() == if j < i then Reset(fs)[j] else fs[j]
    {
      if ns[i].vlenFlagBak { ns[i].vlenFlag := true; }
      i := i + 1;
    }
  }

  /** A field after pa_set_buf: its buffer begins with the bytes; memory that was large enough is kept with its recorded
      length, other memory is replaced by the bytes. */
  function WithBuf(f: Field, bytes: seq<uint8>): (r: Field)
    requires |bytes| < 0x1_0000
    ensures r.buf.Some? && |bytes| <= |r.buf.value| && r.buf.value[..|bytes|] == bytes
    ensures r == f.(buf := r.buf, bufLen := r.bufLen)
    ensures f.buf.None? || |bytes| > f.bufLen || |bytes| > |f.buf.value| ==> r.bufLen == |bytes| == |r.buf.value|
    ensures f.buf.Some? && |bytes| <= f.bufLen && |bytes| <= |f.buf.value| ==>
              r.bufLen == f.bufLen && r.buf.value == bytes + f.buf.value[|bytes|..]
  {
    if f.buf.Some? && |bytes| <= f.bufLen && |bytes| <= |f.buf.value| then
      f.(buf := Some(bytes + f.buf.value[|bytes|..]))
    else f.(buf := Some(bytes), bufLen := |bytes|)
  }

  lemma {:induction false} ReadKeepsName(f: Field, dp: seq<uint8>)
    ensures ReadField(f, dp).name == f.name
  {
  }

  ghost function Views(ns: seq<ProtoInfo>): (fs: seq<Field>)
    reads ns
    ensures |fs| == |ns| && forall i :: 0 <= i < |ns| ==> fs[i] == ns[i].View()
  {
    seq(|ns|, i requires 0 <= i < |ns| reads ns => ns[i].View())
  }

  lemma {:induction false} OneChanged(ns: seq<ProtoInfo>, fs: seq<Field>, i: nat)
    requires i < |ns| == |fs| && forall j :: 0 <= j < |ns| && j != i ==> ns[j].View() == fs[j]
    ensures Views(ns) == fs[i := ns[i].View()]
  {
  }

  /** The index finds, for every key, the last of the first n fields with that key. */
  ghost predicate Indexed(t: HashTable.Table<ProtoInfo>, ns: seq<ProtoInfo>, fs: seq<Field>, n: nat)
    requires n <= |fs| == |ns|
  {
    |t| > 0 && forall key :: IndexedKey(t, ns, fs, n, key)
  }

  ghost predicate IndexedKey(t: HashTable.Table<ProtoInfo>, ns: seq<ProtoInfo>, fs: seq<Field>, n: nat, key: string)
    requires n <= |fs| == |ns| && |t| > 0
  {
    match LastWith(fs, n, key)
    case None => HashTable.Stack(t, key) == []
    case Some(i) => HashTable.Stack(t, key) != [] && HashTable.Stack(t, key)[0].value == ns[i]
  }

  lemma {:induction false} IndexAt(t: HashTable.Table<ProtoInfo>, ns: seq<ProtoInfo>, fs: seq<Field>, n: nat,
                                   key: string)
    requires n <= |fs| == |ns| && Indexed(t, ns, fs, n)
    ensures |t| > 0 && IndexedKey(t, ns, fs, n, key)
  {
  }

  lemma {:induction false} IndexGrows(t: HashTable.Table<ProtoInfo>, ns: seq<ProtoInfo>, fs: seq<Field>, n: nat,
                                      node: HashTable.HNode<ProtoInfo>)
    requires n < |fs| == |ns| && Indexed(t, ns, fs, n)
    requires node.key == PadKey(fs[n].name) && node.value == ns[n]
    ensures Indexed(HashTable.Step(t, HashTable.Insert(node)), ns, fs, n + 1)
  {
    var r, m := HashTable.Step(t, HashTable.Insert(node)), n + 1;
    forall key ensures IndexedKey(r, ns, fs, m, key) {
      HashTable.StepRefinesStack(t, HashTable.Insert(node), key);
      assert IndexedKey(t, ns, fs, n, key);
      hide HashTable.Step, HashTable.Stack, PadKey;
    }
  }

  lemma {:induction false} EmptyIndex(t: HashTable.Table<ProtoInfo>, ns: seq<ProtoInfo>, fs: seq<Field>)
    requires |fs| == |ns| && |t| > 0 && forall b :: 0 <= b < |t| ==> t[b] == []
    ensures Indexed(t, ns, fs, 0)
  {
  }

  /** Renaming aside, nothing that happens to the descriptors can upset the index. */
  lemma {:induction false} IndexByNames(t: HashTable.Table<ProtoInfo>, ns: seq<ProtoInfo>, fs: seq<Field>,
                                        gs: seq<Field>)
    requires |fs| == |gs| == |ns| && Indexed(t, ns, fs, |fs|)
    requires forall i :: 0 <= i < |fs| ==> gs[i].name == fs[i].name
    ensures Indexed(t, ns, gs, |gs|)
  {
    forall key ensures IndexedKey(t, ns, gs, |gs|, key) {
      assert IndexedKey(t, ns, fs, |fs|, key);
      RoundTrip.LookupByNames(fs, gs, |fs|, key);
    }
  }

  /** The memset of pa_create_protocol_analyzer. */
  method ZeroBuffer() returns (buffer: array<uint8>)
    ensures fresh(buffer) && buffer.Length == MAX_PROTO_DATA_LEN && buffer[..] == Zeros(MAX_PROTO_DATA_LEN)
  {
    buffer := new uint8[MAX_PROTO_DATA_LEN](_ => 0);
  }

  /** pa_copy_protocol_format: one new node per descriptor, same order, same contents. */
  method CopyFormat(template: seq<ProtoInfo>) returns (copies: seq<ProtoInfo>)
    ensures Distinct(copies) && Views(copies) == old(Views(template))
    ensures fresh(copies)
  {
    copies := [];
    while |copies| < |template|
      invariant |copies| <= |template| && Distinct(copies)
      invariant fresh(copies)
      invariant forall i :: 0 <= i < |copies| ==> copies[i].View() == template[i].View()
    {
      var copy := new ProtoInfo(template[|copies|].View());
      copies := copies + [copy];
    }
  }

  class Analyzer {
    var fields: seq<ProtoInfo>
    var protocolData: array<uint8>
    var protocolDataLen: uint16
    var hmap: HashMap.Map<ProtoInfo>

    ghost function View(): seq<Field>
      reads this, fields
    {
      Views(fields)
    }

    /** The index has no memory in common with the descriptors and the buffer. */
    ghost predicate Apart()
      reads this, hmap
    {
      this !in hmap.Repr && protocolData !in hmap.Repr && forall n :: n in fields ==> n !in hmap.Repr
    }

    ghost predicate Valid()
      reads this, fields, hmap, hmap.Repr
    {
      && Distinct(fields)
      && protocolData.Length == MAX_PROTO_DATA_LEN
      && hmap.Valid() && hmap.keySize == KEY_SIZE
      && Apart()
      && Indexed(hmap.chains, fields, View(), |fields|)
    }

    /** pa_create_protocol_analyzer and pa_init_protocol_analyzer: the analyzer shares nothing with its template. */
    constructor (template: seq<ProtoInfo>)
      ensures Valid() && fresh(protocolData) && fresh(fields) && fresh(hmap.Repr)
      ensures View() == old(Views(template)) && protocolData[..] == Zeros(MAX_PROTO_DATA_LEN) && protocolDataLen == 0
      ensures protocolData.Length == 100 && |hmap.chains| == 10
    {
      hide Indexed, HashMap.Map.Valid, Distinct, Zeros;
      var copies := CopyFormat(template);
      var map_ := new HashMap.Map<ProtoInfo>(KEY_SIZE, BUCKET_SIZE);
      var buffer := ZeroBuffer();
      EmptyIndex(map_.chains, copies, Views(copies));
      fields, hmap := copies, map_;
      protocolData, protocolDataLen := buffer, 0;
      new;
      BuildIndex();
    }

    /** The insertion loop of pa_create_hash_table. */
    method BuildIndex()
      requires hmap.Valid() && hmap.keySize == KEY_SIZE && Apart() && Distinct(fields)
      requires protocolData.Length == MAX_PROTO_DATA_LEN && Indexed(hmap.chains, fields, View(), 0)
      modifies hmap.Repr
      ensures Valid() && fresh(hmap.Repr - old(hmap.Repr)) && View() == old(View())
      ensures |hmap.chains| == |old(hmap.chains)|
    {
      hide Indexed, HashMap.Map.Valid, HashTable.Step;
      var i := 0;
      while i < |fields|
        invariant 0 <= i <= |fields|
        invariant hmap.Valid() && Apart() && fresh(hmap.Repr - old(hmap.Repr))
        invariant View() == old(View()) && Indexed(hmap.chains, fields, View(), i)
        invariant |hmap.chains| == |old(hmap.chains)|
      {
        ghost var t := hmap.chains;
        var node := hmap.Insert(PadKey(fields[i].name), fields[i]);
        IndexGrows(t, fields, View(), i, node);
        i := i + 1;
      }
    }

    /** pa_find_key. The key buffer is filled only for names shorter than ten characters; for longer ones it keeps
        whatever the stack held. */
    method FindKey(key: string) returns (found: ProtoInfo?)
      requires Valid()
      ensures |key| < KEY_SIZE ==>
                found == match Lookup(View(), key) case None => null case Some(i) => fields[i]
    {
      hide Indexed, HashMap.Map.Valid;
      var keyStr: string := *;
      if |key| < hmap.keySize { keyStr := PadKey(key); }
      IndexAt(hmap.chains, fields, View(), |fields|, keyStr);
      var node, bucket := hmap.Search(keyStr);
      found := if node == null then null else node.value;
    }

    /** pa_recompute_byte_pos, on the i-th descriptor. */
    method RecomputeBytePos(i: nat) returns (ret: int)
      requires Valid() && i < |fields| && |fields[i].vlenIndex| < KEY_SIZE
      modifies fields
      ensures Valid() && View() == Recompute(old(View()), i)
      ensures match Lookup(old(View()), old(View())[i].vlenIndex)
              case None => ret == -1 && View() == old(View())
              case Some(k) => ret == 0 && LengthTaken(old(View()), View(), i, old(View())[k].data)
    {
      hide Indexed, HashMap.Map.Valid, Lookup, Recompute, LengthTaken;
      ghost var fs := View();
      var found := FindKey(fields[i].vlenIndex);
      if found == null {
        RecomputeNone(fs, i);
        return -1;
      }
      ghost var k := Lookup(fs, fs[i].vlenIndex).value;
      var shift := ToUint32(found.data * fields[i].lenUnit) / 8;
      RecomputeSome(fs, i, k);
      FixLength(fields, i, found.data, shift);
      assert View() == Recompute(fs, i);
      IndexByNames(hmap.chains, fields, fs, View());
      RecomputeMoves(fs, i, k);
      ret := 0;
    }

    /** The variable-length branch generate and parse share: fix the length, then disarm the field. */
    method ResolveField(i: nat)
      requires Valid() && i < |fields| && (fields[i].vlenFlag ==> |fields[i].vlenIndex| < KEY_SIZE)
      modifies fields
      ensures Valid() && View() == Resolve(old(View()), i) && !View()[i].vlenFlag
    {
      hide Indexed, Recompute, HashMap.Map.Valid, LengthTaken, Lookup;
      if fields[i].vlenFlag {
        var ret := RecomputeBytePos(i);
        ghost var gs := View();
        fields[i].Disarm();
        OneChanged(fields, gs, i);
        IndexByNames(hmap.chains, fields, gs, View());
      }
    }

    /** Parse's reading of one descriptor whose layout is fixed. */
    method ReadDescriptor(i: nat)
      requires Valid() && i < |fields| && InBuffer(fields[i].View(), protocolData.Length)
      modifies fields[i]
      ensures Valid() && View() == old(View())[i := ReadField(old(View())[i], protocolData[..])]
    {
      hide Indexed, HashMap.Map.Valid, ReadField, InBuffer;
      ghost var fs := View();
      fields[i].Read(protocolData);
      OneChanged(fields, fs, i);
      ReadKeepsName(fs[i], protocolData[..]);
      IndexByNames(hmap.chains, fields, fs, View());
    }

    /** Generate's writing of one descriptor whose layout is fixed. */
    method WriteDescriptor(i: nat)
      requires Valid() && i < |fields| && InBuffer(fields[i].View(), protocolData.Length) && HasBytes(fields[i].View())
      modifies protocolData
      ensures Valid() && View() == old(View())
      ensures protocolData[..] == WriteField(old(protocolData[..]), View()[i])
    {
      hide Indexed, HashMap.Map.Valid, WriteField, InBuffer, HasBytes;
      fields[i].Write(protocolData);
    }

    /** One turn of the parse loop. */
    method ParseDescriptor(i: nat)
      requires Valid() && i < |fields| && ParseSafe(View(), i, protocolData[..])
      modifies fields
      ensures Valid() && ParseSafe(View(), i + 1, protocolData[..])
      ensures ParseFrom(View(), i + 1, protocolData[..]) == ParseFrom(old(View()), i, protocolData[..])
    {
      hide Valid, Resolve, ReadField, InBuffer;
      ResolveField(i);
      ReadDescriptor(i);
    }

    /** pa_parse_protocol_data. */
    method Parse() returns (ret: int)
      requires Valid()
      requires protocolDataLen != 0 ==> ParseSafe(View(), 0, protocolData[..])
      modifies fields
      ensures Valid()
      ensures if protocolDataLen == 0 then ret == -1 && View() == old(View())
              else ret == 0 && View() == ParseFrom(old(View()), 0, protocolData[..])
    {
      hide Valid, ParseSafe, Resolve, ReadField;
      if protocolDataLen == 0 { return -1; }
      var i := 0;
      while i < |fields|
        invariant 0 <= i <= |fields| && Valid()
        invariant ParseSafe(View(), i, protocolData[..])
        invariant ParseFrom(View(), i, protocolData[..]) == ParseFrom(old(View()), 0, protocolData[..])
      {
        ParseDescriptor(i);
        i := i + 1;
      }
      ret := 0;
    }

    /** One turn of the generate loop. */
    method GenerateDescriptor(i: nat)
      requires Valid() && i < |fields| && GenSafe(View(), i, protocolData.Length)
      modifies fields, protocolData
      ensures Valid() && GenSafe(View(), i + 1, protocolData.Length)
      ensures GenFrom(View(), i + 1, protocolData[..]) == GenFrom(old(View()), i, old(protocolData[..]))
    {
      hide Valid, Resolve, WriteField, InBuffer, HasBytes;
      ResolveField(i);
      WriteDescriptor(i);
    }

    /** The loop of pa_generate_protocol_data. */
    method GenerateFields()
      requires Valid() && GenSafe(View(), 0, protocolData.Length)
      modifies fields, protocolData
      ensures Valid() && View() == GenFrom(old(View()), 0, old(protocolData[..])).0
      ensures protocolData[..] == GenFrom(old(View()), 0, old(protocolData[..])).1
    {
      hide Valid, GenSafe, Resolve, WriteField;
      var i := 0;
      while i < |fields|
        invariant 0 <= i <= |fields| && Valid()
        invariant GenSafe(View(), i, protocolData.Length)
        invariant GenFrom(View(), i, protocolData[..]) == GenFrom(old(View()), 0, old(protocolData[..]))
      {
        GenerateDescriptor(i);
        i := i + 1;
      }
    }

    /** pa_generate_protocol_data: the message goes into the buffer, its length is taken from the last field. */
    method Generate() returns (ret: int)
      requires Valid() && fields != [] && GenSafe(View(), 0, protocolData.Length)
      modifies fields, protocolData, this`protocolDataLen
      ensures Valid() && ret == 0
      ensures View() == GenFrom(old(View()), 0, old(protocolData[..])).0
      ensures protocolData[..] == GenFrom(old(View()), 0, old(protocolData[..])).1
      ensures protocolDataLen == (View()[|fields| - 1].bytePos + View()[|fields| - 1].len) % 0x1_0000
      ensures RoundTrip.WellFormed(old(View()), 0, protocolData.Length) ==>
                var fs, last := old(View()), |fields| - 1;
                protocolDataLen
                == (fs[last].bytePos + RoundTrip.Pending(fs, 0, last) + RoundTrip.FinalLen(fs, last)) % 0x1_0000
    {
      hide Indexed, HashMap.Map.Valid, GenSafe, GenFrom, Distinct, RoundTrip.WellFormed, RoundTrip.Pending,
           RoundTrip.FinalLen;
      if RoundTrip.WellFormed(View(), 0, protocolData.Length) { ReportedLength(View(), protocolData[..]); }
      GenerateFields();
      protocolDataLen := ToUint16(fields[|fields| - 1].bytePos + fields[|fields| - 1].len);
      ret := 0;
    }

    /** pa_reset_vlen_flag. */
    method ResetVlenFlag()
      requires Valid()
      modifies fields
      ensures Valid() && View() == Reset(old(View()))
      ensures forall j :: 0 <= j < |fields| ==>
                View()[j] == old(View())[j].(vlenFlag := old(View())[j].vlenFlag || old(View())[j].vlenFlagBak)
    {
      hide Indexed, HashMap.Map.Valid;
      ghost var fs := View();
      Rearm(fields);
      assert View() == Reset(fs);
      IndexByNames(hmap.chains, fields, fs, View());
    }

    /** pa_set_value: the field must exist, its pointer is not checked. */
    method SetValue(key: string, value: uint32)
      requires Valid() && |key| < KEY_SIZE && Lookup(View(), key).Some?
      modifies fields
      ensures Valid()
      ensures var i := Lookup(old(View()), key).value; View() == old(View())[i := old(View())[i].(data := value)]
    {
      hide Indexed, HashMap.Map.Valid, Lookup;
      ghost var fs := View();
      var info := FindKey(key);
      ghost var i := Lookup(fs, key).value;
      info.data := value;
      OneChanged(fields, fs, i);
      IndexByNames(hmap.chains, fields, fs, View());
    }

    /** pa_set_variable_length_value: as pa_set_value, but an unknown name is answered with -1. */
    method SetVariableLengthValue(key: string, value: uint32) returns (ret: int)
      requires Valid() && |key| < KEY_SIZE
      modifies fields
      ensures Valid()
      ensures match Lookup(old(View()), key)
              case None => ret == -1 && View() == old(View())
              case Some(i) => ret == 0 && View() == old(View())[i := old(View())[i].(data := value)]
    {
      hide Indexed, HashMap.Map.Valid, Lookup;
      ghost var fs := View();
      var info := FindKey(key);
      if info == null { return -1; }
      ghost var i := Lookup(fs, key).value;
      info.data := value;
      OneChanged(fields, fs, i);
      IndexByNames(hmap.chains, fields, fs, View());
      ret := 0;
    }

    /** pa_get_value: the field's data as a signed int, -1 when there is no such field. */
    method GetValue(key: string) returns (value: int)
      requires Valid() && |key| < KEY_SIZE
      ensures value == match Lookup(View(), key) case None => -1 case Some(i) => Numerals.AsInt32(View()[i].data)
    {
      hide Indexed, HashMap.Map.Valid, Lookup;
      var info := FindKey(key);
      value := if info == null then -1 else Numerals.AsInt32(info.data);
    }

    /** pa_set_buf: reuse the field's memory if the recorded length suffices, otherwise replace it. */
    method SetBuf(key: string, bytes: seq<uint8>)
      requires Valid() && |key| < KEY_SIZE && |bytes| < 0x1_0000
      modifies fields
      ensures Valid()
      ensures View() == match Lookup(old(View()), key)
                case None => old(View())
                case Some(i) => old(View())[i := WithBuf(old(View())[i], bytes)]
      ensures var fs, gs := old(View()), View();
              match Lookup(fs, key)
              case None => gs == fs
              case Some(i) =>
                && gs[i].buf.Some? && |bytes| <= |gs[i].buf.value| && gs[i].buf.value[..|bytes|] == bytes
                && gs[i] == fs[i].(buf := gs[i].buf, bufLen := gs[i].bufLen)
                && (fs[i].buf.None? || |bytes| > fs[i].bufLen || |bytes| > |fs[i].buf.value| ==>
                      gs[i].bufLen == |bytes| == |gs[i].buf.value|)
                && (fs[i].buf.Some? && |bytes| <= fs[i].bufLen && |bytes| <= |fs[i].buf.value| ==>
                      gs[i].bufLen == fs[i].bufLen && |gs[i].buf.value| == |fs[i].buf.value|)
                && forall j :: 0 <= j < |fs| && j != i ==> gs[j] == fs[j]
    {
      hide Indexed, HashMap.Map.Valid, Lookup, WithBuf;
      ghost var fs := View();
      var info := FindKey(key);
      if info != null {
        ghost var i := Lookup(fs, key).value;
        info.TakeBuf(bytes);
        OneChanged(fields, fs, i);
        IndexByNames(hmap.chains, fields, fs, View());
      }
    }
  }

  lemma {:induction false} RecomputeNone(fs: seq<Field>, i: nat)
    requires i < |fs| && Lookup(fs, fs[i].vlenIndex).None?
    ensures Recompute(fs, i) == fs
  {
  }

  /** Field j after field i has been given length n and everything behind it moved. */
  function Refitted(fs: seq<Field>, i: nat, n: uint32, shift: nat, j: nat): Field
    requires i < |fs| && j < |fs|
  {
    if j < i then fs[j] else if j == i then fs[i].(len := ToUint16(n)) else Moved(fs[j], shift)
  }

  /** Field i has taken length n, cut to 16 bits, and every field behind it has moved, in 8 bits, by n units. */
  ghost predicate LengthTaken(fs: seq<Field>, gs: seq<Field>, i: nat, n: uint32) {
    && i < |fs| == |gs|
    && (forall j :: 0 <= j < i ==> gs[j] == fs[j])
    && gs[i] == fs[i].(len := n % 0x1_0000)
    && forall j :: i < j < |fs| ==>
         gs[j] == fs[j].(bytePos := (fs[j].bytePos + n * fs[i].lenUnit % 0x1_0000_0000 / 8) % 0x100)
  }

  lemma {:induction false} RecomputeMoves(fs: seq<Field>, i: nat, k: nat)
    requires i < |fs| && Lookup(fs, fs[i].vlenIndex) == Some(k)
    ensures k < |fs| && LengthTaken(fs, Recompute(fs, i), i, fs[k].data)
  {
    hide Recompute, Lookup;
    RecomputeSome(fs, i, k);
  }

  lemma {:induction false} RecomputeSome(fs: seq<Field>, i: nat, k: nat)
    requires i < |fs| && Lookup(fs, fs[i].vlenIndex) == Some(k)
    ensures k < |fs| && forall j :: 0 <= j < |fs| ==>
            Recompute(fs, i)[j] == Refitted(fs, i, fs[k].data, ShiftOf(fs[k].data, fs[i].lenUnit), j)
  {
  }

  /** The assignments of pa_recompute_byte_pos. */
  method FixLength(ns: seq<ProtoInfo>, i: nat, n: uint32, shift: nat)
    requires Distinct(ns) && i < |ns|
    modifies ns
    ensures forall j :: 0 <= j < |ns| ==> ns[j].View() == Refitted(old(Views(ns)), i, n, shift, j)
  {
    ghost var fs := Views(ns);
    ns[i].len := ToUint16(n);
    var pos := i + 1;
    while pos < |ns|
      invariant i < pos <= |ns|
      invariant forall j :: 0 <= j < |ns| ==> ns[j].View() == if j < pos then Refitted(fs, i, n, shift, j) else fs[j]
    {
      ns[pos].bytePos := ToUint8(ns[pos].bytePos + shift);
      pos := pos + 1;
    }
  }
}
