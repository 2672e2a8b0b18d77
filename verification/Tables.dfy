/** Building format tables from attribute strings, and the tables the driver and the PDU test link in. */
module Tables {
  import opened CTypes
  import opened Bits
  import opened BitStream
  import opened BitFields
  import opened Format
  import opened RoundTrip
  import opened Messages
  import opened NameIndex
  import opened Numerals
  import opened ProtocolAnalyzer

  // ---------- set_proto_info_attribs, pfs_set_proto_info ----------

  function Blank(): Field { Field("", "", false, false, 0, 0, 0, 0, 0, None, 0) }

  /** A field after one attribute has been set; None is a NULL value. Numbers go through atoi and are cut to size. */
  function WithAttrib(f: Field, attr: string, value: Option<string>): Field {
    var text := if value.Some? then value.value else "";
    if attr == "name" then f.(name := text)
    else if attr == "byte_pos" then f.(bytePos := AtoiOf(value) % 0x100)
    else if attr == "bit_pos" then f.(bitPos := AtoiOf(value) % 0x100)
    else if attr == "len" then f.(len := AtoiOf(value) % 0x1_0000)
    else if attr == "len_unit" then f.(lenUnit := AtoiOf(value) % 0x100)
    else if attr == "vlenth_index" then
      if value.None? then f
      else if text != "" then f.(vlenIndex := text, vlenFlag := true, vlenFlagBak := true)
      else f.(vlenIndex := "N/A")
    else if attr == "value" then
      if f.len * f.lenUnit / 8 <= 4 then f.(data := AtoiOf(value) % 0x1_0000_0000) else f.(buf := None)
    else f
  }

  /** The same attribute by attribute. */
  lemma {:induction false} AttribByName(f: Field, attr: string, value: Option<string>)
    requires attr == "name" ==> value.Some?
    ensures var g := WithAttrib(f, attr, value);
            && (attr == "name" ==> g == f.(name := value.value))
            && (attr == "byte_pos" ==> g == f.(bytePos := AtoiOf(value) % 0x100))
            && (attr == "bit_pos" ==> g == f.(bitPos := AtoiOf(value) % 0x100))
            && (attr == "len" ==> g == f.(len := AtoiOf(value) % 0x1_0000))
            && (attr == "len_unit" ==> g == f.(lenUnit := AtoiOf(value) % 0x100))
            && (attr == "vlenth_index" && value.None? ==> g == f)
            && (attr == "vlenth_index" && value == Some("") ==> g == f.(vlenIndex := "N/A"))
            && (attr == "vlenth_index" && value.Some? && value.value != "" ==>
                  g == f.(vlenIndex := value.value, vlenFlag := true, vlenFlagBak := true))
            && (attr == "value" && f.len * f.lenUnit / 8 <= 4 ==> g == f.(data := AtoiOf(value) % 0x1_0000_0000))
            && (attr == "value" && f.len * f.lenUnit / 8 > 4 ==> g == f.(buf := None))
    ensures attr != "name" && attr != "byte_pos" && attr != "bit_pos" && attr != "len" ==>
              attr != "len_unit" && attr != "vlenth_index" && attr != "value" ==> WithAttrib(f, attr, value) == f
  {
    hide AtoiOf, AtoiValue;
  }

  method SetProtoInfoAttribs(info: ProtoInfo, attr: string, value: Option<string>)
    requires value.Some? ==> '\0' !in value.value
    requires attr == "name" ==> value.Some?
    modifies info
    ensures info.View() == WithAttrib(old(info.View()), attr, value)
  {
    hide AtoiValue;
    if attr == "name" {
      info.name := value.value;
    } else if attr == "byte_pos" {
      var n := Atoi(value);
      info.bytePos := n % 0x100;
    } else if attr == "bit_pos" {
      var n := Atoi(value);
      info.bitPos := n % 0x100;
    } else if attr == "len" {
      var n := Atoi(value);
      info.len := n % 0x1_0000;
    } else if attr == "len_unit" {
      var n := Atoi(value);
      info.lenUnit := n % 0x100;
    } else if attr == "vlenth_index" {
      if value.None? { return; }
      if |value.value| > 0 {
        info.vlenIndex := value.value;
        info.vlenFlag := true;
        info.vlenFlagBak := true;
      } else {
        info.vlenIndex := "N/A";
      }
    } else if attr == "value" {
      if info.len * info.lenUnit / 8 <= 4 {
        var n := Atoi(value);
        info.data := n % 0x1_0000_0000;
      } else {
        info.buf := None;
      }
    }
  }

  /** The arguments of one PFS_SET_PROTO_INFO line. */
  datatype Row = Row(name: string, bytePos: string, bitPos: string, len: string, lenUnit: string,
                     vlenIndex: Option<string>)

  function FieldOf(r: Row): Field {
    var f := Blank();
    var f := WithAttrib(f, "name", Some(r.name));
    var f := WithAttrib(f, "byte_pos", Some(r.bytePos));
    var f := WithAttrib(f, "bit_pos", Some(r.bitPos));
    var f := WithAttrib(f, "len", Some(r.len));
    var f := WithAttrib(f, "len_unit", Some(r.lenUnit));
    WithAttrib(f, "vlenth_index", r.vlenIndex)
  }

  predicate NulFree(r: Row) {
    && '\0' !in r.name && '\0' !in r.bytePos && '\0' !in r.bitPos && '\0' !in r.len && '\0' !in r.lenUnit
    && (r.vlenIndex.Some? ==> '\0' !in r.vlenIndex.value)
  }

  /** pfs_set_proto_info: a zeroed descriptor, its six attributes, appended to the list. */
  method PfsSetProtoInfo(r: Row, list: seq<ProtoInfo>) returns (longer: seq<ProtoInfo>)
    requires NulFree(r)
    ensures |longer| == |list| + 1 && longer[..|list|] == list && fresh(longer[|list|])
    ensures longer[|list|].View() == FieldOf(r)
  {
    hide WithAttrib, AtoiValue, AtoiOf;
    var info := new ProtoInfo(Blank());
    SetProtoInfoAttribs(info, "name", Some(r.name));
    SetProtoInfoAttribs(info, "byte_pos", Some(r.bytePos));
    SetProtoInfoAttribs(info, "bit_pos", Some(r.bitPos));
    SetProtoInfoAttribs(info, "len", Some(r.len));
    SetProtoInfoAttribs(info, "len_unit", Some(r.lenUnit));
    SetProtoInfoAttribs(info, "vlenth_index", r.vlenIndex);
    longer := list + [info];
  }

  // ---------- the tables ----------

  const PROTO_NUM := "proto_num"
  const LEN := "len"
  const SLOT_INFO := "slot_info"
  const SYNC_INFO := "sync_info"
  const TACT_INFO := "tact_info"
  const SLC_INFO := "slc_info"
  const SLC_DATA := "slc_data"
  const SYNC_INDEX := "sync_index"
  const ST_INFO := "st_info"
  const DC_INFO := "dc_info"
  const DC_DATA := "dc_data"
  const EMB_FLAG := "emb_flag"
  const EMB_INFO := "emb_info"
  const LC_INFO := "lc_info"
  const LC_DATA := "lc_data"
  const NO_NAME1 := "no_name1"

  const ROWS_3050 := [
    Row(PROTO_NUM, "0", "0", "2", "8", None),
    Row(LEN, "2", "0", "1", "8", None),
    Row(EMB_FLAG, "3", "0", "1", "8", None),
    Row(SLOT_INFO, "4", "0", "2", "8", None),
    Row(SYNC_INFO, "6", "0", "2", "8", None),
    Row(TACT_INFO, "8", "0", "1", "8", None),
    Row(SLC_INFO, "9", "0", "1", "8", None),
    Row(SLC_DATA, "10", "0", "0", "8", Some(SLC_INFO)),
    Row(SYNC_INDEX, "10", "0", "1", "8", None),
    Row(ST_INFO, "11", "0", "1", "8", None),
    Row(DC_INFO, "12", "0", "1", "8", None),
    Row(DC_DATA, "13", "0", "0", "8", Some(DC_INFO))]

  const ROWS_3052 := [
    Row(PROTO_NUM, "0", "0", "2", "8", None),
    Row(LEN, "2", "0", "1", "8", None),
    Row(EMB_FLAG, "3", "0", "1", "8", None),
    Row(SLOT_INFO, "4", "0", "2", "8", None),
    Row(SYNC_INFO, "6", "0", "2", "8", None),
    Row(TACT_INFO, "8", "0", "1", "8", None),
    Row(SLC_INFO, "9", "0", "1", "8", None),
    Row(SLC_DATA, "10", "0", "0", "8", Some(SLC_INFO)),
    Row(EMB_INFO, "10", "0", "1", "8", None),
    Row(LC_INFO, "11", "0", "1", "8", None),
    Row(LC_DATA, "12", "0", "0", "8", Some(LC_INFO)),
    Row(DC_INFO, "12", "0", "1", "8", None),
    Row(DC_DATA, "13", "0", "0", "8", Some(DC_INFO))]

  const ROWS_3054 := [
    Row(PROTO_NUM, "0", "0", "2", "8", None),
    Row(NO_NAME1, "2", "0", "1", "8", None),
    Row(ST_INFO, "3", "0", "1", "8", None),
    Row(DC_INFO, "4", "0", "1", "8", None),
    Row(DC_DATA, "5", "0", "0", "8", Some(DC_INFO))]

  const ROWS_ACKD := [
    Row("LB", "0", "7", "1", "1", None),
    Row("PF", "0", "6", "1", "1", None),
    Row("CSBKO", "0", "5", "6", "1", None),
    Row("FID", "1", "7", "8", "1", None),
    Row("RI", "2", "7", "7", "1", None),
    Row("ARC", "2", "0", "8", "1", None),
    Row("RSVD", "3", "0", "1", "1", None),
    Row("TADDR", "4", "7", "24", "1", None),
    Row("SADDR", "7", "7", "24", "1", None)]

  function Template(rows: seq<Row>): (fs: seq<Field>)
    ensures |fs| == |rows|
  {
    seq(|rows|, i requires 0 <= i < |rows| => FieldOf(rows[i]))
  }

  /** Numerals as they occur in the tables. */
  lemma {:induction false} TableNumerals()
    ensures AtoiValue("0") == 0 && AtoiValue("1") == 1 && AtoiValue("2") == 2 && AtoiValue("3") == 3
    ensures AtoiValue("4") == 4 && AtoiValue("5") == 5 && AtoiValue("6") == 6 && AtoiValue("7") == 7
    ensures AtoiValue("8") == 8 && AtoiValue("9") == 9
    ensures AtoiValue("10") == 10 && AtoiValue("11") == 11 && AtoiValue("12") == 12 && AtoiValue("13") == 13
    ensures AtoiValue("24") == 24
  {
    OneDigit(0); OneDigit(1); OneDigit(2); OneDigit(3); OneDigit(4);
    OneDigit(5); OneDigit(6); OneDigit(7); OneDigit(8); OneDigit(9);
    TwoDigits(1, 0); TwoDigits(1, 1); TwoDigits(1, 2); TwoDigits(1, 3); TwoDigits(2, 4);
  }

  lemma {:induction false} OneDigit(d: nat)
    requires d < 10
    ensures AtoiValue([DigitChar(d)]) == d
  {
    DecRoundTrip(d);
    assert IntText(d) == [DigitChar(d)];
  }

  lemma {:induction false} TwoDigits(d: nat, e: nat)
    requires 0 < d < 10 && e < 10
    ensures AtoiValue([DigitChar(d), DigitChar(e)]) == 10 * d + e
  {
    var n := 10 * d + e;
    DecRoundTrip(n);
    assert n / 10 == d && n % 10 == e;
    assert DecText(n) == DecText(d) + [DigitChar(e)] == [DigitChar(d), DigitChar(e)];
  }

  /** A byte field of a table. */
  function ByteField(name: string, pos: uint8, len: uint16): Field {
    Field(name, "", false, false, pos, 0, len, 8, 0, None, 0)
  }

  /** A variable byte field, its length held by the named field. */
  function VarField(name: string, pos: uint8, index: string): Field {
    Field(name, index, true, true, pos, 0, 0, 8, 0, None, 0)
  }

  function BitRow(name: string, pos: uint8, bit: uint8, len: uint16): Field {
    Field(name, "", false, false, pos, bit, len, 1, 0, None, 0)
  }

  function T3050(): seq<Field> {
    [ByteField(PROTO_NUM, 0, 2), ByteField(LEN, 2, 1), ByteField(EMB_FLAG, 3, 1), ByteField(SLOT_INFO, 4, 2),
     ByteField(SYNC_INFO, 6, 2), ByteField(TACT_INFO, 8, 1), ByteField(SLC_INFO, 9, 1),
     VarField(SLC_DATA, 10, SLC_INFO),
     ByteField(SYNC_INDEX, 10, 1), ByteField(ST_INFO, 11, 1), ByteField(DC_INFO, 12, 1), VarField(DC_DATA, 13, DC_INFO)]
  }

  function T3052(): seq<Field> {
    [ByteField(PROTO_NUM, 0, 2), ByteField(LEN, 2, 1), ByteField(EMB_FLAG, 3, 1), ByteField(SLOT_INFO, 4, 2),
     ByteField(SYNC_INFO, 6, 2), ByteField(TACT_INFO, 8, 1), ByteField(SLC_INFO, 9, 1),
     VarField(SLC_DATA, 10, SLC_INFO),
     ByteField(EMB_INFO, 10, 1), ByteField(LC_INFO, 11, 1), VarField(LC_DATA, 12, LC_INFO), ByteField(DC_INFO, 12, 1),
     VarField(DC_DATA, 13, DC_INFO)]
  }

  function T3054(): seq<Field> {
    [ByteField(PROTO_NUM, 0, 2), ByteField(NO_NAME1, 2, 1), ByteField(ST_INFO, 3, 1), ByteField(DC_INFO, 4, 1),
     VarField(DC_DATA, 5, DC_INFO)]
  }

  function TAckd(): seq<Field> {
    [BitRow("LB", 0, 7, 1), BitRow("PF", 0, 6, 1), BitRow("CSBKO", 0, 5, 6), BitRow("FID", 1, 7, 8),
     BitRow("RI", 2, 7, 7),
     BitRow("ARC", 2, 0, 8), BitRow("RSVD", 3, 0, 1), BitRow("TADDR", 4, 7, 24), BitRow("SADDR", 7, 7, 24)]
  }

  /** One table line, once its numerals are known. */
  lemma {:induction false} RowField(r: Row, pos: uint8, bit: uint8, len: uint16, unit: uint8)
    requires AtoiValue(r.bytePos) == pos && AtoiValue(r.bitPos) == bit && AtoiValue(r.len) == len
    requires AtoiValue(r.lenUnit) == unit
    requires r.vlenIndex.Some? ==> r.vlenIndex.value != ""
    ensures FieldOf(r) == Field(r.name, if r.vlenIndex.Some? then r.vlenIndex.value else "",
                                r.vlenIndex.Some?, r.vlenIndex.Some?, pos, bit, len, unit, 0, None, 0)
  {
    hide AtoiValue;
  }

  lemma {:induction false} Built3054()
    ensures Template(ROWS_3054) == T3054()
  {
    hide FieldOf, AtoiValue;
    TableNumerals();
    RowField(ROWS_3054[0], 0, 0, 2, 8);
    RowField(ROWS_3054[1], 2, 0, 1, 8);
    RowField(ROWS_3054[2], 3, 0, 1, 8);
    RowField(ROWS_3054[3], 4, 0, 1, 8);
    RowField(ROWS_3054[4], 5, 0, 0, 8);
  }

  lemma {:induction false} BuiltFirst3050()
    ensures forall i :: 0 <= i < 6 ==> FieldOf(ROWS_3050[i]) == T3050()[i]
  {
    hide FieldOf, AtoiValue;
    TableNumerals();
    RowField(ROWS_3050[0], 0, 0, 2, 8);
    RowField(ROWS_3050[1], 2, 0, 1, 8);
    RowField(ROWS_3050[2], 3, 0, 1, 8);
    RowField(ROWS_3050[3], 4, 0, 2, 8);
    RowField(ROWS_3050[4], 6, 0, 2, 8);
    RowField(ROWS_3050[5], 8, 0, 1, 8);
  }

  lemma {:induction false} BuiltRest3050()
    ensures forall i :: 6 <= i < 12 ==> FieldOf(ROWS_3050[i]) == T3050()[i]
  {
    hide FieldOf, AtoiValue;
    TableNumerals();
    RowField(ROWS_3050[6], 9, 0, 1, 8);
    RowField(ROWS_3050[7], 10, 0, 0, 8);
    RowField(ROWS_3050[8], 10, 0, 1, 8);
    RowField(ROWS_3050[9], 11, 0, 1, 8);
    RowField(ROWS_3050[10], 12, 0, 1, 8);
    RowField(ROWS_3050[11], 13, 0, 0, 8);
  }

  lemma {:induction false} Built3050()
    ensures Template(ROWS_3050) == T3050()
  {
    BuiltFirst3050();
    BuiltRest3050();
    assert |ROWS_3050| == 12 == |T3050()|;
    hide FieldOf, T3050;
    assert Template(ROWS_3050) == T3050();
  }

  lemma {:induction false} BuiltHead3052()
    ensures forall i :: 0 <= i < 3 ==> FieldOf(ROWS_3052[i]) == T3052()[i]
  {
    hide FieldOf, AtoiValue;
    TableNumerals();
    RowField(ROWS_3052[0], 0, 0, 2, 8);
    RowField(ROWS_3052[1], 2, 0, 1, 8);
    RowField(ROWS_3052[2], 3, 0, 1, 8);
  }

  lemma {:induction false} BuiltFirst3052()
    ensures forall i :: 3 <= i < 6 ==> FieldOf(ROWS_3052[i]) == T3052()[i]
  {
    hide FieldOf, AtoiValue;
    TableNumerals();
    RowField(ROWS_3052[3], 4, 0, 2, 8);
    RowField(ROWS_3052[4], 6, 0, 2, 8);
    RowField(ROWS_3052[5], 8, 0, 1, 8);
  }

  lemma {:induction false} BuiltRest3052()
    ensures forall i :: 6 <= i < 13 ==> FieldOf(ROWS_3052[i]) == T3052()[i]
  {
    hide FieldOf, AtoiValue;
    TableNumerals();
    RowField(ROWS_3052[6], 9, 0, 1, 8);
    RowField(ROWS_3052[7], 10, 0, 0, 8);
    RowField(ROWS_3052[8], 10, 0, 1, 8);
    RowField(ROWS_3052[9], 11, 0, 1, 8);
    RowField(ROWS_3052[10], 12, 0, 0, 8);
    RowField(ROWS_3052[11], 12, 0, 1, 8);
    RowField(ROWS_3052[12], 13, 0, 0, 8);
  }

  lemma {:induction false} Built3052()
    ensures Template(ROWS_3052) == T3052()
  {
    BuiltHead3052();
    BuiltFirst3052();
    BuiltRest3052();
    assert |ROWS_3052| == 13 == |T3052()|;
    hide FieldOf, T3052;
    assert Template(ROWS_3052) == T3052();
  }

  lemma {:induction false} BuiltAckd()
    ensures Template(ROWS_ACKD) == TAckd()
  {
    hide FieldOf, AtoiValue;
    TableNumerals();
    RowField(ROWS_ACKD[0], 0, 7, 1, 1);
    RowField(ROWS_ACKD[1], 0, 6, 1, 1);
    RowField(ROWS_ACKD[2], 0, 5, 6, 1);
    RowField(ROWS_ACKD[3], 1, 7, 8, 1);
    RowField(ROWS_ACKD[4], 2, 7, 7, 1);
    RowField(ROWS_ACKD[5], 2, 0, 8, 1);
    RowField(ROWS_ACKD[6], 3, 0, 1, 1);
    RowField(ROWS_ACKD[7], 4, 7, 24, 1);
    RowField(ROWS_ACKD[8], 7, 7, 24, 1);
  }

  // ---------- byte tables ----------

  /** k is the field that variable field j of table t takes its length from. */
  predicate MeasuredBy(t: seq<Field>, j: nat, k: nat) {
    && k < j < |t| && |t[j].vlenIndex| < KEY_SIZE && '\0' !in t[j].vlenIndex
    && t[k].name == t[j].vlenIndex && !t[k].vlenFlag
    && forall m :: k < m < |t| ==> t[m].name != t[j].vlenIndex
  }

  /** A small fixed byte field, or a variable one measured by an earlier field. */
  ghost predicate ByteRow(t: seq<Field>, j: nat)
    requires j < |t|
  {
    && t[j].lenUnit == 8 && t[j].bitPos == 0 && t[j].vlenFlagBak == t[j].vlenFlag
    && (!t[j].vlenFlag ==> t[j].len <= 4)
    && (t[j].vlenFlag ==> exists k :: MeasuredBy(t, j, k))
    && (j + 1 < |t| ==> t[j].bytePos + (if t[j].vlenFlag then 0 else t[j].len) <= t[j + 1].bytePos)
  }

  /** A table of byte fields in order and without overlap. */
  ghost predicate ByteTable(t: seq<Field>) {
    CNamed(t) && forall j :: 0 <= j < |t| ==> ByteRow(t, j)
  }

  lemma {:induction false} MeasuredIsLookup(t: seq<Field>, j: nat, k: nat)
    requires CNamed(t) && MeasuredBy(t, j, k)
    ensures Lookup(t, t[j].vlenIndex) == Some(k)
  {
    forall m | 0 <= m < |t| ensures PadKey(t[m].name) == PadKey(t[j].vlenIndex) <==> t[m].name == t[j].vlenIndex {
      PaddingInjective(t[m].name, t[j].vlenIndex);
    }
    hide PadKey;
  }

  lemma {:induction false} NamesAreCStrings()
    ensures '\0' !in PROTO_NUM && '\0' !in LEN && '\0' !in SLOT_INFO && '\0' !in SYNC_INFO && '\0' !in TACT_INFO
    ensures '\0' !in SLC_INFO && '\0' !in SLC_DATA && '\0' !in SYNC_INDEX && '\0' !in ST_INFO && '\0' !in DC_INFO
    ensures '\0' !in DC_DATA && '\0' !in EMB_FLAG && '\0' !in EMB_INFO && '\0' !in LC_INFO && '\0' !in LC_DATA
    ensures '\0' !in NO_NAME1
  {
  }

  lemma {:induction false} Named3050()
    ensures CNamed(T3050())
  {
    NamesAreCStrings();
  }

  lemma {:induction false} Named3052()
    ensures CNamed(T3052())
  {
    NamesAreCStrings();
  }

  lemma {:induction false} Named3054()
    ensures CNamed(T3054())
  {
    NamesAreCStrings();
  }

  lemma {:induction false} Table3054IsByteTable()
    ensures ByteTable(T3054())
  {
    assert MeasuredBy(T3054(), 4, 3);
    assert CNamed(T3054());
    hide MeasuredBy, CNamed;
  }

  lemma {:induction false} Table3050IsByteTable()
    ensures ByteTable(T3050())
  {
    assert MeasuredBy(T3050(), 7, 6);
    assert MeasuredBy(T3050(), 11, 10);
    hide MeasuredBy, CNamed;
    Named3050();
  }

  lemma {:induction false} Measured3052()
    ensures MeasuredBy(T3052(), 7, 6) && MeasuredBy(T3052(), 10, 9) && MeasuredBy(T3052(), 12, 11)
  {
  }

  lemma {:induction false} Table3052IsByteTable()
    ensures ByteTable(T3052())
  {
    hide MeasuredBy, CNamed;
    Measured3052();
    Named3052();
  }

  /** fs is the table with values filled in. */
  ghost predicate Filled(t: seq<Field>, fs: seq<Field>) {
    |fs| == |t| && forall j :: 0 <= j < |t| ==>
      fs[j] == t[j].(data := fs[j].data, buf := fs[j].buf, bufLen := fs[j].bufLen)
  }

  /** Every number fits the length its field ends up with, and longer fields have a buffer of that length. */
  ghost predicate ValuesFit(fs: seq<Field>) {
    forall j :: 0 <= j < |fs| ==>
      if FinalLen(fs, j) <= 4 then fs[j].data < Pow2(8 * FinalLen(fs, j))
      else fs[j].buf.Some? && FinalLen(fs, j) <= |fs[j].buf.value|
  }

  /** Length in bytes of the message the values make. */
  function MessageLen(fs: seq<Field>): nat {
    if fs == [] then 0 else fs[|fs| - 1].bytePos + Pending(fs, 0, |fs| - 1) + FinalLen(fs, |fs| - 1)
  }

  lemma {:induction false} FilledLookup(t: seq<Field>, fs: seq<Field>, j: nat, k: nat)
    requires ByteTable(t) && Filled(t, fs) && j < |t| && t[j].vlenFlag && MeasuredBy(t, j, k)
    ensures Lookup(fs, fs[j].vlenIndex) == Some(k) && FinalLen(fs, j) == fs[k].data && FinalLen(fs, k) == t[k].len <= 4
  {
    MeasuredIsLookup(t, j, k);
    LookupByNames(t, fs, |t|, PadKey(t[j].vlenIndex));
    assert ByteRow(t, k);
  }

  lemma {:induction false} FilledField(t: seq<Field>, fs: seq<Field>, j: nat)
    requires ByteTable(t) && Filled(t, fs) && ValuesFit(fs) && j < |t|
    ensures FieldWF(fs, j)
  {
    assert ByteRow(t, j);
    if t[j].vlenFlag {
      var k :| MeasuredBy(t, j, k);
      FilledLookup(t, fs, j, k);
      assert ByteRow(t, k);
    }
  }

  /** Field ends never decrease along a table, so the last end bounds them all. */
  lemma {:induction false} EndsBelowLast(t: seq<Field>, fs: seq<Field>, j: nat)
    requires ByteTable(t) && Filled(t, fs) && j < |t|
    ensures fs[j].bytePos + Pending(fs, 0, j) + FinalLen(fs, j) <= MessageLen(fs)
    decreases |t| - j
  {
    if j + 1 < |t| {
      EndsBelowLast(t, fs, j + 1);
      assert ByteRow(t, j);
      assert Pending(fs, 0, j + 1) == Pending(fs, 0, j) + Own(fs, j);
    }
  }

  /** Any values that fit, in a message that fits, meet the conditions of the round trip. */
  lemma {:induction false} FilledTableWellFormed(t: seq<Field>, fs: seq<Field>, size: nat)
    requires ByteTable(t) && Filled(t, fs) && ValuesFit(fs) && MessageLen(fs) <= size < 0x100
    ensures WellFormed(fs, 0, size) && AllExact(fs)
  {
    forall j | 0 <= j < |fs| ensures FieldWF(fs, j) { FilledField(t, fs, j); }
    forall j | 0 <= j < |fs| ensures StartBits(fs[j]) + 8 * Pending(fs, 0, j) + FinalWidth(fs, j) <= 8 * size {
      assert ByteRow(t, j);
      EndsBelowLast(t, fs, j);
    }
    forall j | 0 <= j < |fs| - 1
      ensures StartBits(fs[j]) + (if fs[j].vlenFlag then 0 else Width(fs[j])) <= StartBits(fs[j + 1])
    {
      assert ByteRow(t, j) && ByteRow(t, j + 1);
    }
    forall j | 0 <= j < |fs| ensures fs[j].lenUnit == 8 { assert ByteRow(t, j); }
  }

  /** So for each of the driver's tables: whatever values are sent in a message of at most 100 bytes, a new analyzer
      of the same table reads exactly those values. */
  lemma {:induction false} TableRoundTrip(t: seq<Field>, fs: seq<Field>, rs: seq<Field>)
    requires t == T3050() || t == T3052() || t == T3054()
    requires Filled(t, fs) && ValuesFit(fs) && MessageLen(fs) <= MAX_PROTO_DATA_LEN && Filled(t, rs)
    ensures GenSafe(fs, 0, MAX_PROTO_DATA_LEN)
    ensures var message := GenFrom(fs, 0, Zeros(MAX_PROTO_DATA_LEN)).1;
            && ParseSafe(rs, 0, message)
            && forall j :: 0 <= j < |fs| ==> ValueOf(ParseFrom(rs, 0, message)[j]) == Sent(fs, j)
  {
    hide ByteTable, ValuesFit, WellFormed, AllExact, GenFrom, GenSafe, ParseFrom, ParseSafe, MessageLen, Sent, ValueOf;
    if t == T3050() {
      Table3050IsByteTable();
    } else if t == T3052() {
      Table3052IsByteTable();
    } else {
      Table3054IsByteTable();
    }
    hide T3050, T3052, T3054;
    FilledTableWellFormed(t, fs, MAX_PROTO_DATA_LEN);
    assert Aligned(fs, rs);
    GenerateStaysInside(fs, 0, MAX_PROTO_DATA_LEN);
    MessageRoundTrip(fs, rs, MAX_PROTO_DATA_LEN);
    ExactRoundTrip(fs, rs, MAX_PROTO_DATA_LEN);
  }

  // ---------- the bit table ----------

  function AsBitField(f: Field): BitField { BitField(f.bytePos, f.bitPos, f.len, f.data) }

  function AsBitFields(fs: seq<Field>): (r: seq<BitField>)
    ensures |r| == |fs| && forall j :: 0 <= j < |fs| ==> r[j] == AsBitField(fs[j])
  {
    seq(|fs|, j requires 0 <= j < |fs| => AsBitField(fs[j]))
  }

  ghost predicate BitTable(fs: seq<Field>) {
    forall j :: 0 <= j < |fs| ==> fs[j].lenUnit == 1 && !fs[j].vlenFlag && fs[j].bitPos <= 7
  }

  /** For a table of bit fields generate is nothing but one bit-field write after the other. */
  lemma {:induction false} GenerateIsWriteAll(fs: seq<Field>, i: nat, dp: seq<uint8>)
    requires BitTable(fs) && i <= |fs|
    ensures GenFrom(fs, i, dp).1 == WriteAll(dp, AsBitFields(fs)[i..])
    decreases |fs| - i
  {
    var bs := AsBitFields(fs)[i..];
    if i < |fs| {
      GenerateIsWriteAll(fs, i + 1, WriteField(dp, fs[i]));
      assert bs[1..] == AsBitFields(fs)[i + 1..] && bs[0] == AsBitField(fs[i]);
      hide FieldIO.WriteBits;
    }
  }

  /** Start and width of the nine fields on the bit stream: 0, 1, 2, 8, 16, 23, 31, 32, 56, 80 are the seams. */
  lemma {:induction false} AckdSeams(fs: seq<Field>, j: nat)
    requires Filled(TAckd(), fs) && j < 9
    ensures AsBitField(fs[j]).Start() == [0, 1, 2, 8, 16, 23, 31, 32, 56][j]
    ensures AsBitField(fs[j]).Start() + fs[j].len == [1, 2, 8, 16, 23, 31, 32, 56, 80][j]
  {
  }

  lemma {:induction false} AckdDisjoint(fs: seq<Field>)
    requires Filled(TAckd(), fs)
    ensures Disjoint(AsBitFields(fs)) && BitTable(fs)
  {
    var bs := AsBitFields(fs);
    forall i, j | 0 <= i < j < |bs| ensures bs[i].Apart(bs[j]) {
      AckdSeams(fs, i);
      AckdSeams(fs, j);
    }
  }

  lemma {:induction false} AckdAllOk(fs: seq<Field>, zeros: seq<uint8>)
    requires Filled(TAckd(), fs) && |zeros| == MAX_PROTO_DATA_LEN && forall k :: 0 <= k < 9 ==>
             fs[k].data < Pow2(fs[k].len)
    ensures AllOk(AsBitFields(fs), |zeros|)
  {
    var bs := AsBitFields(fs);
    forall k | 0 <= k < |bs| ensures bs[k].Ok(|zeros|) { AckdSeams(fs, k); }
  }

  /** Which ackd values set the bit directly above field j: LB above PF, PF above CSBKO, the last bit of RI above ARC
      and the last bit of ARC above RSVD. The other fields begin at bit 7. */
  predicate AckdAbove(fs: seq<Field>, j: nat)
    requires |fs| == 9 && j < 9
  {
    match j
    case 1 => fs[0].data % 2 == 1
    case 2 => fs[1].data % 2 == 1
    case 5 => fs[4].data % 2 == 1
    case 6 => fs[5].data % 2 == 1
    case _ => false
  }

  lemma {:induction false} AckdSetAbove(fs: seq<Field>, j: nat)
    requires Filled(TAckd(), fs) && j < 9
    ensures SetAbove(AsBitFields(fs), j) <==> AckdAbove(fs, j)
  {
    var bs := AsBitFields(fs);
    AckdDisjoint(fs);
    AckdSeams(fs, j);
    AckdStartsAtSeven(fs, j);
    if bs[j].bitPos < 7 {
      AckdSeams(fs, j - 1);
      hide Disjoint, TAckd, Filled, SomeSets;
      LastBitSet(bs, j - 1);
    }
  }

  lemma {:induction false} AckdStartsAtSeven(fs: seq<Field>, j: nat)
    requires Filled(TAckd(), fs) && j < 9
    ensures fs[j].len > 0 && fs[j].bitPos <= 7 && (fs[j].bitPos < 7 <==> j == 1 || j == 2 || j == 5 || j == 6)
    ensures j > 0 ==> fs[j - 1].len > 0
  {
  }

  /** The ackd message: each field reads back its value, plus 2^len when the value above it sets its last bit. */
  lemma {:induction false} AckdRoundTrip(fs: seq<Field>, j: nat)
    requires Filled(TAckd(), fs) && j < 9 && forall k :: 0 <= k < 9 ==> fs[k].data < Pow2(fs[k].len)
    ensures FieldIO.ReadBits(GenFrom(fs, 0, Zeros(MAX_PROTO_DATA_LEN)).1, fs[j].bytePos, fs[j].bitPos, fs[j].len)
         == WithSurplus(fs[j].data, fs[j].len, AckdAbove(fs, j))
  {
    var bs, zeros := AsBitFields(fs), Zeros(MAX_PROTO_DATA_LEN);
    AckdDisjoint(fs);
    AckdSetAbove(fs, j);
    GenerateIsWriteAll(fs, 0, zeros);
    assert bs[0..] == bs;
    AckdAllOk(fs, zeros);
    forall s: nat ensures !StreamBit(zeros, s) { ZerosClear(MAX_PROTO_DATA_LEN, s); }
    hide GenFrom, WriteAll, SetAbove, AckdAbove;
    PackedFieldReadsBack(zeros, bs, j);
  }

  /** Field j of the message the values make, as the receiver reads it. */
  function AckdRead(fs: seq<Field>, j: nat): uint32
    requires j < |fs| && fs[j].bitPos <= 7
  {
    FieldIO.ReadBits(GenFrom(fs, 0, Zeros(MAX_PROTO_DATA_LEN)).1, fs[j].bytePos, fs[j].bitPos, fs[j].len)
  }

  /** All nine fields read exactly if and only if LB and PF are 0 and RI and ARC are even. */
  lemma {:induction false} AckdReadsExactlyIff(fs: seq<Field>)
    requires Filled(TAckd(), fs) && forall k :: 0 <= k < 9 ==> fs[k].data < Pow2(fs[k].len)
    ensures |fs| == 9 && forall j :: 0 <= j < 9 ==> fs[j].bitPos <= 7
    ensures (forall j :: 0 <= j < 9 ==> AckdRead(fs, j) == fs[j].data)
       <==> fs[0].data == 0 && fs[1].data == 0 && fs[4].data % 2 == 0 && fs[5].data % 2 == 0
  {
    AckdWidths(fs);
    hide GenFrom, Filled, TAckd, FieldIO.ReadBits, AckdAbove;
    forall j | 0 <= j < 9 ensures AckdRead(fs, j) == fs[j].data <==> !AckdAbove(fs, j) {
      AckdRoundTrip(fs, j);
      ExactWithoutSurplus(fs[j].data, fs[j].len, AckdAbove(fs, j));
    }
    AckdNothingAbove(fs);
  }

  /** In particular the PF flag reads as itself plus twice the LB flag. */
  lemma {:induction false} AckdFlagTakesNeighbour(fs: seq<Field>)
    requires Filled(TAckd(), fs) && forall k :: 0 <= k < 9 ==> fs[k].data < Pow2(fs[k].len)
    ensures FieldIO.ReadBits(GenFrom(fs, 0, Zeros(MAX_PROTO_DATA_LEN)).1, 0, 6, 1) == fs[1].data + 2 * fs[0].data
  {
    hide GenFrom, Filled, TAckd, FieldIO.ReadBits;
    AckdWidths(fs);
    AckdRoundTrip(fs, 1);
    assert Pow2(1) == 2;
  }

  lemma {:induction false} AckdWidths(fs: seq<Field>)
    requires Filled(TAckd(), fs) && forall k :: 0 <= k < 9 ==> fs[k].data < Pow2(fs[k].len)
    ensures |fs| == 9 && fs[0].data < 2 && fs[1].data < 2 && fs[1].bytePos == 0 && fs[1].bitPos == 6 && fs[1].len == 1
    ensures forall j :: 0 <= j < 9 ==> fs[j].len < 32 && fs[j].bitPos <= 7
  {
    assert Pow2(1) == 2;
    assert fs[0].len == 1 && fs[1].len == 1;
  }

  lemma {:induction false} AckdNothingAbove(fs: seq<Field>)
    requires |fs| == 9 && fs[0].data < 2 && fs[1].data < 2
    ensures (forall j :: 0 <= j < 9 ==> !AckdAbove(fs, j))
       <==> fs[0].data == 0 && fs[1].data == 0 && fs[4].data % 2 == 0 && fs[5].data % 2 == 0
  {
    if forall j :: 0 <= j < 9 ==> !AckdAbove(fs, j) {
      assert !AckdAbove(fs, 1) && !AckdAbove(fs, 2) && !AckdAbove(fs, 5) && !AckdAbove(fs, 6);
    }
  }

  /** pfs_set_proto_format_3054. */
  method PfsSetProtoFormat3054() returns (list: seq<ProtoInfo>)
    ensures Views(list) == T3054()
  {
    Built3054();
    hide FieldOf, T3054, NulFree;
    Rows3054NulFree();
    list := [];
    assert ROWS_3054[..0] == [];
    list := Append(ROWS_3054, 0, list);
    list := Append(ROWS_3054, 1, list);
    list := Append(ROWS_3054, 2, list);
    list := Append(ROWS_3054, 3, list);
    list := Append(ROWS_3054, 4, list);
    assert ROWS_3054[..5] == ROWS_3054;
  }

  lemma {:induction false} Rows3054NulFree()
    ensures forall r :: r in ROWS_3054 ==> NulFree(r)
  {
  }

  /** One PFS_SET_PROTO_INFO line of a table. */
  method Append(rows: seq<Row>, i: nat, list: seq<ProtoInfo>) returns (longer: seq<ProtoInfo>)
    requires i < |rows| && NulFree(rows[i]) && Views(list) == Template(rows[..i])
    ensures Views(longer) == Template(rows[..i + 1])
  {
    hide FieldOf;
    longer := PfsSetProtoInfo(rows[i], list);
    assert forall j :: 0 <= j < i ==> longer[j] == longer[..i][j];
  }

  // ---------- where the driver's fields stand ----------

  /** The field of that name is a fixed byte field of len bytes at byte pos. */
  ghost predicate Stands(t: seq<Field>, name: string, pos: nat, len: nat) {
    var r := Lookup(t, name);
    r.Some? && var f := t[r.value];
    f.name == name && f.lenUnit == 8 && f.bytePos == pos && f.bitPos == 0 && f.len == len && !f.vlenFlag
  }

  /** The field of that name is a variable byte field from byte pos on, of as many bytes as the named field says. */
  ghost predicate Trails(t: seq<Field>, name: string, pos: nat, index: string) {
    var r := Lookup(t, name);
    r.Some? && var f := t[r.value];
    f.name == name && f.lenUnit == 8 && f.bytePos == pos && f.bitPos == 0 && f.vlenFlag && f.vlenIndex == index
  }

  /** Three characters and the length, enough to tell the driver's names apart. */
  function Mark(name: string): (char, char, char, nat) {
    if |name| < 5 then (' ', ' ', ' ', |name|) else (name[0], name[1], name[4], |name|)
  }

  lemma {:induction false} Marks()
    ensures Mark("proto_num") == ('p', 'r', 'o', 9)
    ensures Mark("len") == (' ', ' ', ' ', 3)
    ensures Mark("emb_flag") == ('e', 'm', 'f', 8)
    ensures Mark("slot_info") == ('s', 'l', '_', 9)
    ensures Mark("sync_info") == ('s', 'y', '_', 9)
    ensures Mark("tact_info") == ('t', 'a', '_', 9)
    ensures Mark("slc_info") == ('s', 'l', 'i', 8)
    ensures Mark("slc_data") == ('s', 'l', 'd', 8)
    ensures Mark("sync_index") == ('s', 'y', '_', 10)
    ensures Mark("st_info") == ('s', 't', 'n', 7)
    ensures Mark("dc_info") == ('d', 'c', 'n', 7)
    ensures Mark("dc_data") == ('d', 'c', 'a', 7)
    ensures Mark("emb_info") == ('e', 'm', 'i', 8)
    ensures Mark("lc_info") == ('l', 'c', 'n', 7)
    ensures Mark("lc_data") == ('l', 'c', 'a', 7)
    ensures Mark("no_name1") == ('n', 'o', 'a', 8)
  {
  }

  lemma {:induction false} MarkedLookup(t: seq<Field>, k: nat, name: string)
    requires CNamed(t) && k < |t| && t[k].name == name && |name| < KEY_SIZE
    requires forall m :: k < m < |t| ==> Mark(t[m].name) != Mark(name)
    ensures Lookup(t, name) == Some(k)
  {
    NamedLookup(t, k, name);
  }

  lemma {:induction false} Names3054()
    ensures |T3054()| == 5 && CNamed(T3054())
    ensures T3054()[0] == ByteField("proto_num", 0, 2)
    ensures T3054()[1] == ByteField("no_name1", 2, 1)
    ensures T3054()[2] == ByteField("st_info", 3, 1)
    ensures T3054()[3] == ByteField("dc_info", 4, 1)
    ensures T3054()[4] == VarField("dc_data", 5, "dc_info")
  {
    Named3054();
  }

  lemma {:induction false} Names3050()
    ensures |T3050()| == 12 && CNamed(T3050())
    ensures T3050()[0] == ByteField("proto_num", 0, 2)
    ensures T3050()[1] == ByteField("len", 2, 1)
    ensures T3050()[2] == ByteField("emb_flag", 3, 1)
    ensures T3050()[3] == ByteField("slot_info", 4, 2)
    ensures T3050()[4] == ByteField("sync_info", 6, 2)
    ensures T3050()[5] == ByteField("tact_info", 8, 1)
    ensures T3050()[6] == ByteField("slc_info", 9, 1)
    ensures T3050()[7] == VarField("slc_data", 10, "slc_info")
    ensures T3050()[8] == ByteField("sync_index", 10, 1)
    ensures T3050()[9] == ByteField("st_info", 11, 1)
    ensures T3050()[10] == ByteField("dc_info", 12, 1)
    ensures T3050()[11] == VarField("dc_data", 13, "dc_info")
  {
    Named3050();
  }

  lemma {:induction false} Names3052()
    ensures |T3052()| == 13 && CNamed(T3052())
    ensures T3052()[0] == ByteField("proto_num", 0, 2)
    ensures T3052()[1] == ByteField("len", 2, 1)
    ensures T3052()[2] == ByteField("emb_flag", 3, 1)
    ensures T3052()[3] == ByteField("slot_info", 4, 2)
    ensures T3052()[4] == ByteField("sync_info", 6, 2)
    ensures T3052()[5] == ByteField("tact_info", 8, 1)
    ensures T3052()[6] == ByteField("slc_info", 9, 1)
    ensures T3052()[7] == VarField("slc_data", 10, "slc_info")
    ensures T3052()[8] == ByteField("emb_info", 10, 1)
    ensures T3052()[9] == ByteField("lc_info", 11, 1)
    ensures T3052()[10] == VarField("lc_data", 12, "lc_info")
    ensures T3052()[11] == ByteField("dc_info", 12, 1)
    ensures T3052()[12] == VarField("dc_data", 13, "dc_info")
  {
    Named3052();
  }

  /** The wire format of 0x3054. */
  lemma {:induction false} Places3054()
    ensures Stands(T3054(), "proto_num", 0, 2) && Stands(T3054(), "no_name1", 2, 1)
    ensures Stands(T3054(), "st_info", 3, 1) && Stands(T3054(), "dc_info", 4, 1)
    ensures Trails(T3054(), "dc_data", 5, "dc_info")
  {
    hide T3054, Mark, Lookup, CNamed;
    Names3054();
    Marks();
    MarkedLookup(T3054(), 0, "proto_num");
    MarkedLookup(T3054(), 1, "no_name1");
    MarkedLookup(T3054(), 2, "st_info");
    MarkedLookup(T3054(), 3, "dc_info");
    MarkedLookup(T3054(), 4, "dc_data");
  }

  /** The wire format of 0x3050. sync_index, one byte at position 10, has a name too long for the index. */
  lemma {:induction false} Places3050()
    ensures Stands(T3050(), "proto_num", 0, 2) && Stands(T3050(), "len", 2, 1) && Stands(T3050(), "emb_flag", 3, 1)
    ensures Stands(T3050(), "slot_info", 4, 2) && Stands(T3050(), "sync_info", 6, 2)
    ensures Stands(T3050(), "tact_info", 8, 1) && Stands(T3050(), "slc_info", 9, 1)
    ensures Trails(T3050(), "slc_data", 10, "slc_info") && Stands(T3050(), "st_info", 11, 1)
    ensures Stands(T3050(), "dc_info", 12, 1) && Trails(T3050(), "dc_data", 13, "dc_info")
  {
    hide T3050, Mark, Lookup, CNamed;
    Names3050();
    Marks();
    MarkedLookup(T3050(), 0, "proto_num");
    MarkedLookup(T3050(), 1, "len");
    MarkedLookup(T3050(), 2, "emb_flag");
    MarkedLookup(T3050(), 3, "slot_info");
    MarkedLookup(T3050(), 4, "sync_info");
    MarkedLookup(T3050(), 5, "tact_info");
    MarkedLookup(T3050(), 6, "slc_info");
    MarkedLookup(T3050(), 7, "slc_data");
    MarkedLookup(T3050(), 9, "st_info");
    MarkedLookup(T3050(), 10, "dc_info");
    MarkedLookup(T3050(), 11, "dc_data");
  }

  /** The wire format of 0x3052. */
  lemma {:induction false} Places3052()
    ensures Stands(T3052(), "proto_num", 0, 2) && Stands(T3052(), "len", 2, 1) && Stands(T3052(), "emb_flag", 3, 1)
    ensures Stands(T3052(), "slot_info", 4, 2) && Stands(T3052(), "sync_info", 6, 2)
    ensures Stands(T3052(), "tact_info", 8, 1) && Stands(T3052(), "slc_info", 9, 1)
    ensures Trails(T3052(), "slc_data", 10, "slc_info") && Stands(T3052(), "emb_info", 10, 1)
    ensures Stands(T3052(), "lc_info", 11, 1) && Trails(T3052(), "lc_data", 12, "lc_info")
    ensures Stands(T3052(), "dc_info", 12, 1) && Trails(T3052(), "dc_data", 13, "dc_info")
  {
    hide T3052, Mark, Lookup, CNamed;
    Names3052();
    Marks();
    MarkedLookup(T3052(), 0, "proto_num");
    MarkedLookup(T3052(), 1, "len");
    MarkedLookup(T3052(), 2, "emb_flag");
    MarkedLookup(T3052(), 3, "slot_info");
    MarkedLookup(T3052(), 4, "sync_info");
    MarkedLookup(T3052(), 5, "tact_info");
    MarkedLookup(T3052(), 6, "slc_info");
    MarkedLookup(T3052(), 7, "slc_data");
    MarkedLookup(T3052(), 8, "emb_info");
    MarkedLookup(T3052(), 9, "lc_info");
    MarkedLookup(T3052(), 10, "lc_data");
    MarkedLookup(T3052(), 11, "dc_info");
    MarkedLookup(T3052(), 12, "dc_data");
  }
}
