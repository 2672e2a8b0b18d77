/** Field descriptors and what one pass of generate or parse does to them: the value-level specification of
    protocol_analyzer.c. The analyzer's methods are proved equal to these functions. */
module Format {
  import opened CTypes
  import opened FieldIO

  /** One proto_info_list_t. A buffer is the memory behind buf.data_p, None for NULL; bufLen is buf.len. */
  datatype Field = Field(
    name: string, vlenIndex: string, vlenFlag: bool, vlenFlagBak: bool,
    bytePos: uint8, bitPos: uint8, len: uint16, lenUnit: uint8,
    data: uint32, buf: Option<seq<uint8>>, bufLen: uint16)

  const KEY_SIZE: nat := 10

  /** The first ten bytes of a zero-filled name, the key under which a field is indexed. */
  function PadKey(name: string): (key: string)
    ensures |key| == KEY_SIZE
  {
    if |name| >= KEY_SIZE then name[..KEY_SIZE] else name + seq(KEY_SIZE - |name|, _ => '\0')
  }

  /** Index lookup among the first n fields: chains are newest first, so the last match wins. */
  function LastWith(fs: seq<Field>, n: nat, key: string): (r: Option<nat>)
    requires n <= |fs|
    ensures r.Some? ==> r.value < n && PadKey(fs[r.value].name) == key
    ensures r.Some? ==> forall j :: r.value < j < n ==> PadKey(fs[j].name) != key
    ensures r.None? ==> forall j :: 0 <= j < n ==> PadKey(fs[j].name) != key
  {
    if n == 0 then None
    else if PadKey(fs[n - 1].name) == key then Some(n - 1)
    else LastWith(fs, n - 1, key)
  }

  function Lookup(fs: seq<Field>, name: string): (r: Option<nat>)
    ensures r.Some? ==> r.value < |fs|
  {
    LastWith(fs, |fs|, PadKey(name))
  }

  // ---------- one field ----------

  function BytesAt(dp: seq<uint8>, p: nat, n: nat): (b: seq<uint8>)
    ensures |b| == n
    ensures forall i :: 0 <= i < n && p + i < |dp| ==> b[i] == dp[p + i]
  {
    seq(n, i requires 0 <= i => if p + i < |dp| then dp[p + i] else 0)
  }

  function Splice(dp: seq<uint8>, p: nat, b: seq<uint8>): seq<uint8>
    requires p + |b| <= |dp|
  {
    dp[..p] + b + dp[p + |b|..]
  }

  /** pa_get_protocol_buf: reuse the memory when the recorded length suffices, otherwise replace it. */
  function StoreBuf(f: Field, b: seq<uint8>): Field
    requires |b| == f.len
  {
    var kept := if f.buf.Some? && f.len <= f.bufLen && f.len <= |f.buf.value| then f.buf.value[f.len..] else [];
    f.(buf := Some(b + kept), bufLen := f.len)
  }

  function ReadField(f: Field, dp: seq<uint8>): Field {
    if f.lenUnit == 8 then
      if f.len <= 4 then f.(data := ToUint32(ReadBytes(dp, f.bytePos, f.len)))
      else StoreBuf(f, BytesAt(dp, f.bytePos, f.len))
    else if f.lenUnit == 1 && f.bitPos <= 7 then f.(data := ReadBits(dp, f.bytePos, f.bitPos, f.len))
    else f
  }

  function WriteField(dp: seq<uint8>, f: Field): seq<uint8> {
    if f.lenUnit == 8 then
      if f.len <= 4 then WriteBytes(dp, f.bytePos, f.len, f.data)
      else if f.bitPos == 0 && f.buf.Some? && f.len <= |f.buf.value| && f.bytePos + f.len <= |dp| then
        Splice(dp, f.bytePos, f.buf.value[..f.len])
      else dp
    else if f.lenUnit == 1 && f.bitPos <= 7 then WriteBits(dp, f.bytePos, f.bitPos, f.len, f.data)
    else dp
  }

  // ---------- layout ----------

  /** How far a variable field of n units moves the fields behind it. */
  function ShiftOf(n: uint32, lenUnit: uint8): nat {
    ToUint32(n * lenUnit) / 8
  }

  function Moved(f: Field, shift: nat): Field {
    f.(bytePos := ToUint8(f.bytePos + shift))
  }

  /** pa_recompute_byte_pos: fix the length of field i from its length field and move everything behind it. */
  function Recompute(fs: seq<Field>, i: nat): (r: seq<Field>)
    requires i < |fs|
    ensures |r| == |fs|
  {
    match Lookup(fs, fs[i].vlenIndex)
    case None => fs
    case Some(k) =>
      var n := fs[k].data;
      seq(|fs|, j requires 0 <= j < |fs| =>
        if j < i then fs[j]
        else if j == i then fs[i].(len := ToUint16(n))
        else Moved(fs[j], ShiftOf(n, fs[i].lenUnit)))
  }

  /** What a pass does on reaching field i, before touching the message. */
  function Resolve(fs: seq<Field>, i: nat): (r: seq<Field>)
    requires i < |fs|
    ensures |r| == |fs|
  {
    if fs[i].vlenFlag then
      var gs := Recompute(fs, i);
      gs[i := gs[i].(vlenFlag := false)]
    else fs
  }

  // ---------- passes ----------

  function GenFrom(fs: seq<Field>, i: nat, dp: seq<uint8>): (r: (seq<Field>, seq<uint8>))
    requires i <= |fs|
    ensures |r.0| == |fs|
    decreases |fs| - i
  {
    if i == |fs| then (fs, dp)
    else
      var gs := Resolve(fs, i);
      GenFrom(gs, i + 1, WriteField(dp, gs[i]))
  }

  function ParseFrom(fs: seq<Field>, i: nat, dp: seq<uint8>): (r: seq<Field>)
    requires i <= |fs|
    ensures |r| == |fs|
    decreases |fs| - i
  {
    if i == |fs| then fs
    else
      var gs := Resolve(fs, i);
      ParseFrom(gs[i := ReadField(gs[i], dp)], i + 1, dp)
  }

  /** pa_reset_vlen_flag: re-arm the variable fields; positions stay where the pass left them. */
  function Reset(fs: seq<Field>): (r: seq<Field>)
    ensures |r| == |fs|
  {
    seq(|fs|, j requires 0 <= j < |fs| => fs[j].(vlenFlag := fs[j].vlenFlag || fs[j].vlenFlagBak))
  }

  // ---------- what the C code needs in order to stay inside its memory ----------

  predicate InBuffer(f: Field, size: nat) {
    && (f.lenUnit == 8 ==> f.bytePos + f.len <= size)
    && (f.lenUnit == 1 ==> f.bitPos <= 7 && f.len <= 32 && FieldStart(f.bytePos, f.bitPos) + f.len <= 8 * size)
  }

  predicate HasBytes(f: Field) {
    f.lenUnit == 8 && f.len > 4 && f.bitPos == 0 ==> f.buf.Some? && f.len <= |f.buf.value|
  }

  predicate ShortKey(f: Field) {
    f.vlenFlag ==> |f.vlenIndex| < KEY_SIZE
  }

  /** Every access of a parse starting at field i stays inside the message. */
  predicate ParseSafe(fs: seq<Field>, i: nat, dp: seq<uint8>)
    requires i <= |fs|
    decreases |fs| - i
  {
    i == |fs| ||
    (ShortKey(fs[i]) &&
     var gs := Resolve(fs, i);
     InBuffer(gs[i], |dp|) && ParseSafe(gs[i := ReadField(gs[i], dp)], i + 1, dp))
  }

  predicate GenSafe(fs: seq<Field>, i: nat, size: nat)
    requires i <= |fs|
    decreases |fs| - i
  {
    i == |fs| ||
    (ShortKey(fs[i]) &&
     var gs := Resolve(fs, i);
     InBuffer(gs[i], size) && HasBytes(gs[i]) && GenSafe(gs, i + 1, size))
  }
}
