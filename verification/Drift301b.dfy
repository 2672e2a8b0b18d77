/** How far the two analyzers of the 0x301b command have drifted, in terms of the bytes they were fed: one pass moves
    the fields behind slc_data by the byte at position 9, and those behind lc_data by the byte lc_info was read from. */
module Drift301b {
  import opened CTypes
  import opened FieldIO
  import opened Format
  import opened RoundTrip
  import opened Reuse
  import opened ProtocolAnalyzer
  import opened Tables
  import opened Records
  import opened OnePass

  lemma {:induction false} DiscoveredOfOne(rs: seq<Field>, ps: seq<Field>, v: nat, j: nat)
    requires v < |rs| == |ps| && j <= |rs| && rs[v].vlenFlag && forall m :: 0 <= m < j && m != v ==> !rs[m].vlenFlag
    ensures Discovered(rs, ps, 0, j) == if j <= v then 0 else ps[v].len
    decreases j
  {
    if j > 0 { DiscoveredOfOne(rs, ps, v, j - 1); }
  }

  lemma {:induction false} DiscoveredOfTwo(rs: seq<Field>, ps: seq<Field>, v: nat, w: nat, j: nat)
    requires v < w < |rs| == |ps| && j <= |rs| && rs[v].vlenFlag && rs[w].vlenFlag
    requires forall m :: 0 <= m < j && m != v && m != w ==> !rs[m].vlenFlag
    ensures Discovered(rs, ps, 0, j) == (if j <= v then 0 else ps[v].len) + (if j <= w then 0 else ps[w].len)
    decreases j
  {
    if j > 0 { DiscoveredOfTwo(rs, ps, v, w, j - 1); }
  }

  // ---------- 0x3050 ----------

  /** Only the fields behind slc_data, the eighth field, drift. */
  function Shift50(j: nat, d: nat): nat { if j <= 7 then 0 else d }

  ghost predicate At50(rs: seq<Field>, d: nat) {
    && OfTable(T3050(), rs) && |T3050()| == 12
    && forall j :: 0 <= j < 12 ==> rs[j].bytePos == ToUint8(T3050()[j].bytePos + Shift50(j, d))
  }

  lemma {:induction false} Entries3050()
    ensures var t := T3050();
            && |t| == 12 && t[7].vlenFlag && t[11].vlenFlag && (forall j :: 0 <= j < 11 && j != 7 ==> !t[j].vlenFlag)
            && MeasuredBy(t, 7, 6) && MeasuredBy(t, 11, 10) && ByteTable(t)
    ensures var t := T3050();
            && t[0].bytePos == 0 && t[1].bytePos == 2 && t[2].bytePos == 3 && t[3].bytePos == 4 && t[4].bytePos == 6
            && t[5].bytePos == 8 && t[6].bytePos == 9 && t[7].bytePos == 10 && t[8].bytePos == 10 && t[9].bytePos == 11
            && t[10].bytePos == 12 && t[11].bytePos == 13
    ensures var t := T3050();
            && t[0].len == 2 && t[1].len == 1 && t[2].len == 1 && t[3].len == 2 && t[4].len == 2 && t[5].len == 1
            && t[6].len == 1 && t[8].len == 1 && t[9].len == 1 && t[10].len == 1
  {
    Table3050IsByteTable();
    hide ByteTable;
  }

  lemma {:induction false} Bounds3050()
    ensures |T3050()| == 12 && forall j :: 0 <= j < 12 ==> T3050()[j].bytePos <= (if j < 8 then 10 else 13)
    ensures forall j :: 0 <= j < 7 ==> T3050()[j].len <= 2
  {
  }

  lemma {:induction false} Entry50(rs: seq<Field>, d: nat, j: nat)
    requires At50(rs, d) && j < 12
    ensures |rs| == |T3050()| == 12 && rs[j].vlenFlag == T3050()[j].vlenFlag && OfTable(T3050(), rs)
    ensures rs[j].bytePos == ToUint8(T3050()[j].bytePos + Shift50(j, d))
    ensures (j <= 7 ==> rs[j].bytePos == T3050()[j].bytePos)
  {
    hide T3050;
    assert SameEntry(T3050()[j], rs[j]);
  }

  lemma {:induction false} Slc50(rs: seq<Field>, d: nat, dq: seq<uint8>, ps: seq<Field>)
    requires At50(rs, d) && |dq| == MAX_PROTO_DATA_LEN == 100 && |ps| == 12
    requires forall j :: 0 <= j < 12 ==> |T3050()| == |rs| == 12 && Solved(T3050(), rs, dq, ps, j)
    ensures ps[6].data == dq[9] == ps[7].len
    ensures forall j :: 0 <= j < 12 ==> |rs| == 12 && Discovered(rs, ps, 0, j) == Shift50(j, dq[9])
  {
    hide *;
    Entries3050();
    forall j | 0 <= j < 12 ensures |rs| == 12 && rs[j].vlenFlag == T3050()[j].vlenFlag { Entry50(rs, d, j); }
    Entry50(rs, d, 6);
    DiscoveredOfOne(rs, ps, 7, 6);
    SlcFound(T3050(), rs, dq, ps);
    forall j | 0 <= j < 12 ensures Discovered(rs, ps, 0, j) == Shift50(j, dq[9]) {
      DiscoveredOfOne(rs, ps, 7, j);
      ShiftOfSlc(j, dq[9]);
    }
  }

  lemma {:induction false} ShiftOfSlc(j: nat, n: nat)
    ensures Shift50(j, n) == if j <= 7 then 0 else n
  {
  }

  lemma {:induction false} Moved50(rs: seq<Field>, d: nat, dq: seq<uint8>, ps: seq<Field>, n: nat, j: nat)
    requires At50(rs, d) && |ps| == 12 == |T3050()| == |rs| && j < 12 && Solved(T3050(), rs, dq, ps, j)
    requires Discovered(rs, ps, 0, j) == Shift50(j, n)
    ensures ps[j].bytePos == ToUint8(T3050()[j].bytePos + Shift50(j, d + n))
  {
    hide T3050, ToUint8, Discovered, ReadBytes, MeasuredBy;
    WrapTwice(T3050()[j].bytePos, Shift50(j, d), Shift50(j, n));
  }

  /** Places after one pass: slc_info is always found, so exactly its byte is added to the drift. */
  lemma {:induction false} Pass50(rs: seq<Field>, d: nat, dq: seq<uint8>) returns (ps: seq<Field>)
    requires At50(rs, d) && |dq| == MAX_PROTO_DATA_LEN == 100
    ensures ps == ParseFrom(rs, 0, dq) && |ps| == 12 == |T3050()| == |rs| && At50(Reset(ps), d + dq[9])
    ensures forall j :: 0 <= j < 12 ==> Solved(T3050(), rs, dq, ps, j)
    ensures forall j :: 0 <= j < 12 ==> ps[j].bytePos == ToUint8(T3050()[j].bytePos + Shift50(j, d + dq[9]))
    ensures ps[7].len == dq[9]
    ensures ParseSafe(rs, 0, dq) <==> forall j :: 0 <= j < 12 ==> ps[j].bytePos + ps[j].len <= |dq|
  {
    hide *;
    Entries3050();
    Entry50(rs, d, 0);
    ps := Pass(T3050(), rs, dq);
    Slc50(rs, d, dq, ps);
    forall j | 0 <= j < 12 ensures ps[j].bytePos == ToUint8(T3050()[j].bytePos + Shift50(j, d + dq[9])) {
      Moved50(rs, d, dq, ps, dq[9], j);
    }
    At50ByParts(Reset(ps), d + dq[9]);
  }

  lemma {:induction false} At50ByParts(rs: seq<Field>, d: nat)
    requires OfTable(T3050(), rs) && |T3050()| == 12 == |rs|
    requires forall j :: 0 <= j < 12 ==> rs[j].bytePos == ToUint8(T3050()[j].bytePos + Shift50(j, d))
    ensures At50(rs, d)
  {
    hide T3050, OfTable;
  }

  /** slc_info stands at position 9 and is read from there. */
  lemma {:induction false} SlcFound(t: seq<Field>, rs: seq<Field>, dq: seq<uint8>, ps: seq<Field>)
    requires |t| == |rs| == |ps| > 7 && |dq| > 9 && Solved(t, rs, dq, ps, 6) && Solved(t, rs, dq, ps, 7)
    requires MeasuredBy(t, 7, 6) && t[7].vlenFlag && !t[6].vlenFlag && t[6].len == 1
    requires rs[6].bytePos == 9 && Discovered(rs, ps, 0, 6) == 0
    ensures ps[6].data == dq[9] == ps[7].len
  {
    hide MeasuredBy, Discovered, ReadBytes;
    OneByte(dq, 9);
  }

  /** The byte a one-byte length field is read from, when it lies inside the message. */
  lemma {:induction false} LengthRead(t: seq<Field>, rs: seq<Field>, dq: seq<uint8>, ps: seq<Field>, v: nat, k: nat)
    requires k < v < |t| == |rs| == |ps| && Solved(t, rs, dq, ps, k) && Solved(t, rs, dq, ps, v)
    requires MeasuredBy(t, v, k) && t[v].vlenFlag && !t[k].vlenFlag && t[k].len == 1 && ps[k].bytePos < |dq|
    ensures ps[v].len == dq[ps[k].bytePos]
  {
    hide MeasuredBy, Discovered, ReadBytes;
    OneByte(dq, ps[k].bytePos);
  }

  lemma {:induction false} FixedLengths(t: seq<Field>, rs: seq<Field>, dq: seq<uint8>, ps: seq<Field>, j: nat)
    requires j < |t| == |rs| == |ps| && Solved(t, rs, dq, ps, j) && !t[j].vlenFlag
    ensures ps[j].len == t[j].len
  {
    hide MeasuredBy, Discovered, ReadBytes;
  }

  /** The last field of a 0x3050 message fits, given the drift in front of it. */
  predicate Room50(d: nat, dq: seq<uint8>)
    requires |dq| == 100
  {
    var e := d + dq[9];
    13 + e <= 100 && 13 + e + dq[12 + e] <= 100
  }

  /** A pass over drifted fields is safe if and only if dc_info, wherever it is read, leaves dc_data inside the
      buffer. */
  lemma {:induction false} Safe50(rs: seq<Field>, d: nat, dq: seq<uint8>)
    requires At50(rs, d) && |dq| == MAX_PROTO_DATA_LEN == 100 && 13 + d + dq[9] < 0x100
    ensures ParseSafe(rs, 0, dq) <==> Room50(d, dq)
  {
    hide *;
    Entries3050();
    Bounds3050();
    var ps := Pass50(rs, d, dq);
    var e := d + dq[9];
    forall j | 0 <= j < 12 ensures ps[j].bytePos == T3050()[j].bytePos + Shift50(j, e) {
      ShiftOfSlc(j, e);
      Unwrapped(T3050()[j].bytePos, Shift50(j, e));
    }
    forall j | 0 <= j < 11 && j != 7 ensures ps[j].len == T3050()[j].len { FixedLengths(T3050(), rs, dq, ps, j); }
    forall j | 0 <= j < 12 ensures Shift50(j, e) == if j <= 7 then 0 else e { ShiftOfSlc(j, e); }
    if 12 + e < 100 { LengthRead(T3050(), rs, dq, ps, 11, 10); }
    Room50ByParts(d, dq, ps);
  }

  lemma {:induction false} Unwrapped(a: nat, b: nat)
    requires a + b < 0x100
    ensures ToUint8(a + b) == a + b
  {
  }

  lemma {:induction false} Room50ByParts(d: nat, dq: seq<uint8>, ps: seq<Field>)
    requires |dq| == 100 && |ps| == 12
    requires forall j :: 0 <= j < 8 ==> ps[j].bytePos <= 10
    requires forall j :: 0 <= j < 7 ==> ps[j].len <= 2
    requires var e := d + dq[9];
             && ps[7].bytePos == 10 && ps[7].len == dq[9] && ps[8].bytePos == 10 + e && ps[9].bytePos == 11 + e
             && ps[10].bytePos == 12 + e && ps[11].bytePos == 13 + e
             && ps[8].len == ps[9].len == ps[10].len == 1 && (12 + e < 100 ==> ps[11].len == dq[12 + e])
    ensures (forall j :: 0 <= j < 12 ==> ps[j].bytePos + ps[j].len <= |dq|) <==> Room50(d, dq)
  {
  }

  // ---------- 0x3052 ----------

  /** Fields behind slc_data drift by d, those behind lc_data, too, by e. */
  function Shift52(j: nat, d: nat, e: nat): nat { if j <= 7 then 0 else if j <= 10 then d else e }

  ghost predicate At52(rs: seq<Field>, d: nat, e: nat) {
    && OfTable(T3052(), rs) && |T3052()| == 13
    && forall j :: 0 <= j < 13 ==> rs[j].bytePos == T3052()[j].bytePos + Shift52(j, d, e)
  }

  lemma {:induction false} Entries3052()
    ensures var t := T3052();
            && |t| == 13 && t[7].vlenFlag && t[10].vlenFlag && t[12].vlenFlag
            && (forall j :: 0 <= j < 12 && j != 7 && j != 10 ==> !t[j].vlenFlag)
            && MeasuredBy(t, 7, 6) && MeasuredBy(t, 10, 9) && MeasuredBy(t, 12, 11) && ByteTable(t)
    ensures var t := T3052();
            && t[6].bytePos == 9 && t[7].bytePos == 10 && t[8].bytePos == 10 && t[9].bytePos == 11
            && t[10].bytePos == 12 && t[11].bytePos == 12 && t[12].bytePos == 13
    ensures var t := T3052(); t[6].len == 1 && t[8].len == 1 && t[9].len == 1 && t[11].len == 1
  {
    Measured3052();
    Table3052IsByteTable();
    hide ByteTable, MeasuredBy;
  }

  lemma {:induction false} Bounds3052()
    ensures |T3052()| == 13 && forall j :: 0 <= j < 13 ==> T3052()[j].bytePos <= (if j < 8 then 10 else 13)
    ensures forall j :: 0 <= j < 7 ==> T3052()[j].len <= 2
  {
  }

  lemma {:induction false} Shifts52(j: nat, d: nat, e: nat)
    ensures Shift52(j, d, e) == if j <= 7 then 0 else if j <= 10 then d else e
  {
  }

  lemma {:induction false} Entry52(rs: seq<Field>, d: nat, e: nat, j: nat)
    requires At52(rs, d, e) && j < 13
    ensures |rs| == |T3052()| == 13 && rs[j].vlenFlag == T3052()[j].vlenFlag && OfTable(T3052(), rs)
    ensures rs[j].bytePos == T3052()[j].bytePos + Shift52(j, d, e)
  {
    hide T3052;
    assert SameEntry(T3052()[j], rs[j]);
  }

  /** Places after one pass, modulo 256: moved on by slc_data's length, and behind lc_data by its length, too. */
  lemma {:induction false} Pass52(rs: seq<Field>, d: nat, e: nat, dq: seq<uint8>) returns (ps: seq<Field>)
    requires At52(rs, d, e) && |dq| == MAX_PROTO_DATA_LEN == 100
    ensures ps == ParseFrom(rs, 0, dq) && |ps| == 13 == |T3052()| == |rs| && OfTable(T3052(), Reset(ps))
    ensures forall j :: 0 <= j < 13 ==> Solved(T3052(), rs, dq, ps, j) && Reset(ps)[j].bytePos == ps[j].bytePos
    ensures var n, l := dq[9], ps[10].len;
            forall j :: 0 <= j < 13 ==> ps[j].bytePos == ToUint8(T3052()[j].bytePos + Shift52(j, d + n, e + n + l))
    ensures ps[7].len == dq[9]
    ensures ParseSafe(rs, 0, dq) <==> forall j :: 0 <= j < 13 ==> ps[j].bytePos + ps[j].len <= |dq|
  {
    hide *;
    Entries3052();
    Entry52(rs, d, e, 0);
    ps := Pass(T3052(), rs, dq);
    forall j | 0 <= j < 13 ensures rs[j].vlenFlag == T3052()[j].vlenFlag { Entry52(rs, d, e, j); }
    Entry52(rs, d, e, 6);
    Shifts52(6, d, e);
    DiscoveredOfTwo(rs, ps, 7, 10, 6);
    SlcFound(T3052(), rs, dq, ps);
    var n, l := dq[9], ps[10].len;
    forall j | 0 <= j < 13 ensures ps[j].bytePos == ToUint8(T3052()[j].bytePos + Shift52(j, d + n, e + n + l)) {
      DiscoveredOfTwo(rs, ps, 7, 10, j);
      Entry52(rs, d, e, j);
      Moved52(rs, d, e, dq, ps, n, l, j);
    }
  }

  lemma {:induction false} Moved52(rs: seq<Field>, d: nat, e: nat, dq: seq<uint8>, ps: seq<Field>, n: nat, l: nat,
                                   j: nat)
    requires j < 13 == |T3052()| == |rs| == |ps| && Solved(T3052(), rs, dq, ps, j)
    requires rs[j].bytePos == T3052()[j].bytePos + Shift52(j, d, e)
    requires Discovered(rs, ps, 0, j) == (if j <= 7 then 0 else n) + (if j <= 10 then 0 else l)
    ensures ps[j].bytePos == ToUint8(T3052()[j].bytePos + Shift52(j, d + n, e + n + l))
  {
    hide T3052, ToUint8, Discovered, ReadBytes, MeasuredBy;
  }

  /** The fields behind slc_data and those behind lc_data fit, given the drift in front of each. */
  predicate Room52(d: nat, e: nat, dq: seq<uint8>)
    requires |dq| == 100
  {
    var n: int := dq[9];
    12 + d + n <= 100 &&
    var l: int := dq[11 + d + n];
    12 + d + n + l <= 100 && 13 + e + n + l <= 100 && 13 + e + n + l + dq[12 + e + n + l] <= 100
  }

  /** What a safe pass adds to the second drift. */
  function Both52(d: nat, dq: seq<uint8>): nat
    requires |dq| == 100
  {
    var n: int := dq[9];
    var l: int := if 11 + d + n < 100 then dq[11 + d + n] else 0;
    n + l
  }

  /** lc_info is read where the drift has put it. */
  lemma {:induction false} LcFound(rs: seq<Field>, d: nat, e: nat, dq: seq<uint8>)
    requires At52(rs, d, e) && |dq| == MAX_PROTO_DATA_LEN == 100 && d <= 100 && 11 + d + dq[9] < 100
    ensures |ParseFrom(rs, 0, dq)| == 13 && ParseFrom(rs, 0, dq)[10].len == dq[11 + d + dq[9]]
  {
    hide *;
    Entries3052();
    var ps := Pass52(rs, d, e, dq);
    Shifts52(9, d + dq[9], e + dq[9] + ps[10].len);
    Unwrapped(11, d + dq[9]);
    LengthRead(T3052(), rs, dq, ps, 10, 9);
  }

  lemma {:induction false} At52ByParts(rs: seq<Field>, d: nat, e: nat)
    requires OfTable(T3052(), rs) && |T3052()| == 13 == |rs|
    requires forall j :: 0 <= j < 13 ==> rs[j].bytePos == T3052()[j].bytePos + Shift52(j, d, e)
    ensures At52(rs, d, e)
  {
    hide T3052, OfTable;
  }

  /** A pass over drifted fields is safe if and only if everything fits; then it drifts on by what it found. */
  lemma {:induction false} Safe52(rs: seq<Field>, d: nat, e: nat, dq: seq<uint8>)
    requires At52(rs, d, e) && |dq| == MAX_PROTO_DATA_LEN == 100 && d <= 100 && e <= 100 && dq[9] <= 100
    ensures ParseSafe(rs, 0, dq) <==> Room52(d, e, dq)
    ensures Room52(d, e, dq) ==> At52(Reset(ParseFrom(rs, 0, dq)), d + dq[9], e + Both52(d, dq))
  {
    hide *;
    Entries3052();
    Bounds3052();
    var ps := Pass52(rs, d, e, dq);
    var n, l := dq[9], ps[10].len;
    var x, y := d + n, e + n + l;
    forall j | 0 <= j < 13 && (j <= 10 || n + l <= 142) ensures ps[j].bytePos == T3052()[j].bytePos + Shift52(j, x, y) {
      Shifts52(j, x, y);
      Unwrapped(T3052()[j].bytePos, Shift52(j, x, y));
    }
    forall j | 0 <= j < 12 && j != 7 && j != 10
      ensures ps[j].len == T3052()[j].len
    {
      FixedLengths(T3052(), rs, dq, ps, j);
    }
    forall j | 0 <= j < 13
      ensures Shift52(j, x, y) == if j <= 7 then 0 else if j <= 10 then x else y
    {
      Shifts52(j, x, y);
    }
    if 11 + d + n < 100 {
      LcFound(rs, d, e, dq);
      if n + l <= 142 && 12 + e + n + l < 100 { LengthRead(T3052(), rs, dq, ps, 12, 11); }
    }
    Room52ByParts(d, e, dq, ps);
    Both52ByParts(d, dq);
    if Room52(d, e, dq) { At52ByParts(Reset(ps), x, y); }
  }

  lemma {:induction false} Both52ByParts(d: nat, dq: seq<uint8>)
    requires |dq| == 100
    ensures 11 + d + dq[9] < 100 ==> var n: int, l: int := dq[9], dq[11 + d + dq[9]]; Both52(d, dq) == n + l
  {
  }

  lemma {:induction false} Room52ByParts(d: nat, e: nat, dq: seq<uint8>, ps: seq<Field>)
    requires |dq| == 100 && |ps| == 13 && d <= 100 && e <= 100
    requires forall j :: 0 <= j < 8 ==> ps[j].bytePos <= 10
    requires forall j :: 0 <= j < 7 ==> ps[j].len <= 2
    requires var n, l := dq[9], ps[10].len;
             && ps[7].bytePos == 10 && ps[7].len == n && ps[8].bytePos == 10 + d + n && ps[9].bytePos == 11 + d + n
             && ps[10].bytePos == 12 + d + n && ps[8].len == ps[9].len == ps[11].len == 1
             && (11 + d + n < 100 ==> l == dq[11 + d + n])
             && (n + l <= 142 ==>
                   && ps[11].bytePos == 12 + e + n + l && ps[12].bytePos == 13 + e + n + l
                   && (11 + d + n < 100 && 12 + e + n + l < 100 ==> ps[12].len == dq[12 + e + n + l]))
    ensures (forall j :: 0 <= j < 13 ==> ps[j].bytePos + ps[j].len <= |dq|) <==> Room52(d, e, dq)
    ensures Room52(d, e, dq) ==> 11 + d + dq[9] < 100 && ps[10].len == dq[11 + d + dq[9]] && dq[9] + ps[10].len <= 88
  {
    if 11 + d + dq[9] < 100 && 12 + d + dq[9] + dq[11 + d + dq[9]] <= 100 {
      assert dq[9] + ps[10].len <= 142;
    } else {
      assert ps[10].bytePos + ps[10].len > 100;
    }
  }

  // ---------- a 0x3050 record arriving at a drifted analyzer ----------

  lemma {:induction false} Front(t: seq<Field>, fs: seq<Field>)
    requires Filled(t, fs) && |t| > 7 && t[6].len == 1 && t[6].bytePos == 9 && forall j :: 0 <= j < 7 ==> !t[j].vlenFlag
    ensures |fs| == |t| && FinalLen(fs, 6) == 1 && Pending(fs, 0, 6) == 0 && fs[6].bytePos == 9
  {
    hide Lookup;
    assert Pending(fs, 0, 0) == 0 && Pending(fs, 0, 1) == 0 && Pending(fs, 0, 2) == 0 && Pending(fs, 0, 3) == 0;
    assert Pending(fs, 0, 4) == 0 && Pending(fs, 0, 5) == 0 && Pending(fs, 0, 6) == 0;
  }

  /** slc_info of a sent message is its byte 9. */
  lemma {:induction false} SlcByte(t: seq<Field>, fs: seq<Field>, dq: seq<uint8>)
    requires ByteTable(t) && Sendable(t, fs) && StartsWith(dq, fs) && MessageLen(fs) > 9
    requires |t| > 7 && t[6].len == 1 && t[6].bytePos == 9 && forall j :: 0 <= j < 7 ==> !t[j].vlenFlag
    ensures |fs| > 6 && |dq| > 9 && dq[9] == fs[6].data
  {
    hide ByteTable, ValuesFit, MessageLen, Message, ReadBytes;
    Front(t, fs);
    NumberInMessage(t, fs, 6);
    assert dq[..MessageLen(fs)][9] == Message(fs)[..MessageLen(fs)][9];
    OneByte(Message(fs), 9);
  }

  lemma {:induction false} AsNewByDrift50(rs: seq<Field>, d: nat)
    requires At50(rs, d)
    ensures AsNew(T3050(), rs) <==> d % 0x100 == 0
  {
    hide *;
    Entries3050();
    forall j | 0 <= j < 12
      ensures |rs| == |T3050()| == 12 && SameEntry(T3050()[j], rs[j])
      ensures rs[j].bytePos == T3050()[j].bytePos <==> j <= 7 || d % 0x100 == 0
    {
      Entry50(rs, d, j);
      EntryIndex(T3050(), rs, j);
      ShiftOfSlc(j, d);
      WrapFixpoint(T3050()[j].bytePos, d);
    }
    AsNewByPlaces(T3050(), rs);
    assert rs[8].bytePos == T3050()[8].bytePos <==> d % 0x100 == 0;
  }

  lemma {:induction false} AsNewByPlaces(t: seq<Field>, rs: seq<Field>)
    requires |t| == |rs| && forall j :: 0 <= j < |t| ==> SameEntry(t[j], rs[j])
    ensures AsNew(t, rs) <==> forall j :: 0 <= j < |t| ==> rs[j].bytePos == t[j].bytePos
  {
  }

  /** Base places, lengths in front and message length of a 0x3050 message. */
  lemma {:induction false} Sent3050(fs: seq<Field>)
    requires Sendable(T3050(), fs)
    ensures |fs| == 12 && Filled(T3050(), fs) && 13 + fs[6].data <= MessageLen(fs) <= MAX_PROTO_DATA_LEN
    ensures fs[8].bytePos == 10 && Pending(fs, 0, 8) == fs[6].data
  {
    hide T3050, ValuesFit, FinalLen;
    Entries3050();
    Filled3050(fs);
    PendingOfOne(fs, 7, 8);
    PendingOfOne(fs, 7, 11);
  }

  lemma {:induction false} Filled3050(fs: seq<Field>)
    requires Filled(T3050(), fs)
    ensures |fs| == 12 && fs[8].bytePos == 10 && fs[11].bytePos == 13 && Own(fs, 7) == fs[6].data
    ensures forall j :: 0 <= j < 11 && j != 7 ==> !fs[j].vlenFlag
  {
    hide T3050, ByteTable, MeasuredBy, FinalLen;
    Entries3050();
    FilledLookup(T3050(), fs, 7, 6);
  }

  /** The record is looked for in the right place if and only if the drift so far is a multiple of 256. */
  lemma {:induction false} Arrival50(rs: seq<Field>, d: nat, fs: seq<Field>, dq: seq<uint8>)
    requires At50(rs, d) && Sendable(T3050(), fs) && StartsWith(dq, fs) && |dq| == MAX_PROTO_DATA_LEN == 100
    ensures |fs| == 12 && dq[9] == fs[6].data && At50(Reset(ParseFrom(rs, 0, dq)), d + fs[6].data)
    ensures AsNew(T3050(), rs) <==> d % 0x100 == 0
    ensures Placed(fs, ParseFrom(rs, 0, dq)) <==> d % 0x100 == 0
    ensures d % 0x100 == 0 ==> Delivered(fs, ParseFrom(rs, 0, dq))
  {
    hide *;
    Entries3050();
    Sent3050(fs);
    SlcByte(T3050(), fs, dq);
    AsNewByDrift50(rs, d);
    var ps := Pass50(rs, d, dq);
    ShiftOfSlc(8, d + dq[9]);
    if d % 0x100 == 0 {
      RecordDelivered(T3050(), fs, rs, dq);
    } else {
      WrapFixpoint(10 + fs[6].data, d);
      PlaceOf(fs, ps, 8);
    }
  }

  lemma {:induction false} PlaceOf(fs: seq<Field>, ps: seq<Field>, j: nat)
    requires |fs| == |ps| && j < |fs|
    ensures Placed(fs, ps) ==> ps[j].bytePos == fs[j].bytePos + Pending(fs, 0, j) && ps[j].len == FinalLen(fs, j)
  {
    hide Pending, FinalLen;
  }

  // ---------- a 0x3052 record arriving at a drifted analyzer ----------

  lemma {:induction false} AsNewByDrift52(rs: seq<Field>, d: nat, e: nat)
    requires At52(rs, d, e)
    ensures AsNew(T3052(), rs) <==> d == 0 && e == 0
  {
    hide *;
    Entries3052();
    forall j | 0 <= j < 13
      ensures |rs| == |T3052()| == 13 && SameEntry(T3052()[j], rs[j])
      ensures rs[j].bytePos == T3052()[j].bytePos + (if j <= 7 then 0 else if j <= 10 then d else e)
    {
      Entry52(rs, d, e, j);
      EntryIndex(T3052(), rs, j);
      Shifts52(j, d, e);
    }
    AsNewByPlaces(T3052(), rs);
    assert rs[8].bytePos == T3052()[8].bytePos + d && rs[11].bytePos == T3052()[11].bytePos + e;
  }

  lemma {:induction false} Filled3052(fs: seq<Field>)
    requires Filled(T3052(), fs)
    ensures |fs| == 13 && fs[8].bytePos == 10 && fs[11].bytePos == 12 && fs[12].bytePos == 13
    ensures Own(fs, 7) == fs[6].data && Own(fs, 10) == FinalLen(fs, 10) == fs[9].data
    ensures forall j :: 0 <= j < 12 && j != 7 && j != 10 ==> !fs[j].vlenFlag
  {
    hide T3052, ByteTable, MeasuredBy, FinalLen;
    Entries3052();
    FilledLookup(T3052(), fs, 7, 6);
    FilledLookup(T3052(), fs, 10, 9);
  }

  lemma {:induction false} Sent3052(fs: seq<Field>)
    requires Sendable(T3052(), fs)
    ensures |fs| == 13 && Filled(T3052(), fs) && 13 + fs[6].data + fs[9].data <= MessageLen(fs) <= MAX_PROTO_DATA_LEN
    ensures fs[8].bytePos == 10 && Pending(fs, 0, 8) == fs[6].data
    ensures fs[11].bytePos == 12 && Pending(fs, 0, 11) == fs[6].data + fs[9].data && FinalLen(fs, 10) == fs[9].data
  {
    hide T3052, ValuesFit, FinalLen;
    Filled3052(fs);
    PendingOfTwo(fs, 7, 10, 8);
    PendingOfTwo(fs, 7, 10, 11);
    PendingOfTwo(fs, 7, 10, 12);
  }

  /** In a safe pass the record is looked for in the right place if and only if nothing has drifted. */
  lemma {:induction false} Arrival52(rs: seq<Field>, d: nat, e: nat, fs: seq<Field>, dq: seq<uint8>)
    requires At52(rs, d, e) && Sendable(T3052(), fs) && StartsWith(dq, fs) && |dq| == MAX_PROTO_DATA_LEN == 100
    requires d <= 100 && e <= 100
    ensures |fs| == 13 && dq[9] == fs[6].data
    ensures ParseSafe(rs, 0, dq) <==> Room52(d, e, dq)
    ensures AsNew(T3052(), rs) <==> d == 0 && e == 0
    ensures Room52(d, e, dq) ==> At52(Reset(ParseFrom(rs, 0, dq)), d + dq[9], e + Both52(d, dq))
    ensures Room52(d, e, dq) ==> (Placed(fs, ParseFrom(rs, 0, dq)) <==> d == 0 && e == 0)
  {
    hide *;
    Entries3052();
    Sent3052(fs);
    SlcByte(T3052(), fs, dq);
    Safe52(rs, d, e, dq);
    AsNewByDrift52(rs, d, e);
    if d == 0 && e == 0 {
      RecordDelivered(T3052(), fs, rs, dq);
    } else if Room52(d, e, dq) {
      var ps := Pass52(rs, d, e, dq);
      Room52Limits(d, e, dq);
      LcFound(rs, d, e, dq);
      var n, l := dq[9], ps[10].len;
      Shifts52(8, d + n, e + n + l);
      Shifts52(11, d + n, e + n + l);
      Unwrapped(10, d + n);
      Unwrapped(12, e + n + l);
      PlaceOf(fs, ps, 8);
      PlaceOf(fs, ps, 10);
      PlaceOf(fs, ps, 11);
    }
  }

  lemma {:induction false} Room52Limits(d: nat, e: nat, dq: seq<uint8>)
    requires |dq| == 100 && Room52(d, e, dq)
    ensures 11 + d + dq[9] < 100 && var n: int, l: int := dq[9], dq[11 + d + dq[9]]; 13 + e + n + l <= 100
    ensures d + dq[9] <= 88 && e + Both52(d, dq) <= 87
  {
  }
}
