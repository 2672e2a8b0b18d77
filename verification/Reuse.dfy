/** Using one analyzer for several messages: what parse followed by reset leaves behind, and when the next message
    is read as a fresh analyzer would read it. */
module Reuse {
  import opened CTypes
  import opened Format
  import opened RoundTrip
  import opened Messages

  /** Every variable field counts whole bytes and names a field that exists. */
  ghost predicate ByteVariable(fs: seq<Field>) {
    forall j :: 0 <= j < |fs| && (fs[j].vlenFlag || fs[j].vlenFlagBak) ==>
      fs[j].lenUnit == 8 && Lookup(fs, fs[j].vlenIndex).Some?
  }

  /** The state before a pass: exactly the fields marked variable in the format are armed. */
  ghost predicate Armed(fs: seq<Field>) {
    forall j :: 0 <= j < |fs| ==> fs[j].vlenFlag == fs[j].vlenFlagBak
  }

  /** Bytes the variable fields m with i <= m < j turned out to have in a pass from fs to after. */
  function Discovered(fs: seq<Field>, after: seq<Field>, i: nat, j: nat): nat
    requires j <= |fs| == |after|
    decreases j
  {
    if j <= i then 0 else Discovered(fs, after, i, j - 1) + if fs[j - 1].vlenFlag then after[j - 1].len else 0
  }

  /** Two states of one analyzer: same fields, possibly moved, resized, filled and disarmed. */
  predicate SameShape(f: Field, g: Field) {
    && g.name == f.name && g.vlenIndex == f.vlenIndex && g.vlenFlagBak == f.vlenFlagBak
    && g.bitPos == f.bitPos && g.lenUnit == f.lenUnit
  }

  lemma {:induction false} ShiftCongruent(pos: nat, n: uint32)
    ensures ToUint8(pos + ShiftOf(n, 8)) == ToUint8(pos + ToUint16(n))
  {
    var q, r := n / 0x2000_0000, n % 0x2000_0000;
    assert n * 8 == 0x1_0000_0000 * q + 8 * r;
    assert ShiftOf(n, 8) == r;
    SameModulo(pos, n, r, 0x20_0000 * q);
    SameModulo(pos, n, ToUint16(n), 0x100 * (n / 0x1_0000));
  }

  lemma {:induction false} SameModulo(pos: nat, n: nat, r: nat, k: nat)
    requires n == r + 0x100 * k
    ensures ToUint8(pos + n) == ToUint8(pos + r)
  {
  }

  lemma {:induction false} ReadKeepsShape(f: Field, dp: seq<uint8>)
    ensures SameShape(f, ReadField(f, dp)) && ReadField(f, dp).len == f.len && ReadField(f, dp).bytePos == f.bytePos
    ensures ReadField(f, dp).vlenFlag == f.vlenFlag
  {
  }

  lemma {:induction false} DiscoveredByFlags(fs: seq<Field>, gs: seq<Field>, after: seq<Field>, i: nat, j: nat)
    requires j <= |fs| == |gs| == |after| && forall m :: i <= m < |fs| ==> gs[m].vlenFlag == fs[m].vlenFlag
    ensures Discovered(gs, after, i, j) == Discovered(fs, after, i, j)
    decreases j
  {
    if j > i { DiscoveredByFlags(fs, gs, after, i, j - 1); }
  }

  lemma {:induction false} DiscoveredFirst(fs: seq<Field>, after: seq<Field>, i: nat, j: nat)
    requires i < j <= |fs| == |after|
    ensures Discovered(fs, after, i, j)
            == (if fs[i].vlenFlag then after[i].len else 0) + Discovered(fs, after, i + 1, j)
    decreases j
  {
    if j > i + 1 { DiscoveredFirst(fs, after, i, j - 1); }
  }

  /** One step of parse, seen from outside. */
  ghost predicate ParseStepped(fs: seq<Field>, next: seq<Field>, i: nat) {
    && i < |fs| == |next|
    && (forall j :: 0 <= j < |fs| ==> SameShape(fs[j], next[j]))
    && (forall j :: 0 <= j < |fs| && j != i ==> next[j].vlenFlag == fs[j].vlenFlag)
    && !next[i].vlenFlag
    && (forall j :: 0 <= j <= i ==> next[j].bytePos == fs[j].bytePos)
    && (forall j :: i < j < |fs| ==>
      next[j].bytePos == ToUint8(fs[j].bytePos + if fs[i].vlenFlag then next[i].len else 0))
  }

  lemma {:induction false} FixedStep(fs: seq<Field>, gs: seq<Field>, i: nat, n: uint32)
    requires i < |fs| == |gs| && fs[i].lenUnit == 8 && fs[i].vlenFlag
    requires forall j :: 0 <= j < |fs| ==> gs[j] == FixedBy(fs, i, n, j)
    ensures ParseStepped(fs, gs, i)
  {
    forall j | i < j < |fs| ensures gs[j].bytePos == ToUint8(fs[j].bytePos + gs[i].len) {
      ShiftCongruent(fs[j].bytePos, n);
    }
  }

  lemma {:induction false} ReadAfterStep(fs: seq<Field>, gs: seq<Field>, i: nat, dp: seq<uint8>)
    requires ParseStepped(fs, gs, i)
    ensures ParseStepped(fs, gs[i := ReadField(gs[i], dp)], i)
  {
    ReadKeepsShape(gs[i], dp);
    hide ReadField;
  }

  lemma {:induction false} ParseStepEffect(fs: seq<Field>, i: nat, dp: seq<uint8>)
    requires i < |fs| && ByteVariable(fs)
    ensures ParseStepped(fs, Resolve(fs, i)[i := ReadField(Resolve(fs, i)[i], dp)], i)
  {
    hide ReadField;
    var gs := Resolve(fs, i);
    if fs[i].vlenFlag {
      var k := Lookup(fs, fs[i].vlenIndex).value;
      var n := fs[k].data;
      forall j | 0 <= j < |fs| ensures gs[j] == FixedBy(fs, i, n, j) { ResolveAt(fs, i, k, j); }
      hide Resolve, FixedBy;
      FixedStep(fs, gs, i, n);
    }
    ReadAfterStep(fs, gs, i, dp);
  }

  /** Field j of a later state: same shape, moved d bytes. */
  predicate MovedBy(f: Field, g: Field, d: nat) {
    SameShape(f, g) && g.bytePos == ToUint8(f.bytePos + d)
  }

  /** One pass moves every field by the discovered lengths in front of it, modulo 256 and by nothing else. */
  lemma {:induction false} PassMoves(fs: seq<Field>, i: nat, dp: seq<uint8>)
    requires i <= |fs| && ByteVariable(fs)
    ensures var after := ParseFrom(fs, i, dp);
            forall j :: 0 <= j < |fs| ==>
              && MovedBy(fs[j], after[j], Discovered(fs, after, i, j))
              && after[j].vlenFlag == (if j < i then fs[j].vlenFlag else false)
    decreases |fs| - i
  {
    var after := ParseFrom(fs, i, dp);
    if i < |fs| {
      hide Resolve, ReadField;
      var next := Resolve(fs, i)[i := ReadField(Resolve(fs, i)[i], dp)];
      ParseStepEffect(fs, i, dp);
      ShapeKeepsByteVariable(fs, next);
      PassMoves(next, i + 1, dp);
      ParseFromFrame(next, i + 1, dp);
      assert after == ParseFrom(next, i + 1, dp);
      hide ParseFrom;
      forall j | 0 <= j < |fs|
        ensures MovedBy(fs[j], after[j], Discovered(fs, after, i, j))
        ensures after[j].vlenFlag == (if j < i then fs[j].vlenFlag else false)
      {
        MoveOn(fs, next, after, i, j);
      }
    }
  }

  lemma {:induction false} MoveOn(fs: seq<Field>, next: seq<Field>, after: seq<Field>, i: nat, j: nat)
    requires ParseStepped(fs, next, i) && |after| == |fs| && j < |fs|
    requires after[i] == next[i] && MovedBy(next[j], after[j], Discovered(next, after, i + 1, j))
    ensures MovedBy(fs[j], after[j], Discovered(fs, after, i, j))
  {
    if j > i {
      DiscoveredFirst(fs, after, i, j);
      DiscoveredByFlags(fs, next, after, i + 1, j);
      hide Discovered;
      WrapTwice(fs[j].bytePos, if fs[i].vlenFlag then next[i].len else 0, Discovered(next, after, i + 1, j));
    }
  }

  lemma {:induction false} ShapeKeepsByteVariable(fs: seq<Field>, gs: seq<Field>)
    requires ByteVariable(fs) && |fs| == |gs|
    requires forall j :: 0 <= j < |fs| ==>
             SameShape(fs[j], gs[j]) && (gs[j].vlenFlag ==> fs[j].vlenFlag || fs[j].vlenFlagBak)
    ensures ByteVariable(gs)
  {
    assert SameNames(fs, gs);
    forall j | 0 <= j < |gs| && (gs[j].vlenFlag || gs[j].vlenFlagBak)
      ensures gs[j].lenUnit == 8 && Lookup(gs, gs[j].vlenIndex).Some?
    {
      LookupByNames(fs, gs, |fs|, PadKey(fs[j].vlenIndex));
    }
  }

  // ---------- many rounds ----------

  /** One analyzer after a round of parse and reset for every buffer in turn. */
  function Rounds(fs: seq<Field>, dps: seq<seq<uint8>>): (r: seq<Field>)
    ensures |r| == |fs|
  {
    if dps == [] then fs
    else Reset(ParseFrom(Rounds(fs, dps[..|dps| - 1]), 0, dps[|dps| - 1]))
  }

  /** Sum over all rounds of the variable lengths discovered in front of field j. */
  function TotalDiscovered(fs: seq<Field>, dps: seq<seq<uint8>>, j: nat): nat
    requires j <= |fs|
  {
    if dps == [] then 0
    else
      var before := Rounds(fs, dps[..|dps| - 1]);
      TotalDiscovered(fs, dps[..|dps| - 1], j) + Discovered(before, ParseFrom(before, 0, dps[|dps| - 1]), 0, j)
  }

  /** Reset re-arms the fields but does not move them back: after any rounds each field has drifted by everything
      ever discovered in front of it. */
  lemma {:induction false} Drift(fs: seq<Field>, dps: seq<seq<uint8>>)
    requires ByteVariable(fs) && Armed(fs)
    ensures var r := Rounds(fs, dps);
            && ByteVariable(r) && Armed(r)
            && forall j :: 0 <= j < |fs| ==> MovedBy(fs[j], r[j], TotalDiscovered(fs, dps, j))
    decreases |dps|
  {
    hide ByteVariable, Armed, ParseFrom, Reset, MovedBy, ToUint8, SameShape;
    if dps == [] {
      forall j | 0 <= j < |fs| ensures MovedBy(fs[j], fs[j], 0) { NotMoved(fs[j]); }
    } else {
      var n := |dps| - 1;
      var before := Rounds(fs, dps[..n]);
      Drift(fs, dps[..n]);
      OneRound(before, dps[n]);
      var after := ParseFrom(before, 0, dps[n]);
      assert Rounds(fs, dps) == Reset(after);
      forall j | 0 <= j < |fs| ensures MovedBy(fs[j], Reset(after)[j], TotalDiscovered(fs, dps, j)) {
        assert TotalDiscovered(fs, dps, j) == TotalDiscovered(fs, dps[..n], j) + Discovered(before, after, 0, j);
        MovedTwice(fs[j], before[j], Reset(after)[j], TotalDiscovered(fs, dps[..n], j),
          Discovered(before, after, 0, j));
      }
    }
  }

  lemma {:induction false} NotMoved(f: Field)
    ensures MovedBy(f, f, 0)
  {
  }

  lemma {:induction false} MovedTwice(f: Field, g: Field, h: Field, b: nat, c: nat)
    requires MovedBy(f, g, b) && MovedBy(g, h, c)
    ensures MovedBy(f, h, b + c)
  {
    WrapTwice(f.bytePos, b, c);
  }

  lemma {:induction false} OneRound(fs: seq<Field>, dp: seq<uint8>)
    requires ByteVariable(fs) && Armed(fs)
    ensures var after := ParseFrom(fs, 0, dp);
            && ByteVariable(Reset(after)) && Armed(Reset(after))
            && forall j :: 0 <= j < |fs| ==> MovedBy(fs[j], Reset(after)[j], Discovered(fs, after, 0, j))
  {
    hide ParseFrom, Discovered, ByteVariable, ToUint8;
    PassMoves(fs, 0, dp);
    ShapeKeepsByteVariable(fs, Reset(ParseFrom(fs, 0, dp)));
  }

  lemma {:induction false} WrapTwice(a: nat, b: nat, c: nat)
    ensures ToUint8(ToUint8(a + b) + c) == ToUint8(a + b + c)
  {
  }

  /** So field j is where a fresh analyzer has it if and only if the total drift in front of it is a multiple of 256. */
  lemma {:induction false} DriftIsHarmlessIff(fs: seq<Field>, dps: seq<seq<uint8>>, j: nat)
    requires ByteVariable(fs) && Armed(fs) && j < |fs|
    ensures Rounds(fs, dps)[j].bytePos == fs[j].bytePos <==> TotalDiscovered(fs, dps, j) % 0x100 == 0
  {
    hide ByteVariable, Armed, Rounds, TotalDiscovered, ToUint8;
    Drift(fs, dps);
    assert MovedBy(fs[j], Rounds(fs, dps)[j], TotalDiscovered(fs, dps, j));
    WrapFixpoint(fs[j].bytePos, TotalDiscovered(fs, dps, j));
  }

  lemma {:induction false} WrapFixpoint(b: uint8, d: nat)
    ensures ToUint8(b + d) == b <==> d % 0x100 == 0
  {
  }

  // ---------- same layout, same values ----------

  predicate Numeric(f: Field) { (f.lenUnit == 8 && f.len <= 4) || (f.lenUnit == 1 && f.bitPos <= 7) }

  /** From field i on, a length is read from a fixed-size number in front of the field it measures. */
  ghost predicate IndexedAhead(fs: seq<Field>, i: nat) {
    && (forall j :: 0 <= j < |fs| ==> (fs[j].lenUnit == 1 ==> fs[j].bitPos <= 7))
    && forall j :: i <= j < |fs| && fs[j].vlenFlag ==>
         Lookup(fs, fs[j].vlenIndex).Some? &&
         var k := Lookup(fs, fs[j].vlenIndex).value; k < j && !fs[k].vlenFlag && Numeric(fs[k])
  }

  ghost predicate SameNumbers(fs: seq<Field>, rs: seq<Field>, i: nat) {
    |fs| == |rs| && forall k :: 0 <= k < i && k < |fs| && Numeric(fs[k]) ==> rs[k].data == fs[k].data
  }

  /** next differs from fs in nothing that later lookups depend on. */
  ghost predicate Progressed(fs: seq<Field>, next: seq<Field>, i: nat) {
    && i < |fs| == |next|
    && (forall j :: 0 <= j < |fs| ==> SameShape(fs[j], next[j]))
    && (forall j :: 0 <= j < |fs| && j != i ==> next[j].vlenFlag == fs[j].vlenFlag && next[j].len == fs[j].len)
    && !next[i].vlenFlag && (!fs[i].vlenFlag ==> next[i].len == fs[i].len)
  }

  lemma {:induction false} ProgressKeepsIndex(fs: seq<Field>, next: seq<Field>, i: nat)
    requires Progressed(fs, next, i) && IndexedAhead(fs, i)
    ensures IndexedAhead(next, i + 1)
  {
    assert SameNames(fs, next);
    forall j | i + 1 <= j < |next| && next[j].vlenFlag
      ensures Lookup(next, next[j].vlenIndex) == Lookup(fs, fs[j].vlenIndex)
    {
      LookupByNames(fs, next, |fs|, PadKey(fs[j].vlenIndex));
    }
    forall j | i + 1 <= j < |next| && next[j].vlenFlag
      ensures Lookup(next, next[j].vlenIndex).Some? &&
              var k := Lookup(next, next[j].vlenIndex).value; k < j && !next[k].vlenFlag && Numeric(next[k])
    {
      var k := Lookup(fs, fs[j].vlenIndex).value;
      assert SameShape(fs[k], next[k]);
    }
  }

  /** One step taken by two analyzers laid out alike. */
  lemma {:induction false} TwinStep(fs: seq<Field>, rs: seq<Field>, i: nat)
    requires i < |fs| && Aligned(fs, rs) && IndexedAhead(fs, i) && SameNumbers(fs, rs, i)
    ensures Aligned(Resolve(fs, i), Resolve(rs, i)) && SameNumbers(Resolve(fs, i), Resolve(rs, i), i)
    ensures Progressed(fs, Resolve(fs, i), i)
  {
    var gs, ss := Resolve(fs, i), Resolve(rs, i);
    assert Twin(fs[i], rs[i]);
    if fs[i].vlenFlag {
      var k := Lookup(fs, fs[i].vlenIndex).value;
      LookupByNames(fs, rs, |fs|, PadKey(fs[i].vlenIndex));
      assert rs[k].data == fs[k].data;
      forall j | 0 <= j < |fs|
        ensures gs[j] == FixedBy(fs, i, fs[k].data, j) && ss[j] == FixedBy(rs, i, fs[k].data, j)
      {
        ResolveAt(fs, i, k, j);
        ResolveAt(rs, i, k, j);
      }
      hide Resolve, IndexedAhead;
      forall j | 0 <= j < |fs| ensures Twin(gs[j], ss[j]) && gs[j].data == fs[j].data && ss[j].data == rs[j].data {
        FixedTwins(fs, rs, i, fs[k].data, j);
      }
    }
  }

  lemma {:induction false} SameRead(f: Field, r: Field, dp: seq<uint8>)
    requires Twin(f, r) && !f.vlenFlag && (f.lenUnit == 1 ==> f.bitPos <= 7)
    ensures var g, s := ReadField(f, dp), ReadField(r, dp);
            Twin(g, s) && ValueOf(g) == ValueOf(s) && (Numeric(g) ==> g.data == s.data)
  {
    if f.lenUnit == 8 && f.len > 4 {
      var g, s := ReadField(f, dp), ReadField(r, dp);
      assert g.buf.value[..f.len] == BytesAt(dp, f.bytePos, f.len) == s.buf.value[..f.len];
    }
  }

  ghost predicate SameValuesFrom(fs: seq<Field>, rs: seq<Field>, i: nat) {
    |fs| == |rs| && forall j :: i <= j < |fs| ==> ValueOf(fs[j]) == ValueOf(rs[j])
  }

  /** Two analyzers of one format laid out alike read the same values from the same buffer, whatever values,
      buffers and stale lengths they held before. */
  lemma {:induction false} SameLayoutSameValues(fs: seq<Field>, rs: seq<Field>, i: nat, dp: seq<uint8>)
    requires i <= |fs| && Aligned(fs, rs) && IndexedAhead(fs, i) && SameNumbers(fs, rs, i)
    ensures Aligned(ParseFrom(fs, i, dp), ParseFrom(rs, i, dp))
    ensures SameValuesFrom(ParseFrom(fs, i, dp), ParseFrom(rs, i, dp), i)
    decreases |fs| - i
  {
    hide Resolve, ReadField, IndexedAhead, SameNumbers, ValueOf, Twin;
    if i < |fs| {
      var gs, ss := Resolve(fs, i), Resolve(rs, i);
      var next, other := gs[i := ReadField(gs[i], dp)], ss[i := ReadField(ss[i], dp)];
      TwinStep(fs, rs, i);
      TwinRead(fs, gs, ss, i, dp);
      ProgressKeepsIndex(fs, next, i);
      SameLayoutSameValues(next, other, i + 1, dp);
      ParseFromFrame(next, i + 1, dp);
      ParseFromFrame(other, i + 1, dp);
    }
  }

  lemma {:induction false} TwinRead(fs: seq<Field>, gs: seq<Field>, ss: seq<Field>, i: nat, dp: seq<uint8>)
    requires Progressed(fs, gs, i) && Aligned(gs, ss) && SameNumbers(gs, ss, i) && IndexedAhead(fs, i)
    ensures var next, other := gs[i := ReadField(gs[i], dp)], ss[i := ReadField(ss[i], dp)];
            && Aligned(next, other) && SameNumbers(next, other, i + 1) && Progressed(fs, next, i)
            && ValueOf(next[i]) == ValueOf(other[i])
  {
    assert SameShape(fs[i], gs[i]);
    SameRead(gs[i], ss[i], dp);
    ReadKeepsShape(gs[i], dp);
    hide ReadField;
  }

  /** Parsing after any earlier rounds gives what a fresh analyzer gives, provided nothing was ever discovered in
      front of a field (modulo the 256 at which positions wrap). */
  lemma {:induction false} ReusedReadsAsFresh(fs: seq<Field>, dps: seq<seq<uint8>>, dp: seq<uint8>)
    requires ByteVariable(fs) && Armed(fs) && IndexedAhead(fs, 0)
    requires forall j :: 0 <= j < |fs| ==> TotalDiscovered(fs, dps, j) % 0x100 == 0
    ensures Values(ParseFrom(Rounds(fs, dps), 0, dp)) == Values(ParseFrom(fs, 0, dp))
  {
    var rs := Rounds(fs, dps);
    Drift(fs, dps);
    RoundsKeepLengths(fs, dps);
    forall j | 0 <= j < |fs| ensures Twin(fs[j], rs[j]) { DriftIsHarmlessIff(fs, dps, j); }
    SameLayoutSameValues(fs, rs, 0, dp);
  }

  /** Lengths of fixed fields never change. */
  lemma {:induction false} RoundsKeepLengths(fs: seq<Field>, dps: seq<seq<uint8>>)
    requires ByteVariable(fs) && Armed(fs)
    ensures forall j :: 0 <= j < |fs| && !fs[j].vlenFlag ==> Rounds(fs, dps)[j].len == fs[j].len
    decreases |dps|
  {
    hide ByteVariable, ParseFrom;
    if dps != [] {
      var n := |dps| - 1;
      var before := Rounds(fs, dps[..n]);
      RoundsKeepLengths(fs, dps[..n]);
      Drift(fs, dps[..n]);
      PassKeepsLengths(before, 0, dps[n]);
    }
  }

  lemma {:induction false} PassKeepsLengths(fs: seq<Field>, i: nat, dp: seq<uint8>)
    requires i <= |fs|
    ensures forall j :: 0 <= j < |fs| && !fs[j].vlenFlag ==> ParseFrom(fs, i, dp)[j].len == fs[j].len
    decreases |fs| - i
  {
    if i < |fs| {
      var gs := Resolve(fs, i);
      forall j | 0 <= j < |fs| && !fs[j].vlenFlag
        ensures gs[j].len == fs[j].len && !gs[j].vlenFlag
      {
        ResolveEffect(fs, i, j);
      }
      ReadKeepsShape(gs[i], dp);
      hide Resolve, ReadField;
      PassKeepsLengths(gs[i := ReadField(gs[i], dp)], i + 1, dp);
    }
  }

  lemma {:induction false} ResolveEffect(fs: seq<Field>, i: nat, j: nat)
    requires i < |fs| && j < |fs|
    ensures var f, g := fs[j], Resolve(fs, i)[j];
            && (j != i ==> g.vlenFlag == f.vlenFlag && g.len == f.len)
            && (!fs[i].vlenFlag ==> g == f)
  {
  }
}
