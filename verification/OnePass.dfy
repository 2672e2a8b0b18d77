/** One parse by an analyzer of a byte table, whatever it has been through, as equations between places, lengths and
    bytes of the message. */
module OnePass {
  import opened CTypes
  import opened FieldIO
  import opened Format
  import opened RoundTrip
  import opened Reuse
  import opened ParseResult
  import opened Tables

  /** r is field f of the table, possibly elsewhere; length of a variable field, value and buffer may be left over. */
  predicate SameEntry(f: Field, r: Field) {
    && r.name == f.name && r.vlenIndex == f.vlenIndex && r.vlenFlag == f.vlenFlag && r.vlenFlagBak == f.vlenFlagBak
    && r.bitPos == f.bitPos && r.lenUnit == f.lenUnit && (!f.vlenFlag ==> r.len == f.len)
  }

  /** An armed analyzer of table t, its fields wherever earlier messages have left them. */
  ghost predicate OfTable(t: seq<Field>, rs: seq<Field>) {
    |t| == |rs| && forall j :: 0 <= j < |t| ==> SameEntry(t[j], rs[j])
  }

  lemma {:induction false} EntryIndex(t: seq<Field>, rs: seq<Field>, j: nat)
    requires ByteTable(t) && OfTable(t, rs) && j < |t|
    ensures SameEntry(t[j], rs[j]) && ByteRow(t, j)
    ensures t[j].vlenFlag ==> Lookup(rs, rs[j].vlenIndex).Some? && MeasuredBy(t, j, Lookup(rs, rs[j].vlenIndex).value)
  {
    assert ByteRow(t, j) && SameEntry(t[j], rs[j]);
    if t[j].vlenFlag {
      var k :| MeasuredBy(t, j, k);
      hide ByteRow, MeasuredBy;
      MeasuredIsLookup(t, j, k);
      LookupByNames(t, rs, |t|, PadKey(t[j].vlenIndex));
    }
  }

  lemma {:induction false} TableConditions(t: seq<Field>, rs: seq<Field>)
    requires ByteTable(t) && OfTable(t, rs)
    ensures ByteVariable(rs) && Armed(rs) && IndexedAhead(rs, 0) && PlainBytes(rs)
    ensures forall j :: 0 <= j < |rs| ==> Readable(rs[j])
  {
    hide ByteTable, PadKey, LastWith, Lookup;
    forall j | 0 <= j < |rs|
      ensures rs[j].vlenFlag == rs[j].vlenFlagBak && Readable(rs[j]) && rs[j].lenUnit == 8 && ShortKey(rs[j])
      ensures rs[j].vlenFlag ==> Lookup(rs, rs[j].vlenIndex).Some? &&
                                 var k := Lookup(rs, rs[j].vlenIndex).value; k < j && !rs[k].vlenFlag && Numeric(rs[k])
    {
      EntryIndex(t, rs, j);
      if t[j].vlenFlag { EntryIndex(t, rs, Lookup(rs, rs[j].vlenIndex).value); }
    }
  }

  // ---------- lengths ----------

  /** Variable field j of a finished parse has the length its length field holds. */
  predicate LengthFound(fs: seq<Field>, after: seq<Field>, j: nat)
    requires j < |fs| == |after|
  {
    match Lookup(fs, fs[j].vlenIndex)
    case None => !fs[j].vlenFlag
    case Some(k) => fs[j].vlenFlag ==> after[j].len == ToUint16(after[k].data)
  }

  /** A variable field ends up with the length its length field ends up holding. */
  lemma {:induction false} MeasuredLengths(fs: seq<Field>, i: nat, dp: seq<uint8>)
    requires i <= |fs| && IndexedAhead(fs, i)
    ensures forall j :: i <= j < |fs| ==> LengthFound(fs, ParseFrom(fs, i, dp), j)
    decreases |fs| - i
  {
    hide Resolve, ReadField, IndexedAhead, Lookup, SameNumbers;
    if i < |fs| {
      var gs := Resolve(fs, i);
      var next := gs[i := ReadField(gs[i], dp)];
      var after := ParseFrom(fs, i, dp);
      SelfTwin(fs, i);
      TwinStep(fs, fs, i);
      TwinRead(fs, gs, gs, i, dp);
      ProgressKeepsIndex(fs, next, i);
      MeasuredLengths(next, i + 1, dp);
      ParseFromFrame(next, i + 1, dp);
      if fs[i].vlenFlag { FixedLength(fs, i, dp); }
      forall j | i <= j < |fs| ensures LengthFound(fs, after, j) {
        if j > i {
          LookupAfterStep(fs, next, i, j);
          assert LengthFound(next, ParseFrom(next, i + 1, dp), j);
        }
      }
    }
  }

  lemma {:induction false} SelfTwin(fs: seq<Field>, i: nat)
    ensures Aligned(fs, fs) && SameNumbers(fs, fs, i)
  {
  }

  lemma {:induction false} LookupAfterStep(fs: seq<Field>, next: seq<Field>, i: nat, j: nat)
    requires Progressed(fs, next, i) && j < |fs|
    ensures next[j].vlenIndex == fs[j].vlenIndex && (j != i ==> next[j].vlenFlag == fs[j].vlenFlag)
    ensures Lookup(next, fs[j].vlenIndex) == Lookup(fs, fs[j].vlenIndex)
  {
    assert SameNames(fs, next);
    LookupByNames(fs, next, |fs|, PadKey(fs[j].vlenIndex));
  }

  lemma {:induction false} FixedLength(fs: seq<Field>, i: nat, dp: seq<uint8>)
    requires i < |fs| && IndexedAhead(fs, i) && fs[i].vlenFlag
    ensures Lookup(fs, fs[i].vlenIndex).Some?
    ensures var k, gs := Lookup(fs, fs[i].vlenIndex).value, Resolve(fs, i);
            k < i && gs[k].data == fs[k].data && ReadField(gs[i], dp).len == ToUint16(fs[k].data)
  {
    var k := Lookup(fs, fs[i].vlenIndex).value;
    ResolveAt(fs, i, k, i);
    ResolveAt(fs, i, k, k);
    ReadKeepsShape(Resolve(fs, i)[i], dp);
    hide Resolve, ReadField, Lookup;
  }

  // ---------- safety ----------

  /** Byte fields whose length fields have names the index can look up. */
  ghost predicate PlainBytes(fs: seq<Field>) {
    forall j :: 0 <= j < |fs| ==> fs[j].lenUnit == 8 && ShortKey(fs[j])
  }

  lemma {:induction false} ResolvePlain(fs: seq<Field>, i: nat)
    requires i < |fs| && PlainBytes(fs)
    ensures PlainBytes(Resolve(fs, i)) && !Resolve(fs, i)[i].vlenFlag
  {
  }

  /** A parse of byte fields is safe if and only if every field ends up inside the message. */
  lemma {:induction false} SafeIffWithin(fs: seq<Field>, i: nat, dp: seq<uint8>)
    requires i <= |fs| && PlainBytes(fs)
    ensures ParseSafe(fs, i, dp) <==> EndWithin(ParseFrom(fs, i, dp), i, |dp|)
    decreases |fs| - i
  {
    hide Resolve, ReadField;
    if i < |fs| {
      var gs := Resolve(fs, i);
      var next := gs[i := ReadField(gs[i], dp)];
      ResolvePlain(fs, i);
      ReadKeepsShape(gs[i], dp);
      ParseFromFrame(next, i + 1, dp);
      SafeIffWithin(next, i + 1, dp);
      assert ParseFrom(fs, i, dp)[i] == next[i];
    }
  }

  // ---------- the equations ----------

  /** Field j of a parse from rs: moved by the variable lengths in front of it, read where it then stands. */
  ghost predicate Solved(t: seq<Field>, rs: seq<Field>, dp: seq<uint8>, ps: seq<Field>, j: nat)
    requires j < |t| == |rs| == |ps|
  {
    && ps[j].bytePos == ToUint8(rs[j].bytePos + Discovered(rs, ps, 0, j))
    && ps[j].lenUnit == 8
    && (!t[j].vlenFlag ==> ps[j].len == t[j].len && ps[j].data == ReadBytes(dp, ps[j].bytePos, t[j].len))
    && (forall k: nat :: k < j && t[j].vlenFlag && MeasuredBy(t, j, k) ==> ps[j].len == ToUint16(ps[k].data))
  }

  lemma {:induction false} PassSolves(t: seq<Field>, rs: seq<Field>, dp: seq<uint8>, j: nat)
    requires ByteTable(t) && OfTable(t, rs) && j < |t|
    ensures Solved(t, rs, dp, ParseFrom(rs, 0, dp), j)
    ensures SameEntry(t[j], Reset(ParseFrom(rs, 0, dp))[j])
    ensures Reset(ParseFrom(rs, 0, dp))[j].bytePos == ParseFrom(rs, 0, dp)[j].bytePos
  {
    hide *;
    var ps := ParseFrom(rs, 0, dp);
    assert |rs| == |t| by { SameSize(t, rs); }
    TableConditions(t, rs);
    EntryIndex(t, rs, j);
    PassMoves(rs, 0, dp);
    PassKeepsLengths(rs, 0, dp);
    ParseReadsOff(rs, 0, dp);
    MeasuredLengths(rs, 0, dp);
    assert LengthFound(rs, ps, j) && MovedBy(rs[j], ps[j], Discovered(rs, ps, 0, j)) && ReadOff(rs[j], ps[j], dp);
    SolvedByParts(t, rs, dp, ps, j);
  }

  lemma {:induction false} SameSize(t: seq<Field>, rs: seq<Field>)
    requires OfTable(t, rs)
    ensures |rs| == |t|
  {
  }

  lemma {:induction false} SolvedByParts(t: seq<Field>, rs: seq<Field>, dp: seq<uint8>, ps: seq<Field>, j: nat)
    requires j < |t| == |rs| == |ps| && ByteTable(t) && OfTable(t, rs) && SameEntry(t[j], rs[j]) && ByteRow(t, j)
    requires MovedBy(rs[j], ps[j], Discovered(rs, ps, 0, j)) && !ps[j].vlenFlag && ReadOff(rs[j], ps[j], dp)
    requires LengthFound(rs, ps, j) && (!rs[j].vlenFlag ==> ps[j].len == rs[j].len)
    ensures Solved(t, rs, dp, ps, j) && SameEntry(t[j], Reset(ps)[j]) && Reset(ps)[j].bytePos == ps[j].bytePos
  {
    hide ByteTable, Discovered, ToUint8, Lookup, ReadBytes, MeasuredBy, OfTable, StoreBuf;
    if !t[j].vlenFlag { ReadBytesFits(dp, ps[j].bytePos, ps[j].len); }
    forall k: nat | k < j && t[j].vlenFlag && MeasuredBy(t, j, k) ensures ps[j].len == ToUint16(ps[k].data) {
      MeasuredHere(t, rs, j, k);
    }
  }

  lemma {:induction false} MeasuredHere(t: seq<Field>, rs: seq<Field>, j: nat, k: nat)
    requires ByteTable(t) && OfTable(t, rs) && j < |t| && MeasuredBy(t, j, k)
    ensures Lookup(rs, t[j].vlenIndex) == Some(k) && k < j
  {
    hide PadKey, ByteRow;
    MeasuredIsLookup(t, j, k);
    assert SameNames(t, rs);
    LookupByNames(t, rs, |t|, PadKey(t[j].vlenIndex));
  }

  /** The whole pass: every field's equations, the analyzer armed again, safety as a condition on the places. */
  lemma {:induction false} Pass(t: seq<Field>, rs: seq<Field>, dp: seq<uint8>) returns (ps: seq<Field>)
    requires ByteTable(t) && OfTable(t, rs)
    ensures ps == ParseFrom(rs, 0, dp) && |ps| == |t| == |rs|
    ensures forall j :: 0 <= j < |t| ==> Solved(t, rs, dp, ps, j) && Reset(ps)[j].bytePos == ps[j].bytePos
    ensures OfTable(t, Reset(ps))
    ensures ParseSafe(rs, 0, dp) <==> forall j :: 0 <= j < |t| ==> ps[j].bytePos + ps[j].len <= |dp|
  {
    hide ByteTable, ParseFrom, ParseSafe, Solved, Reset, SameEntry;
    ps := ParseFrom(rs, 0, dp);
    TableConditions(t, rs);
    SafeIffWithin(rs, 0, dp);
    forall j | 0 <= j < |t|
      ensures Solved(t, rs, dp, ps, j) && Reset(ps)[j].bytePos == ps[j].bytePos && SameEntry(t[j], Reset(ps)[j])
    {
      PassSolves(t, rs, dp, j);
    }
    forall j | 0 <= j < |t| ensures ps[j].lenUnit == 8 { SolvedUnit(t, rs, dp, ps, j); }
  }

  lemma {:induction false} SolvedUnit(t: seq<Field>, rs: seq<Field>, dp: seq<uint8>, ps: seq<Field>, j: nat)
    requires j < |t| == |rs| == |ps| && Solved(t, rs, dp, ps, j)
    ensures ps[j].lenUnit == 8
  {
  }
}
