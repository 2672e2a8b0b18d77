/** One analyzer of any byte table over any number of safe parses: it keeps reading records where they are for exactly
    as long as none of them moves a field. */
module Runs {
  import opened CTypes
  import opened Format
  import opened RoundTrip
  import opened Reuse
  import opened Tables
  import opened Records
  import opened OnePass
  import FieldIO

  /** An armed analyzer of table t, every field at its base position or behind it, but inside the buffer. */
  ghost predicate Behind(t: seq<Field>, rs: seq<Field>) {
    OfTable(t, rs) && forall j :: 0 <= j < |t| ==> t[j].bytePos <= rs[j].bytePos <= 100
  }

  ghost predicate InPlace(t: seq<Field>, rs: seq<Field>) {
    |t| == |rs| && forall j :: 0 <= j < |t| ==> rs[j].bytePos == t[j].bytePos
  }

  /** What a safe pass discovers stays below the size of the buffer, so nothing wraps. */
  lemma {:induction false} SafePassBound(t: seq<Field>, rs: seq<Field>, dq: seq<uint8>, ps: seq<Field>, j: nat)
    requires |t| == |rs| == |ps| && j <= |t| && |dq| == 100
    requires forall m :: 0 <= m < |t| ==>
             Solved(t, rs, dq, ps, m) && rs[m].bytePos <= 100 && ps[m].bytePos + ps[m].len <= |dq|
    ensures Discovered(rs, ps, 0, j) <= 100
    decreases j
  {
    if j > 0 {
      SafePassBound(t, rs, dq, ps, j - 1);
      SolvedPlace(t, rs, dq, ps, j - 1);
    }
  }

  lemma {:induction false} SolvedPlace(t: seq<Field>, rs: seq<Field>, dq: seq<uint8>, ps: seq<Field>, j: nat)
    requires j < |t| == |rs| == |ps| && Solved(t, rs, dq, ps, j) && rs[j].bytePos <= 100
    requires Discovered(rs, ps, 0, j) <= 100
    ensures ps[j].bytePos == rs[j].bytePos + Discovered(rs, ps, 0, j)
  {
    hide Discovered, MeasuredBy, FieldIO.ReadBytes;
  }

  lemma {:induction false} SafePass(t: seq<Field>, rs: seq<Field>, dq: seq<uint8>) returns (ps: seq<Field>)
    requires ByteTable(t) && Behind(t, rs) && |dq| == 100 && ParseSafe(rs, 0, dq)
    ensures ps == ParseFrom(rs, 0, dq) && |ps| == |t| == |rs| && Behind(t, Reset(ps))
    ensures forall j :: 0 <= j < |t| ==> ps[j].bytePos == rs[j].bytePos + Discovered(rs, ps, 0, j)
    ensures forall j :: 0 <= j < |t| ==> Reset(ps)[j].bytePos == ps[j].bytePos && rs[j].vlenFlag == t[j].vlenFlag
  {
    hide ByteTable, OfTable, ParseFrom, ParseSafe, Solved, Discovered, Reset;
    ps := Pass(t, rs, dq);
    forall j | 0 <= j < |t| ensures ps[j].bytePos == rs[j].bytePos + Discovered(rs, ps, 0, j) {
      SafePassBound(t, rs, dq, ps, j);
      SolvedPlace(t, rs, dq, ps, j);
    }
    forall j | 0 <= j < |t| ensures rs[j].vlenFlag == t[j].vlenFlag { EntryIndex(t, rs, j); }
  }

  lemma {:induction false} AsNewInPlace(t: seq<Field>, rs: seq<Field>)
    requires OfTable(t, rs)
    ensures AsNew(t, rs) <==> InPlace(t, rs)
  {
  }

  lemma {:induction false} PlacedShift(t: seq<Field>, rs: seq<Field>, fs: seq<Field>, ps: seq<Field>)
    requires Filled(t, fs) && |rs| == |t| && Placed(fs, ps)
    requires forall j :: 0 <= j < |t| ==>
             ps[j].bytePos == rs[j].bytePos + Discovered(rs, ps, 0, j) && rs[j].vlenFlag == t[j].vlenFlag
    ensures InPlace(t, rs)
  {
    hide Discovered, Pending, FinalLen;
    forall j | 0 <= j < |t| ensures rs[j].bytePos == t[j].bytePos { DiscoveredIsPending(fs, rs, ps, j); }
  }

  /** One record: found in its place if and only if the analyzer's fields are, and they stay so if and only if they are
      and the record moves none. */
  lemma {:induction false} SafeRecord(t: seq<Field>, rs: seq<Field>, fs: seq<Field>, dq: seq<uint8>)
    requires ByteTable(t) && Behind(t, rs) && Sendable(t, fs) && StartsWith(dq, fs) && |dq| == 100
    requires ParseSafe(rs, 0, dq)
    ensures Behind(t, Reset(ParseFrom(rs, 0, dq)))
    ensures Placed(fs, ParseFrom(rs, 0, dq)) <==> InPlace(t, rs)
    ensures InPlace(t, Reset(ParseFrom(rs, 0, dq))) <==> InPlace(t, rs) && NothingMoves(fs)
  {
    hide ByteTable, ParseFrom, ParseSafe, StartsWith, Discovered, NothingMoves, Placed, Reset, OfTable, AsNew,
         SameEntry;
    var ps := SafePass(t, rs, dq);
    SendableIsFilled(t, fs);
    AsNewInPlace(t, rs);
    AsNewInPlace(t, Reset(ps));
    if InPlace(t, rs) {
      RecordDelivered(t, fs, rs, dq);
      AsNewAgainIff(t, fs, rs, dq);
    } else {
      if Placed(fs, ps) { PlacedShift(t, rs, fs, ps); }
      var j :| 0 <= j < |t| && rs[j].bytePos != t[j].bytePos;
      assert Reset(ps)[j].bytePos > t[j].bytePos;
    }
  }

  /** Every message of the run is well-formed, and every parse stays inside its buffer. */
  ghost predicate SafeRun(t: seq<Field>, sent: seq<seq<Field>>, dps: seq<seq<uint8>>) {
    && |sent| == |dps|
    && forall i :: 0 <= i < |sent| ==>
         && Sendable(t, sent[i]) && StartsWith(dps[i], sent[i]) && |dps[i]| == 100
         && ParseSafe(Rounds(t, dps[..i]), 0, dps[i])
  }

  ghost predicate QuietUpTo(sent: seq<seq<Field>>, i: nat)
    requires i <= |sent|
  {
    forall k :: 0 <= k < i ==> NothingMoves(sent[k])
  }

  lemma {:induction false} RunState(t: seq<Field>, sent: seq<seq<Field>>, dps: seq<seq<uint8>>, i: nat)
    requires ByteTable(t) && Behind(t, t) && SafeRun(t, sent, dps) && i <= |sent|
    ensures Behind(t, Rounds(t, dps[..i])) && (InPlace(t, Rounds(t, dps[..i])) <==> QuietUpTo(sent, i))
    decreases i
  {
    hide ByteTable, ParseFrom, ParseSafe, StartsWith, NothingMoves, Sendable, Behind, InPlace;
    if i == 0 {
      assert dps[..0] == [];
      SelfInPlace(t);
    } else {
      var k := i - 1;
      RunState(t, sent, dps, k);
      assert dps[..i][..k] == dps[..k] && dps[..i][k] == dps[k];
      assert Rounds(t, dps[..i]) == Reset(ParseFrom(Rounds(t, dps[..k]), 0, dps[k]));
      SafeRecord(t, Rounds(t, dps[..k]), sent[k], dps[k]);
    }
  }

  lemma {:induction false} SelfInPlace(t: seq<Field>)
    ensures InPlace(t, t)
  {
  }

  /** Record i of a safe run is looked for in the right place if and only if no record in front of it moved a field. */
  lemma {:induction false} PlacedInRunIff(t: seq<Field>, sent: seq<seq<Field>>, dps: seq<seq<uint8>>, i: nat)
    requires ByteTable(t) && Behind(t, t) && SafeRun(t, sent, dps) && i < |sent|
    ensures Placed(sent[i], ParseFrom(Rounds(t, dps[..i]), 0, dps[i])) <==> QuietUpTo(sent, i)
  {
    hide ByteTable, ParseFrom, ParseSafe, StartsWith, NothingMoves, Sendable, Behind, InPlace, Rounds, Placed;
    RunState(t, sent, dps, i);
    SafeRecord(t, Rounds(t, dps[..i]), sent[i], dps[i]);
  }
}
