/** The NUL-separated key=value messages of udev1.c. */
module Uevent {
  /** struct uevent. The string fields are what the stored pointers denote, the text up to the next NUL. */
  class Event {
    var action: string
    var path: string
    var subsystem: string
    var firmware: string
    var major: int
    var minor: int

    function View(): Fields
      reads this
    {
      Fields(action, path, subsystem, firmware, major, minor)
    }
  }

  datatype Fields = Fields(action: string, path: string, subsystem: string, firmware: string, major: int, minor: int)

  const INITIAL := Fields("", "", "", "", -1, -1)

  // ---------- the specification: segments and their last-wins fold ----------

  /** The C string at position p: everything up to the next NUL (or the end of the array). */
  function CString(msg: string, p: nat): string
    requires p <= |msg|
    decreases |msg| - p
  {
    if p == |msg| || msg[p] == '\0' then "" else [msg[p]] + CString(msg, p + 1)
  }

  datatype Key = Action | DevPath | Subsystem | Firmware | Major | Minor

  function Text(k: Key): string {
    match k
    case Action => "ACTION="
    case DevPath => "DEVPATH="
    case Subsystem => "SUBSYSTEM="
    case Firmware => "FIRMWARE="
    case Major => "MAJOR="
    case Minor => "MINOR="
  }

  predicate Carries(seg: string, k: Key) { Text(k) <= seg }

  function ValueIn(seg: string, k: Key): string
    requires Carries(seg, k)
  {
    seg[|Text(k)|..]
  }

  /** One segment changes at most one field, the one whose key it starts with. */
  function Apply(f: Fields, seg: string, atoi: string -> int): Fields {
    if Carries(seg, Action) then f.(action := ValueIn(seg, Action))
    else if Carries(seg, DevPath) then f.(path := ValueIn(seg, DevPath))
    else if Carries(seg, Subsystem) then f.(subsystem := ValueIn(seg, Subsystem))
    else if Carries(seg, Firmware) then f.(firmware := ValueIn(seg, Firmware))
    else if Carries(seg, Major) then f.(major := atoi(ValueIn(seg, Major)))
    else if Carries(seg, Minor) then f.(minor := atoi(ValueIn(seg, Minor)))
    else f
  }

  /** Segments from position p up to the first empty one. */
  function Segments(msg: string, p: nat): seq<string>
    requires p <= |msg|
    decreases |msg| - p
  {
    var s := CString(msg, p);
    CStringLength(msg, p);
    if s == "" then [] else [s] + (if p + |s| < |msg| then Segments(msg, p + |s| + 1) else [])
  }

  function Fold(f: Fields, segs: seq<string>, atoi: string -> int): Fields
    decreases |segs|
  {
    if segs == [] then f else Fold(Apply(f, segs[0], atoi), segs[1..], atoi)
  }

  lemma {:induction false} CStringLength(msg: string, p: nat)
    requires p <= |msg|
    ensures var n := |CString(msg, p)|;
            && p + n <= |msg| && CString(msg, p) == msg[p..p + n] && '\0' !in CString(msg, p)
            && (p + n < |msg| ==> msg[p + n] == '\0')
    decreases |msg| - p
  {
    if p < |msg| && msg[p] != '\0' { CStringLength(msg, p + 1); }
  }

  lemma {:induction false} CStringSuffix(msg: string, p: nat, k: nat)
    requires p <= |msg| && k <= |CString(msg, p)|
    ensures p + k <= |msg| && CString(msg, p + k) == CString(msg, p)[k..]
    decreases k
  {
    CStringLength(msg, p);
    if k > 0 { CStringSuffix(msg, p + 1, k - 1); }
  }

  // ---------- the parser ----------

  /** strncmp against a key, and the text behind the key when it matches. */
  method Match(msg: string, p: nat, key: string) returns (hit: bool, q: nat)
    requires p < |msg|
    ensures hit == (key <= CString(msg, p))
    ensures !hit ==> q == p
    ensures hit ==> p <= q <= p + |CString(msg, p)| <= |msg| && CString(msg, q) == CString(msg, p)[|key|..]
  {
    hit := key <= CString(msg, p);
    q := if hit then p + |key| else p;
    CStringLength(msg, p);
    if hit { CStringSuffix(msg, p, |key|); }
  }

  /** The six keys, and the value behind each. */
  lemma {:induction false} KeyTexts(seg: string)
    ensures Carries(seg, Action) <==> "ACTION=" <= seg
    ensures Carries(seg, DevPath) <==> "DEVPATH=" <= seg
    ensures Carries(seg, Subsystem) <==> "SUBSYSTEM=" <= seg
    ensures Carries(seg, Firmware) <==> "FIRMWARE=" <= seg
    ensures Carries(seg, Major) <==> "MAJOR=" <= seg
    ensures Carries(seg, Minor) <==> "MINOR=" <= seg
    ensures Carries(seg, Action) ==> ValueIn(seg, Action) == seg[7..]
    ensures Carries(seg, DevPath) ==> ValueIn(seg, DevPath) == seg[8..]
    ensures Carries(seg, Subsystem) ==> ValueIn(seg, Subsystem) == seg[10..]
    ensures Carries(seg, Firmware) ==> ValueIn(seg, Firmware) == seg[9..]
    ensures Carries(seg, Major) ==> ValueIn(seg, Major) == seg[6..]
    ensures Carries(seg, Minor) ==> ValueIn(seg, Minor) == seg[6..]
  {
    hide Text;
    Texts();
  }

  /** The chain of key comparisons for the segment at p; q is where the pointer ends up. */
  method StoreValue(msg: string, p: nat, uevent: Event, atoi: string -> int) returns (q: nat)
    requires p < |msg|
    modifies uevent
    ensures p <= q <= p + |CString(msg, p)|
    ensures uevent.View() == Apply(old(uevent.View()), CString(msg, p), atoi)
  {
    hide Text, CString, Carries, ValueIn;
    KeyTexts(CString(msg, p));
    var hit;
    hit, q := Match(msg, p, "ACTION=");
    if hit { uevent.action := CString(msg, q); return; }
    hit, q := Match(msg, p, "DEVPATH=");
    if hit { uevent.path := CString(msg, q); return; }
    hit, q := Match(msg, p, "SUBSYSTEM=");
    if hit { uevent.subsystem := CString(msg, q); return; }
    hit, q := Match(msg, p, "FIRMWARE=");
    if hit { uevent.firmware := CString(msg, q); return; }
    hit, q := Match(msg, p, "MAJOR=");
    if hit { uevent.major := atoi(CString(msg, q)); return; }
    hit, q := Match(msg, p, "MINOR=");
    if hit { uevent.minor := atoi(CString(msg, q)); return; }
  }

  /** Advance to after the next NUL. */
  method SkipString(msg: string, p: nat, ghost end: nat) returns (q: nat)
    requires p <= end < |msg| && msg[end] == '\0' && '\0' !in msg[p..end]
    ensures q == end + 1
  {
    assert forall i :: p <= i < end ==> msg[i] == msg[p..end][i - p];
    q := p;
    var c := msg[q];
    q := q + 1;
    while c != '\0'
      invariant p < q <= end + 1 && c == msg[q - 1]
      decreases |msg| - q
    {
      c := msg[q];
      q := q + 1;
    }
  }

  /** parse_event on an array holding n message bytes and two NULs: it stops behind the last segment, at an index no
      greater than n + 1, and the fields are the fold of the segments in front of the first empty one: what stands
      behind the last occurrence of each key. */
  method ParseEvent(msg: string, uevent: Event, atoi: string -> int) returns (stop: nat, ghost segs: seq<string>)
    requires |msg| >= 2 && msg[|msg| - 1] == '\0' && msg[|msg| - 2] == '\0'
    modifies uevent
    ensures forall i :: 0 <= i < |segs| ==> segs[i] != "" && '\0' !in segs[i]
    ensures stop < |msg| && msg[..stop] == Serialise(segs) && msg[stop] == '\0'
    ensures segs == Segments(msg, 0) && uevent.View() == Fold(INITIAL, segs, atoi)
    ensures forall i, v :: LastOf(segs, "ACTION=", i, v) ==> uevent.action == v
    ensures forall i, v :: LastOf(segs, "DEVPATH=", i, v) ==> uevent.path == v
    ensures forall i, v :: LastOf(segs, "SUBSYSTEM=", i, v) ==> uevent.subsystem == v
    ensures forall i, v :: LastOf(segs, "FIRMWARE=", i, v) ==> uevent.firmware == v
    ensures forall i, v :: LastOf(segs, "MAJOR=", i, v) ==> uevent.major == atoi(v)
    ensures forall i, v :: LastOf(segs, "MINOR=", i, v) ==> uevent.minor == atoi(v)
  {
    hide Apply, Segments, Fold, CString, LastOf, Serialise;
    uevent.action := "";
    uevent.path := "";
    uevent.subsystem := "";
    uevent.firmware := "";
    uevent.major := -1;
    uevent.minor := -1;
    segs := Segments(msg, 0);
    MessageIsSerialised(msg, 0);
    var p: nat := 0;
    while msg[p] != '\0'
      invariant p < |msg| && p + |Serialise(Segments(msg, p))| == |Serialise(segs)|
      invariant Fold(uevent.View(), Segments(msg, p), atoi) == Fold(INITIAL, Segments(msg, 0), atoi)
      decreases |msg| - p
    {
      ghost var end := p + |CString(msg, p)|;
      SegmentEnd(msg, p);
      SegmentsStep(msg, p, uevent.View(), atoi);
      SerialisedStep(msg, p);
      var q := StoreValue(msg, p, uevent, atoi);
      assert '\0' !in msg[q..end] by { assert forall i :: q <= i < end ==> msg[i] == msg[p..end][i - p]; }
      p := SkipString(msg, q, end);
    }
    stop := p;
    NoSegments(msg, p, uevent.View(), atoi);
    assert msg[..stop] == msg[0..stop];
    StoredAll(segs, uevent.View(), atoi);
  }

  lemma {:induction false} SerialisedStep(msg: string, p: nat)
    requires p < |msg| && msg[p] != '\0' && p + |CString(msg, p)| < |msg|
    ensures var seg := CString(msg, p);
            Serialise(Segments(msg, p)) == seg + "\0" + Serialise(Segments(msg, p + |seg| + 1))
  {
    var seg := CString(msg, p);
    assert seg != "";
    hide CString;
    var rest := Segments(msg, p + |seg| + 1);
    assert Segments(msg, p) == [seg] + rest;
    hide Segments;
    assert ([seg] + rest)[1..] == rest;
  }

  /** Any array that ends in two NULs holds, from any point on, a serialised list and the NUL of its empty segment. */
  lemma {:induction false} MessageIsSerialised(msg: string, p: nat)
    requires |msg| >= 2 && msg[|msg| - 1] == '\0' && msg[|msg| - 2] == '\0' && p < |msg|
    ensures var segs := Segments(msg, p); var end := p + |Serialise(segs)|;
            && (forall i :: 0 <= i < |segs| ==> segs[i] != "" && '\0' !in segs[i])
            && end < |msg| && msg[p..end] == Serialise(segs) && msg[end] == '\0'
    decreases |msg| - p
  {
    if msg[p] != '\0' {
      SegmentEnd(msg, p);
      SerialisedStep(msg, p);
      CStringLength(msg, p);
      var seg := CString(msg, p);
      var next := p + |seg| + 1;
      MessageIsSerialised(msg, next);
      SegmentsSplit(msg, p);
      hide *;
      JoinSlices(msg, p, seg, Serialise(Segments(msg, next)));
    }
  }

  lemma {:induction false} JoinSlices(msg: string, p: nat, seg: string, tail: string)
    requires p + |seg| + 1 + |tail| <= |msg| && msg[p..p + |seg|] == seg && msg[p + |seg|] == '\0'
    requires msg[p + |seg| + 1..p + |seg| + 1 + |tail|] == tail
    ensures msg[p..p + |seg + "\0" + tail|] == seg + "\0" + tail
  {
    var next := p + |seg| + 1;
    assert msg[p..next + |tail|] == msg[p..p + |seg|] + [msg[p + |seg|]] + msg[next..next + |tail|];
  }

  lemma {:induction false} SegmentsSplit(msg: string, p: nat)
    requires p < |msg| && msg[p] != '\0' && p + |CString(msg, p)| < |msg|
    ensures Segments(msg, p) == [CString(msg, p)] + Segments(msg, p + |CString(msg, p)| + 1)
  {
    assert CString(msg, p) != "";
    hide CString;
  }

  /** A string inside the message ends at a NUL that is not the last byte. */
  lemma {:induction false} SegmentEnd(msg: string, p: nat)
    requires |msg| >= 2 && msg[|msg| - 1] == '\0' && msg[|msg| - 2] == '\0' && p < |msg| && msg[p] != '\0'
    ensures var end := p + |CString(msg, p)|;
            p < end < |msg| - 1 && msg[end] == '\0' && '\0' !in msg[p..end]
  {
    CStringLength(msg, p);
    var end := p + |CString(msg, p)|;
    hide CString;
    assert forall i :: p <= i < end ==> msg[i] == msg[p..end][i - p];
  }

  lemma {:induction false} NoSegments(msg: string, p: nat, f: Fields, atoi: string -> int)
    requires p < |msg| && msg[p] == '\0'
    ensures Fold(f, Segments(msg, p), atoi) == f && Serialise(Segments(msg, p)) == ""
  {
  }

  lemma {:induction false} SegmentsStep(msg: string, p: nat, f: Fields, atoi: string -> int)
    requires p < |msg| && msg[p] != '\0' && p + |CString(msg, p)| < |msg|
    ensures Fold(f, Segments(msg, p), atoi)
         == Fold(Apply(f, CString(msg, p), atoi), Segments(msg, p + |CString(msg, p)| + 1), atoi)
  {
    var seg := CString(msg, p);
    assert seg != "";
    hide CString, Apply;
    var rest := Segments(msg, p + |seg| + 1);
    assert Segments(msg, p) == [seg] + rest;
    hide Segments;
    assert ([seg] + rest)[1..] == rest;
  }

  // ---------- what the fold means ----------

  /** A message made of segments, each ended by a NUL. */
  function Serialise(segs: seq<string>): string {
    if segs == [] then "" else segs[0] + "\0" + Serialise(segs[1..])
  }

  predicate IsSegment(s: string) { s != "" && '\0' !in s }

  lemma {:induction false} CStringAt(msg: string, p: nat, s: string)
    requires p + |s| < |msg| && msg[p..p + |s|] == s && msg[p + |s|] == '\0' && '\0' !in s
    ensures CString(msg, p) == s
    decreases |s|
  {
    if s != "" {
      assert msg[p] == s[0];
      assert msg[p + 1..p + 1 + |s[1..]|] == s[1..];
      CStringAt(msg, p + 1, s[1..]);
    }
  }

  /** The parser's view of a serialised list is the list, and nothing behind the first empty segment is looked at. */
  lemma {:induction false} SegmentsOfSerialised(segs: seq<string>, before: string, rest: string)
    requires forall i :: 0 <= i < |segs| ==> IsSegment(segs[i])
    ensures Segments(before + Serialise(segs) + "\0" + rest, |before|) == segs
    decreases |segs|
  {
    var msg := before + Serialise(segs) + "\0" + rest;
    if segs == [] {
      CStringAt(msg, |before|, "");
    } else {
      var s := segs[0];
      var tail := Serialise(segs[1..]);
      assert msg == (before + s + "\0") + tail + "\0" + rest;
      assert msg[|before|..|before| + |s|] == s && msg[|before| + |s|] == '\0';
      CStringAt(msg, |before|, s);
      SegmentsOfSerialised(segs[1..], before + s + "\0", rest);
      assert |before + s + "\0"| == |before| + |s| + 1;
    }
  }

  /** Value of the last segment with the given key, if any. */
  function LastValue(segs: seq<string>, k: Key, default: string): string {
    if segs == [] then default
    else if Carries(segs[|segs| - 1], k) then ValueIn(segs[|segs| - 1], k)
    else LastValue(segs[..|segs| - 1], k, default)
  }

  predicate HasKey(segs: seq<string>, k: Key) { exists i :: 0 <= i < |segs| && Carries(segs[i], k) }

  function LastNumber(segs: seq<string>, k: Key, atoi: string -> int): int {
    if HasKey(segs, k) then atoi(LastValue(segs, k, "")) else -1
  }

  lemma {:induction false} FoldSnoc(f: Fields, segs: seq<string>, s: string, atoi: string -> int)
    ensures Fold(f, segs + [s], atoi) == Apply(Fold(f, segs, atoi), s, atoi)
    decreases |segs|
  {
    if segs == [] {
    } else {
      assert (segs + [s])[1..] == segs[1..] + [s];
      FoldSnoc(Apply(f, segs[0], atoi), segs[1..], s, atoi);
    }
  }

  /** A segment starts with at most one of the six keys. */
  lemma {:induction false} KeysExclusive(s: string, k: Key, l: Key)
    requires Carries(s, k) && Carries(s, l)
    ensures k == l
  {
    assert Text(k)[0] == s[0] == Text(l)[0] && Text(k)[1] == s[1] == Text(l)[1];
  }

  lemma {:induction false} HasKeySnoc(segs: seq<string>, k: Key)
    requires segs != []
    ensures HasKey(segs, k) <==> HasKey(segs[..|segs| - 1], k) || Carries(segs[|segs| - 1], k)
  {
    hide Carries;
    var front := segs[..|segs| - 1];
    if HasKey(front, k) {
      var i :| 0 <= i < |front| && Carries(front[i], k);
      assert Carries(segs[i], k);
    }
    if HasKey(segs, k) && !Carries(segs[|segs| - 1], k) {
      var i :| 0 <= i < |segs| && Carries(segs[i], k);
      assert Carries(front[i], k);
    }
  }

  /** What the outputs should be, key by key. */
  function LastWins(segs: seq<string>, atoi: string -> int): Fields {
    Fields(LastValue(segs, Action, ""), LastValue(segs, DevPath, ""), LastValue(segs, Subsystem, ""),
           LastValue(segs, Firmware, ""), LastNumber(segs, Major, atoi), LastNumber(segs, Minor, atoi))
  }

  /** Every output is the value of the last segment with its key, and its initial value if there is none. */
  lemma {:induction false} LastKeyWins(segs: seq<string>, atoi: string -> int)
    ensures Fold(INITIAL, segs, atoi) == LastWins(segs, atoi)
    decreases |segs|
  {
    if segs == [] {
    } else {
      var front, s := segs[..|segs| - 1], segs[|segs| - 1];
      assert front + [s] == segs;
      LastKeyWins(front, atoi);
      FoldSnoc(INITIAL, front, s, atoi);
      LastWinsSnoc(segs, atoi);
    }
  }

  lemma {:induction false} LastWinsSnoc(segs: seq<string>, atoi: string -> int)
    requires segs != []
    ensures LastWins(segs, atoi) == Apply(LastWins(segs[..|segs| - 1], atoi), segs[|segs| - 1], atoi)
  {
    hide Carries, ValueIn, Text, HasKey;
    HasKeySnoc(segs, Major);
    HasKeySnoc(segs, Minor);
    var s := segs[|segs| - 1];
    forall k, l | Carries(s, k) && Carries(s, l) ensures k == l {
      KeysExclusive(s, k, l);
    }
  }

  /** Parsing a serialised list of segments, followed by its empty segment and anything at all, is a last-wins fold. */
  lemma {:induction false} ParseOfSerialised(segs: seq<string>, rest: string, atoi: string -> int)
    requires forall i :: 0 <= i < |segs| ==> IsSegment(segs[i])
    ensures Fold(INITIAL, Segments(Serialise(segs) + "\0" + rest, 0), atoi) == LastWins(segs, atoi)
  {
    assert "" + Serialise(segs) + "\0" + rest == Serialise(segs) + "\0" + rest;
    SegmentsOfSerialised(segs, "", rest);
    LastKeyWins(segs, atoi);
  }

  // ---------- the same in the texts of the message ----------

  lemma {:induction false} LastFound(segs: seq<string>, k: Key, i: nat, atoi: string -> int)
    requires i < |segs| && Text(k) <= segs[i] && forall j :: i < j < |segs| ==> !(Text(k) <= segs[j])
    ensures LastValue(segs, k, "") == segs[i][|Text(k)|..]
    ensures LastNumber(segs, k, atoi) == atoi(segs[i][|Text(k)|..])
    decreases |segs|
  {
    assert Carries(segs[i], k);
    hide Text;
    if i < |segs| - 1 {
      var front := segs[..|segs| - 1];
      assert front[i] == segs[i] && forall j :: i < j < |front| ==> front[j] == segs[j];
      LastFound(front, k, i, atoi);
    }
  }

  lemma {:induction false} NoneFound(segs: seq<string>, k: Key, atoi: string -> int)
    requires forall j :: 0 <= j < |segs| ==> !(Text(k) <= segs[j])
    ensures LastValue(segs, k, "") == "" && LastNumber(segs, k, atoi) == -1
    decreases |segs|
  {
    hide Text;
    if segs != [] { NoneFound(segs[..|segs| - 1], k, atoi); }
  }

  /** Segment i is the last that begins with the key, and v stands behind it. */
  predicate LastOf(segs: seq<string>, key: string, i: nat, v: string) {
    i < |segs| && segs[i] == key + v && forall j :: i < j < |segs| ==> !(key <= segs[j])
  }

  ghost predicate StoredText(segs: seq<string>, i: nat, v: string, f: Fields, atoi: string -> int) {
    && (LastOf(segs, "ACTION=", i, v) ==> f.action == v)
    && (LastOf(segs, "DEVPATH=", i, v) ==> f.path == v)
    && (LastOf(segs, "SUBSYSTEM=", i, v) ==> f.subsystem == v)
    && (LastOf(segs, "FIRMWARE=", i, v) ==> f.firmware == v)
    && (LastOf(segs, "MAJOR=", i, v) ==> f.major == atoi(v))
    && (LastOf(segs, "MINOR=", i, v) ==> f.minor == atoi(v))
  }

  lemma {:induction false} StoredByText(segs: seq<string>, i: nat, v: string, atoi: string -> int)
    ensures StoredText(segs, i, v, Fold(INITIAL, segs, atoi), atoi)
  {
    hide LastValue, LastNumber, Fold, Text;
    LastKeyWins(segs, atoi);
    assert Text(Action) == "ACTION=" && Text(DevPath) == "DEVPATH=" && Text(Subsystem) == "SUBSYSTEM=" by { Texts(); }
    assert Text(Firmware) == "FIRMWARE=" && Text(Major) == "MAJOR=" && Text(Minor) == "MINOR=" by { Texts(); }
    forall k | LastOf(segs, Text(k), i, v)
      ensures LastValue(segs, k, "") == v && LastNumber(segs, k, atoi) == atoi(v)
    {
      LastFound(segs, k, i, atoi);
    }
  }

  lemma {:induction false} StoredAll(segs: seq<string>, f: Fields, atoi: string -> int)
    requires f == Fold(INITIAL, segs, atoi)
    ensures forall i, v :: LastOf(segs, "ACTION=", i, v) ==> f.action == v
    ensures forall i, v :: LastOf(segs, "DEVPATH=", i, v) ==> f.path == v
    ensures forall i, v :: LastOf(segs, "SUBSYSTEM=", i, v) ==> f.subsystem == v
    ensures forall i, v :: LastOf(segs, "FIRMWARE=", i, v) ==> f.firmware == v
    ensures forall i, v :: LastOf(segs, "MAJOR=", i, v) ==> f.major == atoi(v)
    ensures forall i, v :: LastOf(segs, "MINOR=", i, v) ==> f.minor == atoi(v)
  {
    hide Fold, LastOf;
    forall i, v | LastOf(segs, "ACTION=", i, v) ensures f.action == v { StoredByText(segs, i, v, atoi); }
    forall i, v | LastOf(segs, "DEVPATH=", i, v) ensures f.path == v { StoredByText(segs, i, v, atoi); }
    forall i, v | LastOf(segs, "SUBSYSTEM=", i, v) ensures f.subsystem == v { StoredByText(segs, i, v, atoi); }
    forall i, v | LastOf(segs, "FIRMWARE=", i, v) ensures f.firmware == v { StoredByText(segs, i, v, atoi); }
    forall i, v | LastOf(segs, "MAJOR=", i, v) ensures f.major == atoi(v) { StoredByText(segs, i, v, atoi); }
    forall i, v | LastOf(segs, "MINOR=", i, v) ensures f.minor == atoi(v) { StoredByText(segs, i, v, atoi); }
  }

  lemma {:induction false} Texts()
    ensures Text(Action) == "ACTION=" && Text(DevPath) == "DEVPATH=" && Text(Subsystem) == "SUBSYSTEM="
    ensures Text(Firmware) == "FIRMWARE=" && Text(Major) == "MAJOR=" && Text(Minor) == "MINOR="
  {
  }

  /** On messages: parsing a serialised list, whatever follows its empty segment, stores the text v behind the last
      ACTION=, DEVPATH=, SUBSYSTEM= or FIRMWARE=, and what atoi makes of it behind the last MAJOR= or MINOR=. */
  lemma {:induction false} ParsedText(segs: seq<string>, i: nat, v: string, rest: string, atoi: string -> int)
    requires i < |segs| && forall j :: 0 <= j < |segs| ==> segs[j] != "" && '\0' !in segs[j]
    ensures var f := Fold(INITIAL, Segments(Serialise(segs) + "\0" + rest, 0), atoi);
            && (segs[i] == "ACTION=" + v && (forall j :: i < j < |segs| ==> !("ACTION=" <= segs[j])) ==> f.action == v)
            && (segs[i] == "DEVPATH=" + v && (forall j :: i < j < |segs| ==> !("DEVPATH=" <= segs[j])) ==> f.path == v)
            && (segs[i] == "SUBSYSTEM=" + v && (forall j :: i < j < |segs| ==> !("SUBSYSTEM=" <= segs[j])) ==>
                  f.subsystem == v)
            && (segs[i] == "FIRMWARE=" + v && (forall j :: i < j < |segs| ==> !("FIRMWARE=" <= segs[j])) ==>
                  f.firmware == v)
            && (segs[i] == "MAJOR=" + v && (forall j :: i < j < |segs| ==> !("MAJOR=" <= segs[j])) ==>
                  f.major == atoi(v))
            && (segs[i] == "MINOR=" + v && (forall j :: i < j < |segs| ==> !("MINOR=" <= segs[j])) ==>
                  f.minor == atoi(v))
  {
    hide Fold, Segments, Serialise;
    FoldOfSerialised(segs, rest, atoi);
    StoredByText(segs, i, v, atoi);
  }

  /** A key that begins no segment leaves its initial value. */
  lemma {:induction false} AbsentKey(segs: seq<string>, rest: string, atoi: string -> int)
    requires forall j :: 0 <= j < |segs| ==> segs[j] != "" && '\0' !in segs[j]
    ensures var f := Fold(INITIAL, Segments(Serialise(segs) + "\0" + rest, 0), atoi);
            && ((forall j :: 0 <= j < |segs| ==> !("ACTION=" <= segs[j])) ==> f.action == "")
            && ((forall j :: 0 <= j < |segs| ==> !("DEVPATH=" <= segs[j])) ==> f.path == "")
            && ((forall j :: 0 <= j < |segs| ==> !("SUBSYSTEM=" <= segs[j])) ==> f.subsystem == "")
            && ((forall j :: 0 <= j < |segs| ==> !("FIRMWARE=" <= segs[j])) ==> f.firmware == "")
            && ((forall j :: 0 <= j < |segs| ==> !("MAJOR=" <= segs[j])) ==> f.major == -1)
            && ((forall j :: 0 <= j < |segs| ==> !("MINOR=" <= segs[j])) ==> f.minor == -1)
  {
    hide LastValue, LastNumber, Fold, Text, Segments, Serialise;
    FoldOfSerialised(segs, rest, atoi);
    LastKeyWins(segs, atoi);
    assert Text(Action) == "ACTION=" && Text(DevPath) == "DEVPATH=" && Text(Subsystem) == "SUBSYSTEM=" by { Texts(); }
    assert Text(Firmware) == "FIRMWARE=" && Text(Major) == "MAJOR=" && Text(Minor) == "MINOR=" by { Texts(); }
    forall k | forall j :: 0 <= j < |segs| ==> !(Text(k) <= segs[j])
      ensures LastValue(segs, k, "") == "" && LastNumber(segs, k, atoi) == -1
    {
      NoneFound(segs, k, atoi);
    }
  }

  /** A segment that begins with none of the six keys might as well not be there. */
  lemma {:induction false} OtherSegmentIgnored(segs: seq<string>, i: nat, rest: string, atoi: string -> int)
    requires i < |segs| && forall j :: 0 <= j < |segs| ==> segs[j] != "" && '\0' !in segs[j]
    requires !("ACTION=" <= segs[i]) && !("DEVPATH=" <= segs[i]) && !("SUBSYSTEM=" <= segs[i])
    requires !("FIRMWARE=" <= segs[i]) && !("MAJOR=" <= segs[i]) && !("MINOR=" <= segs[i])
    ensures Fold(INITIAL, Segments(Serialise(segs) + "\0" + rest, 0), atoi)
         == Fold(INITIAL, Segments(Serialise(segs[..i] + segs[i + 1..]) + "\0" + rest, 0), atoi)
  {
    KeyTexts(segs[i]);
    var others := segs[..i] + segs[i + 1..];
    assert forall j :: 0 <= j < |others| ==> others[j] == segs[if j < i then j else j + 1];
    hide *;
    assert forall k :: !Carries(segs[i], k) by { forall k ensures !Carries(segs[i], k) { KeyCases(k); } }
    FoldOfSerialised(segs, rest, atoi);
    FoldOfSerialised(others, rest, atoi);
    FoldSkips(INITIAL, segs, i, atoi);
  }

  lemma {:induction false} KeyCases(k: Key)
    ensures k == Action || k == DevPath || k == Subsystem || k == Firmware || k == Major || k == Minor
  {
  }

  lemma {:induction false} FoldOfSerialised(segs: seq<string>, rest: string, atoi: string -> int)
    requires forall j :: 0 <= j < |segs| ==> segs[j] != "" && '\0' !in segs[j]
    ensures Fold(INITIAL, Segments(Serialise(segs) + "\0" + rest, 0), atoi) == Fold(INITIAL, segs, atoi)
  {
    hide Fold, Segments, Serialise;
    assert "" + Serialise(segs) + "\0" + rest == Serialise(segs) + "\0" + rest;
    SegmentsOfSerialised(segs, "", rest);
  }

  lemma {:induction false} FoldSkips(f: Fields, segs: seq<string>, i: nat, atoi: string -> int)
    requires i < |segs| && forall k :: !Carries(segs[i], k)
    ensures Fold(f, segs, atoi) == Fold(f, segs[..i] + segs[i + 1..], atoi)
    decreases i
  {
    hide Carries, ValueIn;
    if i == 0 {
      assert segs[..0] + segs[1..] == segs[1..];
    } else {
      FoldSkips(Apply(f, segs[0], atoi), segs[1..], i - 1, atoi);
      assert (segs[..i] + segs[i + 1..])[1..] == segs[1..][..i - 1] + segs[1..][i..];
    }
  }
}
