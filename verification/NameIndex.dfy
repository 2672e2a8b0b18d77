/** The hash index against the linear scan it replaced, which is still in the source behind #if 0. */
module NameIndex {
  import opened CTypes
  import opened Format

  /** The first field from position i on whose name is the key: the scan's answer. */
  function Scan(fs: seq<Field>, i: nat, key: string): (r: Option<nat>)
    requires i <= |fs|
    ensures r.Some? ==> i <= r.value < |fs| && fs[r.value].name == key
    ensures r.Some? ==> forall j :: i <= j < r.value ==> fs[j].name != key
    ensures r.None? ==> forall j :: i <= j < |fs| ==> fs[j].name != key
    decreases |fs| - i
  {
    if i == |fs| then None else if fs[i].name == key then Some(i) else Scan(fs, i + 1, key)
  }

  /** C strings hold no NUL. */
  predicate CNamed(fs: seq<Field>) { forall i :: 0 <= i < |fs| ==> '\0' !in fs[i].name }

  /** Zero padding to ten bytes keeps a short key apart from every other name, including truncated long ones. */
  lemma {:induction false} PaddingInjective(name: string, key: string)
    requires '\0' !in name && '\0' !in key && |key| < KEY_SIZE
    ensures PadKey(name) == PadKey(key) <==> name == key
  {
    var p, q := PadKey(name), PadKey(key);
    assert forall i :: 0 <= i < KEY_SIZE ==> p[i] == if i < |name| then name[i] else '\0';
    assert forall i :: 0 <= i < KEY_SIZE ==> q[i] == if i < |key| then key[i] else '\0';
    if p == q {
      var shorter := if |name| < |key| then |name| else |key|;
      assert p[shorter] == q[shorter];
      assert |name| == |key|;
      assert forall i :: 0 <= i < |key| ==> name[i] == p[i] == q[i] == key[i];
    }
  }

  /** The key of a name: its first ten characters, zeros behind it. */
  lemma {:induction false} PaddedKey(name: string, i: nat)
    requires i < 10
    ensures |PadKey(name)| == 10 && PadKey(name)[i] == if i < |name| then name[i] else '\0'
  {
  }

  /** A short name is found at its last occurrence. */
  lemma {:induction false} NamedLookup(fs: seq<Field>, k: nat, name: string)
    requires CNamed(fs) && '\0' !in name && |name| < KEY_SIZE && k < |fs| && fs[k].name == name
    requires forall m :: k < m < |fs| ==> fs[m].name != name
    ensures Lookup(fs, name) == Some(k)
  {
    forall m | 0 <= m < |fs| ensures PadKey(fs[m].name) == PadKey(name) <==> fs[m].name == name {
      PaddingInjective(fs[m].name, name);
    }
    hide PadKey;
  }

  predicate Occurs(fs: seq<Field>, i: nat, key: string) { i < |fs| && fs[i].name == key }

  /** For a key short enough for the index, lookup and scan agree if and only if the key names at most one field. */
  lemma {:induction false} IndexAgreesWithScan(fs: seq<Field>, key: string)
    requires CNamed(fs) && '\0' !in key && |key| < KEY_SIZE
    ensures Lookup(fs, key) == Scan(fs, 0, key)
       <==> forall i, j :: Occurs(fs, i, key) && Occurs(fs, j, key) ==> i == j
  {
    forall i | 0 <= i < |fs| ensures PadKey(fs[i].name) == PadKey(key) <==> fs[i].name == key {
      PaddingInjective(fs[i].name, key);
    }
    hide PadKey;
    var r, s := Lookup(fs, key), Scan(fs, 0, key);
    assert r.None? <==> s.None?;
    if r.Some? { assert Occurs(fs, r.value, key) && Occurs(fs, s.value, key); }
  }

  /** Both find something or neither does; with a repeated name the index finds the last, the scan the first. */
  lemma {:induction false} IndexFindsLastScanFirst(fs: seq<Field>, key: string, i: nat)
    requires CNamed(fs) && '\0' !in key && |key| < KEY_SIZE && Occurs(fs, i, key)
    ensures Lookup(fs, key).Some? && Scan(fs, 0, key).Some?
    ensures Scan(fs, 0, key).value <= i <= Lookup(fs, key).value
    ensures Occurs(fs, Lookup(fs, key).value, key)
  {
    forall j | 0 <= j < |fs| ensures PadKey(fs[j].name) == PadKey(key) <==> fs[j].name == key {
      PaddingInjective(fs[j].name, key);
    }
    hide PadKey;
  }
}
