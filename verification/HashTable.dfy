/** The bucket chains of hash_list.c as values: one sequence of nodes per bucket. What insertion, deletion, search,
    iteration and the begin cursor mean is stated and proved here; the class in HashMap.dfy maintains the chains
    with real links. */
module HashTable {
  import opened CTypes

  /** *pprev: the pointer that reaches a node, either a bucket's first or another node's next. */
  datatype Back<!V> = Nowhere | Bucket(b: nat) | After(n: HNode<V>)

  class HNode<V> {
    const key: string
    const value: V
    var next: HNode?<V>
    var pprev: Back<V>

    constructor (key: string, value: V)
      ensures this.key == key && this.value == value
    {
      this.key, this.value := key, value;
      next, pprev := null, Nowhere;
    }
  }

  type Chain<V> = seq<HNode<V>>
  type Table<V> = seq<Chain<V>>

  // ---------- hashing ----------

  function ByteSum(key: string): nat {
    if key == [] then 0 else ByteSum(key[..|key| - 1]) + key[|key| - 1] as int % 0x100
  }

  /** default_hash_func. */
  function Hash(key: string, size: nat): (b: nat)
    requires size > 0
    ensures b < size
  {
    ToUint32(ByteSum(key)) % size
  }

  lemma {:induction false} ByteSumAppend(a: string, b: string)
    ensures ByteSum(a + b) == ByteSum(a) + ByteSum(b)
    decreases |b|
  {
    if b == "" {
      assert a + b == a;
    } else {
      assert (a + b)[..|a + b| - 1] == a + b[..|b| - 1];
      ByteSumAppend(a, b[..|b| - 1]);
    }
  }

  lemma {:induction false} WordSum(x: nat, y: nat)
    ensures ToUint32(ToUint32(x) + ToUint32(y)) == ToUint32(x + y)
    ensures ToUint32(x) % 0x1_0000_0000 == ToUint32(x)
  {
  }

  /** Modulo 2^32 the hash of a key is the sum of the hashes of its parts. */
  lemma {:induction false} HashAppend(a: string, b: string)
    ensures Hash(a + b, 0x1_0000_0000) == (Hash(a, 0x1_0000_0000) + Hash(b, 0x1_0000_0000)) % 0x1_0000_0000
  {
    hide ByteSum, ToUint32;
    ByteSumAppend(a, b);
    WordSum(ByteSum(a), ByteSum(b));
    WordSum(ByteSum(a + b), 0);
    WordSum(ByteSum(b), 0);
    AsWord(ToUint32(ByteSum(a)) + ToUint32(ByteSum(b)));
  }

  lemma {:induction false} AsWord(x: nat)
    ensures ToUint32(x) == x % 0x1_0000_0000
  {
  }

  /** A single character is its own sum, and a bucket is the sum modulo the number of buckets. */
  lemma {:induction false} HashOne(c: char)
    ensures Hash([c], 0x1_0000_0000) == c as int % 0x100 && Hash("", 0x1_0000_0000) == 0
  {
    assert [c][..0] == "" && ByteSum([c]) == c as int % 0x100;
  }

  lemma {:induction false} HashInBuckets(key: string, size: nat)
    requires size > 0
    ensures Hash(key, size) == Hash(key, 0x1_0000_0000) % size
  {
    hide ByteSum;
  }

  /** Every position of the key adds its character to the 32-bit sum. */
  lemma {:induction false} EveryPositionSummed(key: string, i: nat)
    requires i < |key|
    ensures Hash(key[..i + 1], 0x1_0000_0000) == (Hash(key[..i], 0x1_0000_0000) + key[i] as int % 0x100) % 0x1_0000_0000
  {
    hide Hash;
    assert key[..i + 1] == key[..i] + [key[i]];
    HashAppend(key[..i], [key[i]]);
    HashOne(key[i]);
  }

  /** default_hash_func, the same sum in the loop's order, wrapping at every addition. */
  method DefaultHash(key: string, size: nat) returns (b: nat)
    requires size > 0
    ensures b == Hash(key, size) == Hash(key, 0x1_0000_0000) % size
    ensures Hash("", 0x1_0000_0000) == 0
    ensures forall i :: 0 <= i < |key| ==>
              Hash(key[..i + 1], 0x1_0000_0000)
              == (Hash(key[..i], 0x1_0000_0000) + key[i] as int % 0x100) % 0x1_0000_0000
  {
    hide Hash, ToUint32;
    HashOne('x');
    HashInBuckets(key, size);
    forall i | 0 <= i < |key|
      ensures Hash(key[..i + 1], 0x1_0000_0000)
           == (Hash(key[..i], 0x1_0000_0000) + key[i] as int % 0x100) % 0x1_0000_0000
    {
      EveryPositionSummed(key, i);
    }
    var sum: uint32 := 0;
    var i := 0;
    assert key[..0] == "";
    while i < |key|
      invariant 0 <= i <= |key| && sum == Hash(key[..i], 0x1_0000_0000)
    {
      EveryPositionSummed(key, i);
      AsWord(sum + key[i] as int % 0x100);
      sum := ToUint32(sum + key[i] as int % 0x100);
      i := i + 1;
    }
    assert key[..i] == key;
    b := sum % size;
  }

  lemma {:induction false} SumUpTo(k: string, i: nat)
    requires i < |k|
    ensures ByteSum(k[..i + 1]) == ByteSum(k[..i]) + k[i] as int % 0x100
  {
    assert k[..i + 1][..i] == k[..i];
  }

  lemma {:induction false} SumOfFive(k: string, i: nat)
    requires i + 5 <= |k|
    ensures ByteSum(k[..i + 5]) == ByteSum(k[..i]) + k[i] as int % 0x100 + k[i + 1] as int % 0x100
                                   + k[i + 2] as int % 0x100 + k[i + 3] as int % 0x100 + k[i + 4] as int % 0x100
  {
    hide ByteSum;
    SumUpTo(k, i);
    SumUpTo(k, i + 1);
    SumUpTo(k, i + 2);
    SumUpTo(k, i + 3);
    SumUpTo(k, i + 4);
  }

  lemma {:induction false} SumOfTen(k: string)
    requires |k| == 10
    ensures ByteSum(k) == k[0] as int % 0x100 + k[1] as int % 0x100 + k[2] as int % 0x100 + k[3] as int % 0x100
                          + k[4] as int % 0x100 + k[5] as int % 0x100 + k[6] as int % 0x100 + k[7] as int % 0x100
                          + k[8] as int % 0x100 + k[9] as int % 0x100
  {
    assert k[..0] == "" && k[..10] == k;
    SumOfFive(k, 0);
    SumOfFive(k, 5);
  }

  lemma {:induction false} HashBySum(k: string, size: nat, sum: nat)
    requires size > 0 && ByteSum(k) == sum < 0x1_0000_0000
    ensures Hash(k, size) == sum % size
  {
    hide ByteSum;
  }

  /** The field name dc_info, filled up with zeros to ten bytes, sums to 722 and goes to bucket 2 of 10. */
  lemma {:induction false} HashOfDcInfo()
    ensures Hash("dc_info\0\0\0", 0x1_0000_0000) == 722 && Hash("dc_info\0\0\0", 10) == 2
  {
    hide ByteSum, Hash;
    var k := "dc_info\0\0\0";
    SumOfTen(k);
    assert k[0] as int == 100 && k[1] as int == 99 && k[2] as int == 95 && k[3] as int == 105 && k[4] as int == 110;
    assert k[5] as int == 102 && k[6] as int == 111 && k[7] as int == 0 && k[8] as int == 0 && k[9] as int == 0;
    HashBySum(k, 0x1_0000_0000, 722);
    HashBySum(k, 10, 722);
  }

  // ---------- chains ----------

  /** Every node is in the bucket its key hashes to. */
  ghost predicate Hashed<V>(t: Table<V>) {
    forall b, i :: 0 <= b < |t| && 0 <= i < |t[b]| ==> Hash(t[b][i].key, |t|) == b
  }

  /** The nodes of a chain that hold the given key, newest first. */
  function WithKey<V>(c: Chain<V>, key: string): Chain<V> {
    if c == [] then [] else (if c[0].key == key then [c[0]] else []) + WithKey(c[1..], key)
  }

  function Without<V>(c: Chain<V>, n: HNode<V>): Chain<V> {
    if c == [] then [] else (if c[0] == n then [] else [c[0]]) + Without(c[1..], n)
  }

  lemma {:induction false} Regroup<T>(a: seq<T>, b: seq<T>, c: seq<T>)
    ensures a + (b + c) == (a + b) + c
  {
  }

  lemma {:induction false} WithKeyAppend<V>(c: Chain<V>, d: Chain<V>, key: string)
    ensures WithKey(c + d, key) == WithKey(c, key) + WithKey(d, key)
    decreases |c|
  {
    if c == [] {
      assert c + d == d;
      assert [] + WithKey(d, key) == WithKey(d, key);
    } else {
      assert (c + d)[1..] == c[1..] + d;
      WithKeyAppend(c[1..], d, key);
      Regroup(if c[0].key == key then [c[0]] else [], WithKey(c[1..], key), WithKey(d, key));
    }
  }

  lemma {:induction false} WithoutAppend<V>(c: Chain<V>, d: Chain<V>, n: HNode<V>)
    ensures Without(c + d, n) == Without(c, n) + Without(d, n)
    decreases |c|
  {
    if c == [] {
      assert c + d == d;
      assert [] + Without(d, n) == Without(d, n);
    } else {
      assert (c + d)[1..] == c[1..] + d;
      WithoutAppend(c[1..], d, n);
      Regroup(if c[0] == n then [] else [c[0]], Without(c[1..], n), Without(d, n));
    }
  }

  lemma {:induction false} WithoutAbsent<V>(c: Chain<V>, n: HNode<V>)
    requires n !in c
    ensures Without(c, n) == c
  {
    if c != [] {
      WithoutAbsent(c[1..], n);
    }
  }

  /** Cutting the k-th node out of a chain is removing that node. */
  lemma {:induction false} CutIsWithout<V>(c: Chain<V>, k: nat)
    requires Distinct(c) && k < |c|
    ensures Without(c, c[k]) == c[..k] + c[k + 1..]
    decreases k
  {
    if k == 0 {
      WithoutAbsent(c[1..], c[0]);
    } else {
      CutIsWithout(c[1..], k - 1);
      assert c[..k] == [c[0]] + c[1..][..k - 1] && c[1..][k..] == c[k + 1..];
    }
  }

  lemma {:induction false} WithKeyWithout<V>(c: Chain<V>, key: string, n: HNode<V>)
    ensures WithKey(Without(c, n), key) == Without(WithKey(c, key), n)
    decreases |c|
  {
    if c != [] {
      WithKeyWithout(c[1..], key, n);
      var x := c[0];
      var head: Chain<V> := if x.key == key then [x] else [];
      WithoutAppend(head, WithKey(c[1..], key), n);
      WithKeyAppend(if x == n then [] else [x], Without(c[1..], n), key);
    }
  }

  /** Different buckets share no node. */
  lemma {:induction false} BucketsDisjoint<V>(t: Table<V>, b: nat, d: nat)
    requires Hashed(t) && b < |t| && d < |t| && b != d
    ensures forall n :: n in t[b] ==> n !in t[d]
  {
    forall i, j | 0 <= i < |t[b]| && 0 <= j < |t[d]| ensures t[b][i] != t[d][j] {
      assert Hash(t[b][i].key, |t|) == b;
    }
  }

  /** What insertion keeps of a table: hashing, no node twice, key sizes, and what is allowed to be a node. */
  ghost predicate Sound<V>(t: Table<V>, keySize: nat) {
    && |t| > 0 && Hashed(t)
    && forall b :: 0 <= b < |t| ==> Distinct(t[b]) && forall i :: 0 <= i < |t[b]| ==> |t[b][i].key| == keySize
  }

  lemma {:induction false} InsertKeepsSound<V>(t: Table<V>, keySize: nat, n: HNode<V>, b: nat)
    requires Sound(t, keySize) && b < |t| && Hash(n.key, |t|) == b && |n.key| == keySize && n !in t[b]
    ensures Sound(t[b := [n] + t[b]], keySize)
  {
    var r: Table<V> := t[b := [n] + t[b]];
    forall d, i | 0 <= d < |r| && 0 <= i < |r[d]| ensures Hash(r[d][i].key, |r|) == d && |r[d][i].key| == keySize {
      if d == b && i > 0 { assert r[d][i] == t[b][i - 1]; }
      assert d != b ==> r[d] == t[d];
    }
    forall d | 0 <= d < |r| ensures Distinct(r[d]) { assert d != b ==> r[d] == t[d]; }
  }

  lemma {:induction false} CutKeepsSound<V>(t: Table<V>, keySize: nat, b: nat, k: nat)
    requires Sound(t, keySize) && b < |t| && k < |t[b]|
    ensures Sound(t[b := t[b][..k] + t[b][k + 1..]], keySize)
  {
    var r: Table<V> := t[b := t[b][..k] + t[b][k + 1..]];
    forall d, i | 0 <= d < |r| && 0 <= i < |r[d]| ensures Hash(r[d][i].key, |r|) == d && |r[d][i].key| == keySize {
      if d == b { assert r[d][i] == t[b][if i < k then i else i + 1]; }
      assert d != b ==> r[d] == t[d];
    }
    forall d | 0 <= d < |r| ensures Distinct(r[d]) { assert d != b ==> r[d] == t[d]; }
  }

  // ---------- operations ----------

  datatype Op<!V> = Insert(n: HNode<V>) | Remove(n: HNode<V>)

  function Step<V>(t: Table<V>, op: Op<V>): (r: Table<V>)
    requires |t| > 0
    ensures |r| == |t|
  {
    var b := Hash(op.n.key, |t|);
    match op
    case Insert(n) => t[b := [n] + t[b]]
    case Remove(n) => t[b := Without(t[b], n)]
  }

  function Run<V>(t: Table<V>, ops: seq<Op<V>>): (r: Table<V>)
    requires |t| > 0
    ensures |r| == |t|
    decreases |ops|
  {
    if ops == [] then t else Run(Step(t, ops[0]), ops[1..])
  }

  /** What a key means: a stack of nodes. Inserting pushes, removing takes one node out, other keys are untouched. */
  function StackStep<V>(s: Chain<V>, key: string, op: Op<V>): Chain<V> {
    if op.n.key != key then s
    else match op
      case Insert(n) => [n] + s
      case Remove(n) => Without(s, n)
  }

  function StackRun<V>(s: Chain<V>, key: string, ops: seq<Op<V>>): Chain<V>
    decreases |ops|
  {
    if ops == [] then s else StackRun(StackStep(s, key, ops[0]), key, ops[1..])
  }

  /** All nodes of the table holding a key. */
  function Stack<V>(t: Table<V>, key: string): Chain<V>
    requires |t| > 0
  {
    WithKey(t[Hash(key, |t|)], key)
  }

  lemma {:induction false} WithKeyElements<V>(c: Chain<V>, key: string)
    ensures forall n :: n in WithKey(c, key) ==> n in c && n.key == key
  {
    if c != [] { WithKeyElements(c[1..], key); }
  }

  lemma {:induction false} StepRefinesStack<V>(t: Table<V>, op: Op<V>, key: string)
    requires |t| > 0
    ensures Stack(Step(t, op), key) == StackStep(Stack(t, key), key, op)
  {
    var b := Hash(op.n.key, |t|);
    if b == Hash(key, |t|) {
      match op {
        case Insert(n) => WithKeyAppend([n], t[b], key);
        case Remove(n) =>
          WithKeyWithout(t[b], key, n);
          if n.key != key {
            WithKeyElements(t[b], key);
            WithoutAbsent(WithKey(t[b], key), n);
          }
      }
    }
  }

  /** Over every run of insertions and removals, each key's chain is that key's stack. */
  lemma {:induction false} RunRefinesStack<V>(t: Table<V>, ops: seq<Op<V>>, key: string)
    requires |t| > 0
    ensures Stack(Run(t, ops), key) == StackRun(Stack(t, key), key, ops)
    decreases |ops|
  {
    if ops != [] {
      StepRefinesStack(t, ops[0], key);
      RunRefinesStack(Step(t, ops[0]), ops[1..], key);
    }
  }

  // ---------- cursors ----------

  datatype Cursor = End | Pos(b: nat, k: nat)

  predicate Live<V>(t: Table<V>, c: Cursor) {
    c.Pos? ==> c.b < |t| && c.k < |t[c.b]|
  }

  /** First node at or behind bucket b. */
  function FirstFrom<V>(t: Table<V>, b: nat): (c: Cursor)
    ensures Live(t, c) && (c.Pos? ==> c.k == 0 && b <= c.b)
    decreases |t| - b
  {
    if b >= |t| then End else if t[b] != [] then Pos(b, 0) else FirstFrom(t, b + 1)
  }

  function First<V>(t: Table<V>): Cursor { FirstFrom(t, 0) }

  function Next<V>(t: Table<V>, c: Cursor): (d: Cursor)
    requires c.Pos? && Live(t, c)
    ensures Live(t, d)
  {
    if c.k + 1 < |t[c.b]| then Pos(c.b, c.k + 1) else FirstFrom(t, c.b + 1)
  }

  /** The begin cursor after an insertion, as the code updates it. */
  function BeginAfterInsert(begin: Cursor, b: nat): Cursor {
    if begin == End || b <= begin.b then Pos(b, 0) else begin
  }

  /** The begin cursor after a deletion: only deleting the begin node moves it, to the next node, whose index drops
      by one when it is in the same bucket. */
  function BeginAfterDelete<V>(t: Table<V>, begin: Cursor, c: Cursor): Cursor
    requires c.Pos? && Live(t, c)
  {
    if c != begin then begin
    else if c.k + 1 < |t[c.b]| then c
    else FirstFrom(t, c.b + 1)
  }

  lemma {:induction false} FirstFromUpdated<V>(t: Table<V>, b: nat, c: Chain<V>, from: nat)
    requires b < |t| && c != []
    ensures FirstFrom(t[b := c], from) ==
            if from > b then FirstFrom(t, from)
            else if FirstFrom(t, from) == End || b <= FirstFrom(t, from).b then Pos(b, 0)
            else FirstFrom(t, from)
    decreases |t| - from
  {
    if from < |t| { FirstFromUpdated(t, b, c, from + 1); }
  }

  lemma {:induction false} FirstFromEmptied<V>(t: Table<V>, b: nat, from: nat)
    requires b < |t|
    ensures FirstFrom(t[b := []], from) ==
            if FirstFrom(t, from).Pos? && FirstFrom(t, from).b == b then FirstFrom(t, b + 1) else FirstFrom(t, from)
    decreases |t| - from
  {
    if from < |t| {
      FirstFromEmptied(t, b, from + 1);
      if from == b { FirstFromBehind(t, b, b + 1); }
    }
  }

  lemma {:induction false} FirstFromBehind<V>(t: Table<V>, b: nat, from: nat)
    requires b < |t| && b < from
    ensures FirstFrom(t[b := []], from) == FirstFrom(t, from)
    decreases |t| - from
  {
    if from < |t| { FirstFromBehind(t, b, from + 1); }
  }

  /** Kept incrementally, begin is always the first node of the lowest non-empty bucket, or the end. */
  lemma {:induction false} BeginStaysFirstOnInsert<V>(t: Table<V>, n: HNode<V>, b: nat)
    requires b < |t|
    ensures First(t[b := [n] + t[b]]) == BeginAfterInsert(First(t), b)
  {
    FirstFromUpdated(t, b, [n] + t[b], 0);
  }

  lemma {:induction false} BeginStaysFirstOnDelete<V>(t: Table<V>, c: Cursor)
    requires c.Pos? && Live(t, c)
    ensures First(t[c.b := t[c.b][..c.k] + t[c.b][c.k + 1..]]) == BeginAfterDelete(t, First(t), c)
  {
    var rest := t[c.b][..c.k] + t[c.b][c.k + 1..];
    if rest == [] {
      FirstFromEmptied(t, c.b, 0);
    } else {
      FirstFromUpdated(t, c.b, rest, 0);
      FirstNotBehind(t, c.b, 0);
    }
  }

  lemma {:induction false} FirstNotBehind<V>(t: Table<V>, b: nat, from: nat)
    requires from <= b < |t| && t[b] != []
    ensures FirstFrom(t, from).Pos? && FirstFrom(t, from).b <= b
    decreases b - from
  {
    if from < b { FirstNotBehind(t, b, from + 1); }
  }

  /** The first position is in the lowest non-empty bucket. */
  lemma {:induction false} LowestFirst<V>(t: Table<V>, from: nat)
    ensures match FirstFrom(t, from)
            case End => forall b :: from <= b < |t| ==> t[b] == []
            case Pos(b, k) => k == 0 && from <= b < |t| && t[b] != [] && forall d :: from <= d < b ==> t[d] == []
    decreases |t| - from
  {
    if from < |t| { LowestFirst(t, from + 1); }
  }

  // ---------- iteration ----------

  /** All nodes, bucket by bucket from bucket b on. */
  function FlattenFrom<V>(t: Table<V>, b: nat): Chain<V>
    decreases |t| - b
  {
    if b >= |t| then [] else t[b] + FlattenFrom(t, b + 1)
  }

  /** c names every node of every bucket, and none of them twice. */
  ghost predicate EachOnce<V>(t: Table<V>, c: Chain<V>) {
    && Distinct(c)
    && (forall b, i :: 0 <= b < |t| && 0 <= i < |t[b]| ==> t[b][i] in c)
    && (forall i :: 0 <= i < |c| ==> Somewhere(t, c[i], 0))
  }

  ghost predicate Somewhere<V>(t: Table<V>, n: HNode<V>, from: nat) { exists d :: from <= d < |t| && n in t[d] }

  lemma {:induction false} FlattenMember<V>(t: Table<V>, from: nat, n: HNode<V>)
    ensures n in FlattenFrom(t, from) <==> Somewhere(t, n, from)
    decreases |t| - from
  {
    if from < |t| {
      FlattenMember(t, from + 1, n);
      if Somewhere(t, n, from) {
        var d :| from <= d < |t| && n in t[d];
        if d > from { assert Somewhere(t, n, from + 1); }
      }
    }
  }

  lemma {:induction false} FlattenDistinct<V>(t: Table<V>, keySize: nat, from: nat)
    requires Sound(t, keySize)
    ensures Distinct(FlattenFrom(t, from))
    decreases |t| - from
  {
    if from < |t| {
      FlattenDistinct(t, keySize, from + 1);
      forall n | n in t[from] ensures n !in FlattenFrom(t, from + 1) {
        FlattenMember(t, from + 1, n);
        forall d | from + 1 <= d < |t| ensures n !in t[d] { BucketsDisjoint(t, from, d); }
      }
      assert Distinct(t[from]);
      hide Sound;
      DistinctAppend(t[from], FlattenFrom(t, from + 1));
    }
  }

  lemma {:induction false} DistinctAppend<T>(a: seq<T>, b: seq<T>)
    requires Distinct(a) && Distinct(b) && forall x :: x in a ==> x !in b
    ensures Distinct(a + b)
  {
    var c := a + b;
    forall i, j | 0 <= i < j < |c| ensures c[i] != c[j] {
      if i < |a| <= j { assert c[i] in a && c[j] in b; }
    }
  }

  /** The iteration order of a sound table is a list of all its nodes without repetition. */
  lemma {:induction false} FlattenIsEachOnce<V>(t: Table<V>, keySize: nat)
    requires Sound(t, keySize)
    ensures EachOnce(t, FlattenFrom(t, 0))
  {
    var c := FlattenFrom(t, 0);
    FlattenDistinct(t, keySize, 0);
    hide Sound, FlattenFrom;
    forall b, i | 0 <= b < |t| && 0 <= i < |t[b]| ensures t[b][i] in c { FlattenMember(t, 0, t[b][i]); }
    forall i | 0 <= i < |c| ensures Somewhere(t, c[i], 0) { FlattenMember(t, 0, c[i]); }
  }

  /** Iteration goes through the buckets in ascending order. */
  lemma {:induction false} FlattenInOrder<V>(t: Table<V>, from: nat, i: nat, j: nat)
    requires |t| > 0 && Hashed(t) && i < j < |FlattenFrom(t, from)|
    ensures Hash(FlattenFrom(t, from)[i].key, |t|) <= Hash(FlattenFrom(t, from)[j].key, |t|)
    decreases |t| - from
  {
    hide Hash;
    var c, rest := t[from], FlattenFrom(t, from + 1);
    if i >= |c| {
      FlattenInOrder(t, from + 1, i - |c|, j - |c|);
    } else if j >= |c| {
      FlattenMember(t, from + 1, rest[j - |c|]);
      var d :| from + 1 <= d < |t| && rest[j - |c|] in t[d];
      assert Hash(c[i].key, |t|) == from;
    }
  }

  /** The nodes not yet visited when an iteration stands at c. */
  function Rest<V>(t: Table<V>, c: Cursor): Chain<V>
    requires Live(t, c)
  {
    match c
    case End => []
    case Pos(b, k) => t[b][k..] + FlattenFrom(t, b + 1)
  }

  lemma {:induction false} RestOfFirst<V>(t: Table<V>, b: nat)
    ensures Rest(t, FirstFrom(t, b)) == FlattenFrom(t, b)
    decreases |t| - b
  {
    if b < |t| {
      if t[b] == [] {
        RestOfFirst(t, b + 1);
        assert FlattenFrom(t, b) == FlattenFrom(t, b + 1);
      } else {
        assert t[b][0..] == t[b];
      }
    }
  }

  /** Moving on leaves exactly the current node behind, so an iteration visits every node once, in bucket order. */
  lemma {:induction false} RestOfNext<V>(t: Table<V>, c: Cursor)
    requires c.Pos? && Live(t, c)
    ensures Rest(t, c) == [t[c.b][c.k]] + Rest(t, Next(t, c))
  {
    var x, back, others := t[c.b][c.k], t[c.b][c.k + 1..], FlattenFrom(t, c.b + 1);
    assert t[c.b][c.k..] == [x] + back;
    Regroup([x], back, others);
    if c.k + 1 >= |t[c.b]| {
      RestOfFirst(t, c.b + 1);
      assert back + others == others;
    }
  }

  /** The node a cursor stands on. */
  function NodeAt<V>(t: Table<V>, c: Cursor): HNode?<V>
    requires Live(t, c)
  {
    match c
    case End => null
    case Pos(b, k) => t[b][k]
  }

  /** Deleting at begin takes exactly the first node off the iteration order. */
  lemma {:induction false} FlattenWithoutFirst<V>(t: Table<V>, from: nat)
    requires FirstFrom(t, from).Pos?
    ensures var b := FirstFrom(t, from).b;
            FlattenFrom(t, from) == [t[b][0]] + FlattenFrom(t[b := t[b][1..]], from)
    decreases |t| - from
  {
    if t[from] == [] {
      FlattenWithoutFirst(t, from + 1);
    } else {
      FlattenBehind(t, from, t[from][1..], from + 1);
      assert t[from] == [t[from][0]] + t[from][1..];
    }
  }

  lemma {:induction false} FlattenBehind<V>(t: Table<V>, b: nat, c: Chain<V>, from: nat)
    requires b < |t| && b < from
    ensures FlattenFrom(t[b := c], from) == FlattenFrom(t, from)
    decreases |t| - from
  {
    if from < |t| { FlattenBehind(t, b, c, from + 1); }
  }

  /** No first node means no node at all. */
  lemma {:induction false} NoFirstNoNodes<V>(t: Table<V>, from: nat)
    requires FirstFrom(t, from) == End
    ensures FlattenFrom(t, from) == [] && forall b :: from <= b < |t| ==> t[b] == []
    decreases |t| - from
  {
    if from < |t| { NoFirstNoNodes(t, from + 1); }
  }
}
