/** The chained hash map of hash_list.c, over the hlist primitives of list.h. */
module HashMap {
  import opened CTypes
  import opened HashTable

  /** Bucket b starts at first, runs through c, and every back pointer names the pointer that reaches its node. */
  ghost predicate Linked<V>(first: HNode?<V>, b: nat, c: Chain<V>)
    reads c
  {
    && (if c == [] then first == null else first == c[0])
    && forall i :: 0 <= i < |c| ==> LinkedAt(b, c, i)
  }

  ghost predicate LinkedAt<V>(b: nat, c: Chain<V>, i: nat)
    requires i < |c|
    reads c[i]
  {
    && c[i].next == (if i + 1 < |c| then c[i + 1] else null)
    && c[i].pprev == (if i == 0 then Bucket(b) else After(c[i - 1]))
  }

  class Map<V> {
    const keySize: nat
    var hlist: array<HNode?<V>>
    var beginNode: HNode?<V>
    var beginBucket: nat
    ghost var chains: Table<V>
    ghost var Repr: set<object>

    /** Every node of table t belongs to this map. */
    ghost predicate Owns(t: Table<V>)
      reads this
    {
      forall b, i :: 0 <= b < |t| && 0 <= i < |t[b]| ==> t[b][i] in Repr
    }

    /** Table t is laid out in memory. */
    ghost predicate InMemory(t: Table<V>)
      requires Owns(t)
      reads this, hlist, Repr
    {
      hlist.Length == |t| && forall b :: 0 <= b < |t| ==> Linked(hlist[b], b, t[b])
    }

    ghost predicate Chained()
      reads this, Repr
    {
      hlist in Repr && Sound(chains, keySize) && Owns(chains) && InMemory(chains)
    }

    /** The cached begin position names the node of cursor c. */
    ghost predicate BeginAt(c: Cursor)
      requires Live(chains, c)
      reads this
    {
      match c
      case End => beginNode == null
      case Pos(b, k) => beginNode == chains[b][k] && beginBucket == b
    }

    ghost predicate Valid()
      reads this, Repr
      ensures Valid() ==> this in Repr
    {
      this in Repr && Chained() && BeginAt(First(chains))
    }

    /** A bucket in memory: its first pointer, the next and back pointers of its chain, and keys that hash to it. */
    lemma {:induction false} BucketInMemory(b: nat)
      requires Valid() && b < |chains|
      ensures hlist.Length == |chains| && hlist[b] == if chains[b] == [] then null else chains[b][0]
      ensures forall i :: 0 <= i < |chains[b]| ==>
                && chains[b][i].next == (if i + 1 < |chains[b]| then chains[b][i + 1] else null)
                && chains[b][i].pprev == (if i == 0 then Bucket(b) else After(chains[b][i - 1]))
                && Hash(chains[b][i].key, |chains|) == b && |chains[b][i].key| == keySize
    {
      hide Hash, FirstFrom;
      assert Linked(hlist[b], b, chains[b]);
      forall i | 0 <= i < |chains[b]| ensures LinkedAt(b, chains[b], i) && Hash(chains[b][i].key, |chains|) == b {}
    }

    /** The begin cursor in memory: the first node of the lowest non-empty bucket, null when all are empty. */
    lemma {:induction false} BeginInMemory()
      requires Valid()
      ensures beginNode == null ==> forall b :: 0 <= b < |chains| ==> chains[b] == []
      ensures beginNode != null ==>
                && beginBucket < |chains| && chains[beginBucket] != [] && beginNode == chains[beginBucket][0]
                && forall b :: 0 <= b < beginBucket ==> chains[b] == []
    {
      hide Sound, Linked, FirstFrom;
      LowestFirst(chains, 0);
    }

    /** hash_map_create and hash_map_init. */
    constructor (keySize: nat, bucketSize: uint32)
      requires bucketSize > 0
      ensures Valid() && fresh(Repr)
      ensures this.keySize == keySize && |chains| == bucketSize && forall b :: 0 <= b < |chains| ==> chains[b] == []
    {
      this.keySize := keySize;
      hlist := new HNode?<V>[bucketSize](_ => null);
      beginNode, beginBucket := null, 0;
      chains := seq(bucketSize, _ => []);
      new;
      Repr := {this, hlist};
      EmptyFirst(chains, 0);
    }

    static lemma {:induction false} EmptyFirst(t: Table<V>, b: nat)
      requires forall i :: 0 <= i < |t| ==> t[i] == []
      ensures FirstFrom(t, b) == End
      decreases |t| - b
    {
      if b < |t| { EmptyFirst(t, b + 1); }
    }

    /** hlist_add_head on a bucket whose chain is c. */
    method AddHead(n: HNode<V>, b: nat, ghost c: Chain<V>)
      requires b < hlist.Length && Linked(hlist[b], b, c) && Distinct(c) && n !in c
      modifies hlist, n, c
      ensures hlist[..] == old(hlist[..])[b := n]
      ensures Linked(n, b, [n] + c)
    {
      var first := hlist[b];
      assert forall i :: 0 <= i < |c| ==> LinkedAt(b, c, i);
      n.next := first;
      if first != null { first.pprev := After(n); }
      hlist[b] := n;
      n.pprev := Bucket(b);
      forall i | 0 <= i < |c| + 1 ensures LinkedAt(b, [n] + c, i) {
        if i > 0 { assert old(LinkedAt(b, c, i - 1)); }
      }
    }

    /** The link changes of an insertion, seen from the whole table. */
    method LinkHead(n: HNode<V>, b: nat)
      requires this in Repr && Chained() && b < |chains| && n !in Repr
      modifies hlist, n, chains[b]
      ensures hlist.Length == |chains| && hlist[b] == n
      ensures var t := chains[b := [n] + chains[b]]; forall d :: 0 <= d < |t| ==> Linked(hlist[d], d, t[d])
    {
      ghost var t := chains[b := [n] + chains[b]];
      assert Linked(hlist[b], b, chains[b]);
      AddHead(n, b, chains[b]);
      forall d | 0 <= d < |t| ensures Linked(hlist[d], d, t[d]) {
        if d != b {
          BucketsDisjoint(chains, d, b);
          assert old(Linked(hlist[d], d, chains[d]));
        }
      }
    }

    /** The rest of hash_map_insert: the begin cursor. */
    method HeadInserted(n: HNode<V>, b: nat, ghost t: Table<V>)
      requires this in Repr && hlist in Repr && Owns(chains) && BeginAt(First(chains)) && b < |chains|
      requires t == chains[b := [n] + chains[b]] && Sound(t, keySize) && First(t) == BeginAfterInsert(First(chains), b)
      requires hlist.Length == |t| && hlist[b] == n && forall d :: 0 <= d < |t| ==> Linked(hlist[d], d, t[d])
      modifies this
      ensures Valid() && chains == t && hlist == old(hlist) && Repr == old(Repr) + {n}
    {
      hide Linked, Sound, FirstFrom;
      assert forall d, i :: 0 <= d < |t| && 0 <= i < |t[d]| ==> t[d][i] == n || t[d][i] in Repr;
      if beginNode == null || b <= beginBucket {
        beginNode, beginBucket := hlist[b], b;
      }
      assert beginNode == n ==> t[b][0] == n;
      chains := t;
      Repr := Repr + {n};
    }

    /** hash_map_insert: the new node becomes the head of its bucket. */
    method Insert(key: string, value: V) returns (n: HNode<V>)
      requires Valid() && |key| == keySize
      modifies Repr
      ensures Valid() && fresh(n) && n.key == key && n.value == value
      ensures chains == Step(old(chains), HashTable.Insert(n))
      ensures var b := Hash(key, |old(chains)|); chains == old(chains)[b := [n] + old(chains)[b]]
      ensures hlist == old(hlist) && Repr == old(Repr) + {n}
    {
      n := new HNode(key, value);
      var b := DefaultHash(key, hlist.Length);
      ghost var t := chains[b := [n] + chains[b]];
      InsertKeepsSound(chains, keySize, n, b);
      BeginStaysFirstOnInsert(chains, n, b);
      hide Linked, Sound, FirstFrom;
      LinkHead(n, b);
      HeadInserted(n, b, t);
    }

    /** hash_map_search: the newest node with the key, or null. */
    method Search(key: string) returns (node: HNode?<V>, bucket: nat)
      requires Valid()
      ensures bucket == Hash(key, |chains|)
      ensures node == if Stack(chains, key) == [] then null else Stack(chains, key)[0]
      ensures node == null ==>
                bucket < |chains| && forall i :: 0 <= i < |chains[bucket]| ==> chains[bucket][i].key != key
      ensures node != null ==> node.key == key && bucket < |chains| && FirstMatch(chains[bucket], node)
    {
      bucket := DefaultHash(key, hlist.Length);
      ghost var c, k := chains[bucket], 0;
      assert Linked(hlist[bucket], bucket, c);
      assert c[0..] == c;
      node := hlist[bucket];
      while node != null
        invariant k <= |c| && node == if k < |c| then c[k] else null
        invariant WithKey(c, key) == WithKey(c[k..], key)
        invariant forall i :: 0 <= i < k ==> c[i].key != key
        decreases |c| - k
      {
        assert c[k..][1..] == c[k + 1..];
        if node.key == key { return; }
        assert LinkedAt(bucket, c, k);
        node, k := node.next, k + 1;
      }
    }

    /** n is in the chain, and no node in front of it has its key. */
    ghost predicate FirstMatch(c: Chain<V>, n: HNode<V>) {
      exists k :: 0 <= k < |c| && c[k] == n && forall i :: 0 <= i < k ==> c[i].key != n.key
    }

    /** Node and bucket are those of a live cursor. */
    ghost predicate Stands(node: HNode?<V>, bucket: nat, c: Cursor)
      reads this
    {
      Live(chains, c) && node == NodeAt(chains, c) && (c.Pos? ==> bucket == c.b)
    }

    /** hash_map_pos_next. */
    method PosNext(node: HNode<V>, bucket: nat, ghost k: nat) returns (next: HNode?<V>, b: nat)
      requires Valid() && Stands(node, bucket, Pos(bucket, k))
      ensures Stands(next, b, Next(chains, Pos(bucket, k)))
    {
      assert Linked(hlist[bucket], bucket, chains[bucket]) && LinkedAt(bucket, chains[bucket], k);
      if node.next != null {
        return node.next, bucket;
      }
      b := bucket;
      if bucket < hlist.Length - 1 {
        b := b + 1;
        while b < hlist.Length
          invariant bucket < b <= hlist.Length
          invariant FirstFrom(chains, bucket + 1) == FirstFrom(chains, b)
        {
          assert Linked(hlist[b], b, chains[b]);
          if hlist[b] != null {
            return hlist[b], b;
          }
          b := b + 1;
        }
        b := hlist.Length - 1;
      }
      next := null;
    }

    /** hlist_del on the k-th node of a chain c: the pointer that reaches it is found through pprev. */
    method UnlinkNode(n: HNode<V>, b: nat, ghost c: Chain<V>, ghost k: nat)
      requires b < hlist.Length && Linked(hlist[b], b, c) && Distinct(c) && k < |c| && n == c[k]
      modifies hlist, c
      ensures n.next == null && n.pprev == Nowhere
      ensures hlist[..] == old(hlist[..])[b := hlist[b]]
      ensures Linked(hlist[b], b, c[..k] + c[k + 1..])
    {
      assert forall i :: 0 <= i < |c| ==> LinkedAt(b, c, i);
      ghost var d := c[..k] + c[k + 1..];
      assert LinkedAt(b, c, k) && (k + 1 < |c| ==> LinkedAt(b, c, k + 1));
      var next, pprev := n.next, n.pprev;
      match pprev {
        case Bucket(h) => hlist[h] := next;
        case After(p) => p.next := next;
        case Nowhere => assert false;
      }
      if next != null { next.pprev := pprev; }
      n.next, n.pprev := null, Nowhere;
      forall i | 0 <= i < |d| ensures LinkedAt(b, d, i) {
        assert old(LinkedAt(b, c, if i < k then i else i + 1));
      }
    }

    /** The link changes of a deletion, seen from the whole table. */
    method UnlinkFrom(n: HNode<V>, b: nat, ghost k: nat)
      requires this in Repr && Chained() && b < |chains| && k < |chains[b]| && n == chains[b][k]
      modifies hlist, chains[b]
      ensures hlist.Length == |chains| && n.next == null && n.pprev == Nowhere
      ensures var t := chains[b := chains[b][..k] + chains[b][k + 1..]];
              forall d :: 0 <= d < |t| ==> Linked(hlist[d], d, t[d])
    {
      ghost var t := chains[b := chains[b][..k] + chains[b][k + 1..]];
      assert Linked(hlist[b], b, chains[b]);
      UnlinkNode(n, b, chains[b], k);
      forall d | 0 <= d < |t| ensures Linked(hlist[d], d, t[d]) {
        if d != b {
          BucketsDisjoint(chains, d, b);
          assert old(Linked(hlist[d], d, chains[d]));
        }
      }
    }

    /** The begin cursor after a deletion, taken before the node is unlinked. */
    method MoveBegin(node: HNode<V>, bucket: nat, ghost k: nat)
      requires Valid() && Stands(node, bucket, Pos(bucket, k))
      modifies this`beginNode, this`beginBucket
      ensures var t := chains[bucket := chains[bucket][..k] + chains[bucket][k + 1..]];
              BeginIn(t, BeginAfterDelete(chains, First(chains), Pos(bucket, k)))
    {
      ghost var c := chains[bucket];
      ghost var t := chains[bucket := c[..k] + c[k + 1..]];
      BeginNodeIsBegin(bucket, k);
      if node == beginNode {
        var next, b := PosNext(node, bucket, k);
        beginNode, beginBucket := next, b;
      }
    }

    /** As BeginAt, for a table other than the current one. */
    ghost predicate BeginIn(t: Table<V>, c: Cursor)
      reads this
    {
      Live(t, c) && beginNode == NodeAt(t, c) && (c.Pos? ==> beginBucket == c.b)
    }

    /** A node of the table is the begin node exactly when it stands at the begin cursor. */
    lemma {:induction false} BeginNodeIsBegin(bucket: nat, k: nat)
      requires Valid() && bucket < |chains| && k < |chains[bucket]|
      ensures chains[bucket][k] == beginNode <==> First(chains) == Pos(bucket, k)
    {
      var c := First(chains);
      if c.Pos? && c.b != bucket { BucketsDisjoint(chains, bucket, c.b); }
    }

    /** Taking a deletion's new table over, once links and begin cursor are in place. */
    ghost method Adopt(t: Table<V>, n: HNode<V>)
      requires this in Repr && hlist in Repr
      requires Sound(t, keySize) && BeginIn(t, First(t))
      requires forall d, i :: 0 <= d < |t| && 0 <= i < |t[d]| ==> t[d][i] in Repr && t[d][i] != n
      requires hlist.Length == |t| && forall d :: 0 <= d < |t| ==> Linked(hlist[d], d, t[d])
      modifies this`chains, this`Repr
      ensures Valid() && chains == t && Repr == old(Repr) - {n}
    {
      hide Linked, Sound, FirstFrom;
      chains := t;
      Repr := Repr - {n};
    }

    /** hash_map_delete at a live position; the node returned is the one handed back to the allocator. */
    method Delete(node: HNode<V>, bucket: nat, ghost k: nat) returns (released: HNode<V>)
      requires Valid() && Stands(node, bucket, Pos(bucket, k))
      modifies Repr
      ensures Valid() && released == node && hlist == old(hlist) && Repr == old(Repr) - {node}
      ensures chains == old(chains)[bucket := old(chains)[bucket][..k] + old(chains)[bucket][k + 1..]]
      ensures chains == Step(old(chains), HashTable.Remove(node))
    {
      ghost var t := chains[bucket := chains[bucket][..k] + chains[bucket][k + 1..]];
      CutOut(chains, keySize, bucket, k);
      hide Linked, Sound, FirstFrom, Without;
      assert node in Repr;
      MoveBegin(node, bucket, k);
      UnlinkFrom(node, bucket, k);
      Adopt(t, node);
      released := node;
    }

    /** hash_map_for_each: every node once, bucket by bucket. */
    method ForEach() returns (visited: Chain<V>)
      requires Valid()
      ensures visited == FlattenFrom(chains, 0) && EachOnce(chains, visited)
    {
      assert Rest(chains, End) == [];
      RestOfFirst(chains, 0);
      FlattenIsEachOnce(chains, keySize);
      hide Linked, Sound, FlattenFrom, Rest, Next, FirstFrom, EachOnce;
      visited := [];
      var node, bucket := beginNode, beginBucket;
      ghost var c := First(chains);
      assert [] + Rest(chains, c) == Rest(chains, c);
      while node != null
        invariant Stands(node, bucket, c)
        invariant FlattenFrom(chains, 0) == visited + Rest(chains, c)
        decreases |Rest(chains, c)|
      {
        RestOfNext(chains, c);
        Regroup(visited, [node], Rest(chains, Next(chains, c)));
        visited := visited + [node];
        node, bucket := PosNext(node, bucket, c.k);
        c := Next(chains, c);
      }
    }

    /** hash_map_destroy: delete at begin until begin is the end; every node is released once, in iteration order,
        and every bucket is empty before the bucket array goes. */
    method Destroy() returns (released: Chain<V>, bucketsReleased: bool)
      requires Valid()
      modifies Repr
      ensures released == FlattenFrom(old(chains), 0) && EachOnce(old(chains), released) && bucketsReleased
      ensures hlist == old(hlist) && forall b :: 0 <= b < hlist.Length ==> hlist[b] == null
    {
      hide Sound, FlattenFrom, EachOnce;
      FlattenIsEachOnce(chains, keySize);
      released := [];
      while beginNode != null
        invariant Valid() && hlist == old(hlist) && Repr <= old(Repr)
        invariant FlattenFrom(old(chains), 0) == released + FlattenFrom(chains, 0)
        decreases |FlattenFrom(chains, 0)|
      {
        ghost var t, b := chains, First(chains).b;
        FlattenWithoutFirst(t, 0);
        assert t[b][..0] + t[b][1..] == t[b][1..];
        var gone := Delete(beginNode, beginBucket, 0);
        released := released + [gone];
      }
      NoFirstNoNodes(chains, 0);
      forall b | 0 <= b < hlist.Length ensures hlist[b] == null { assert Linked(hlist[b], b, chains[b]); }
      bucketsReleased := beginNode == null;
    }
  }

  /** The table after a deletion: sound, its begin where the code puts it, and the node gone from it. */
  lemma {:induction false} CutOut<V>(t: Table<V>, keySize: nat, b: nat, k: nat)
    requires Sound(t, keySize) && b < |t| && k < |t[b]|
    ensures var r: Table<V> := t[b := t[b][..k] + t[b][k + 1..]];
            && Sound(r, keySize) && First(r) == BeginAfterDelete(t, First(t), Pos(b, k))
            && r == Step(t, HashTable.Remove(t[b][k]))
            && forall d, i :: 0 <= d < |r| && 0 <= i < |r[d]| ==> r[d][i] in t[d] && r[d][i] != t[b][k]
  {
    CutKeepsSound(t, keySize, b, k);
    BeginStaysFirstOnDelete(t, Pos(b, k));
    CutIsWithout(t[b], k);
    var r: Table<V> := t[b := t[b][..k] + t[b][k + 1..]];
    forall d, i | 0 <= d < |r| && 0 <= i < |r[d]| ensures r[d][i] in t[d] && r[d][i] != t[b][k] {
      if d == b {
        assert r[d][i] == t[b][if i < k then i else i + 1];
      } else {
        BucketsDisjoint(t, d, b);
      }
    }
  }
}
