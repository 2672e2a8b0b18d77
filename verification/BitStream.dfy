/** A byte buffer as one stream of bits, most significant bit of byte 0 first. This is the reference the
    codec's loops are proved against: a field is a run of stream positions, its value the number those
    positions spell, and writing it changes the bits of the run and no others. */
module BitStream {
  import opened CTypes
  import opened Bits

  /** The bit at stream position s; positions past the end read as clear. */
  predicate StreamBit(dp: seq<uint8>, s: nat) {
    s < 8 * |dp| && Bit(dp[s / 8], 7 - s % 8)
  }

  /** Stream position s carries a set bit of the n-bit number v laid over positions start..start+n-1. */
  predicate Spells(start: nat, n: nat, v: nat, s: nat) {
    start <= s < start + n && Bit(v, start + n - 1 - s)
  }

  /** The number spelled by positions start..start+n-1. */
  function ReadStream(dp: seq<uint8>, start: nat, n: nat): nat {
    if n == 0 then 0 else 2 * ReadStream(dp, start, n - 1) + if StreamBit(dp, start + n - 1) then 1 else 0
  }

  /** The buffer with stream position s made equal to b. */
  function SetStreamBit(dp: seq<uint8>, s: nat, b: bool): (r: seq<uint8>)
    ensures |r| == |dp|
  {
    if s < 8 * |dp| then
      assert Pow2(8) == 256;
      WithBitBound(dp[s / 8], 7 - s % 8, b, 8);
      dp[s / 8 := WithBit(dp[s / 8], 7 - s % 8, b)]
    else dp
  }

  /** Or the low n bits of v into positions start..start+n-1. */
  function OrStream(dp: seq<uint8>, start: nat, n: nat, v: nat): (r: seq<uint8>)
    ensures |r| == |dp|
    decreases n
  {
    if n == 0 then dp
    else OrStream(if v % 2 == 1 then SetStreamBit(dp, start + n - 1, true) else dp, start, n - 1, v / 2)
  }

  /** Overwrite positions start..start+n-1 with the low n bits of v. */
  function SetStream(dp: seq<uint8>, start: nat, n: nat, v: nat): (r: seq<uint8>)
    ensures |r| == |dp|
    decreases n
  {
    if n == 0 then dp
    else SetStream(SetStreamBit(dp, start + n - 1, v % 2 == 1), start, n - 1, v / 2)
  }

  lemma {:induction false} BitAfterSet(dp: seq<uint8>, s: nat, b: bool, t: nat)
    ensures StreamBit(SetStreamBit(dp, s, b), t) <==> if t == s && s < 8 * |dp| then b else StreamBit(dp, t)
  {
    if s < 8 * |dp| {
      var k, i := s / 8, 7 - s % 8;
      if t / 8 == k {
        BitWithBit(dp[k], i, b, 7 - t % 8);
        assert t == s <==> 7 - t % 8 == i;
      }
    }
  }

  lemma {:induction false} OrStreamBit(dp: seq<uint8>, start: nat, n: nat, v: nat, s: nat)
    ensures StreamBit(OrStream(dp, start, n, v), s) <==> StreamBit(dp, s) || (s < 8 * |dp| && Spells(start, n, v, s))
    decreases n
  {
    if n > 0 {
      var dq := if v % 2 == 1 then SetStreamBit(dp, start + n - 1, true) else dp;
      OrStreamBit(dq, start, n - 1, v / 2, s);
      BitAfterSet(dp, start + n - 1, true, s);
    }
  }

  lemma {:induction false} SetStreamBits(dp: seq<uint8>, start: nat, n: nat, v: nat, s: nat)
    ensures StreamBit(SetStream(dp, start, n, v), s)
       <==> s < 8 * |dp| && if start <= s < start + n then Spells(start, n, v, s) else StreamBit(dp, s)
    decreases n
  {
    if n > 0 {
      SetStreamBits(SetStreamBit(dp, start + n - 1, v % 2 == 1), start, n - 1, v / 2, s);
      BitAfterSet(dp, start + n - 1, v % 2 == 1, s);
    }
  }

  lemma {:induction false} ReadStreamBit(dp: seq<uint8>, start: nat, n: nat, j: nat)
    ensures Bit(ReadStream(dp, start, n), j) <==> j < n && StreamBit(dp, start + n - 1 - j)
    decreases n
  {
    if n == 0 {
      BitZero(j);
    } else if j > 0 {
      ReadStreamBit(dp, start, n - 1, j - 1);
    }
  }

  lemma {:induction false} ReadStreamBound(dp: seq<uint8>, start: nat, n: nat)
    ensures ReadStream(dp, start, n) < Pow2(n)
  {
    if n > 0 { ReadStreamBound(dp, start, n - 1); }
  }

  /** Two buffers hold the same bits over positions lo..hi-1. */
  ghost predicate SameStretch(dp: seq<uint8>, dq: seq<uint8>, lo: nat, hi: nat) {
    forall s: nat :: lo <= s < hi ==> (StreamBit(dp, s) <==> StreamBit(dq, s))
  }

  /** The bits determine the bytes. */
  lemma {:induction false} SameStretchSameByte(dp: seq<uint8>, dq: seq<uint8>, k: nat)
    requires k < |dp| && k < |dq| && SameStretch(dp, dq, 8 * k, 8 * k + 8)
    ensures dp[k] == dq[k]
  {
    forall i: nat ensures Bit(dp[k], i) <==> Bit(dq[k], i) {
      if i < 8 {
        var s := 8 * k + 7 - i;
        assert s / 8 == k && 7 - s % 8 == i;
        assert StreamBit(dp, s) <==> StreamBit(dq, s);
      } else {
        assert Pow2(8) == 256;
        SmallHasNoHighBits(dp[k], 8, i);
        SmallHasNoHighBits(dq[k], 8, i);
      }
    }
    SameBits(dp[k], dq[k]);
  }

  lemma {:induction false} SameStreamSameBuffer(dp: seq<uint8>, dq: seq<uint8>)
    requires |dp| == |dq| && SameStretch(dp, dq, 0, 8 * |dp|)
    ensures dp == dq
  {
    forall k | 0 <= k < |dp| ensures dp[k] == dq[k] { SameStretchSameByte(dp, dq, k); }
  }

  /** Reading looks at no bit outside the run. */
  lemma {:induction false} ReadStreamLocal(dp: seq<uint8>, dq: seq<uint8>, start: nat, n: nat)
    requires SameStretch(dp, dq, start, start + n)
    ensures ReadStream(dp, start, n) == ReadStream(dq, start, n)
  {
    forall j: nat ensures Bit(ReadStream(dp, start, n), j) <==> Bit(ReadStream(dq, start, n), j) {
      ReadStreamBit(dp, start, n, j);
      ReadStreamBit(dq, start, n, j);
    }
    SameBits(ReadStream(dp, start, n), ReadStream(dq, start, n));
  }

  /** A run that spells v reads back as v truncated to the run's width. */
  lemma {:induction false} ReadSpelled(dp: seq<uint8>, start: nat, n: nat, v: nat)
    requires forall s: nat :: start <= s < start + n ==> (StreamBit(dp, s) <==> Spells(start, n, v, s))
    ensures ReadStream(dp, start, n) == v % Pow2(n)
  {
    forall j: nat ensures Bit(ReadStream(dp, start, n), j) <==> Bit(v % Pow2(n), j) {
      ReadStreamBit(dp, start, n, j);
      BitTruncate(v, n, j);
      if j < n {
        var s := start + n - 1 - j;
        assert StreamBit(dp, s) <==> Spells(start, n, v, s);
      }
    }
    SameBits(ReadStream(dp, start, n), v % Pow2(n));
  }

  /** The byte at p is the 8-bit number starting at stream position 8p. */
  lemma {:induction false} ReadByte(dp: seq<uint8>, p: nat)
    requires p < |dp|
    ensures ReadStream(dp, 8 * p, 8) == dp[p]
  {
    forall j: nat ensures Bit(ReadStream(dp, 8 * p, 8), j) <==> Bit(dp[p], j) {
      ReadStreamBit(dp, 8 * p, 8, j);
      if j >= 8 {
        assert Pow2(8) == 256;
        SmallHasNoHighBits(dp[p], 8, j);
      } else {
        var s := 8 * p + 7 - j;
        assert s / 8 == p && 7 - s % 8 == j;
      }
    }
    SameBits(ReadStream(dp, 8 * p, 8), dp[p]);
  }
}
