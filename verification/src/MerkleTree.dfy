/** The Merkle tree hash of section 2.1 of RFC 6962 and the power-of-two split it recurses on. */
module MerkleTree {
  import opened Prelude
  import opened MerkleHashing

  const WORD: nat := 0x1_0000_0000_0000_0000
  const HALF_WORD: nat := 0x8000_0000_0000_0000

  function Pow2(e: nat): (p: nat)
    ensures p > 0
  {
    if e == 0 then 1 else 2 * Pow2(e - 1)
  }

  /** Rounds up: the number of levels above the leaves of a tree of n leaves. */
  function CeilLog2(n: nat): nat {
    if n <= 1 then 0 else 1 + CeilLog2((n + 1) / 2)
  }

  lemma {:induction false} Pow2Monotone(a: nat, b: nat)
    requires a <= b
    ensures Pow2(a) <= Pow2(b)
    ensures a < b ==> Pow2(a) < Pow2(b)
    decreases b
  {
    if a == b {
    } else {
      Pow2Monotone(a, b - 1);
    }
  }

  lemma {:induction false} CeilLog2Bounds(n: nat)
    requires n >= 2
    ensures CeilLog2(n) >= 1
    ensures Pow2(CeilLog2(n) - 1) < n <= Pow2(CeilLog2(n))
  {
    if n > 2 { CeilLog2Bounds((n + 1) / 2); } else { assert CeilLog2(2) == 1 + CeilLog2(1); }
  }

  lemma CeilLog2Unique(n: nat, e: nat)
    requires Pow2(e) < n <= Pow2(e + 1)
    ensures CeilLog2(n) == e + 1
  {
    CeilLog2Bounds(n);
    var c := CeilLog2(n) - 1;
    if c < e { Pow2Monotone(c + 1, e); } else if e < c { Pow2Monotone(e + 1, c); }
  }

  lemma {:induction false} CeilLog2Monotone(m: nat, n: nat)
    requires m <= n
    ensures CeilLog2(m) <= CeilLog2(n)
    decreases n
  {
    if n < 2 {
    } else {
      CeilLog2Monotone((m + 1) / 2, (n + 1) / 2);
    }
  }

  /** Doubling from k until the next doubling would reach n. */
  function LastBelow(n: nat, k: nat): (r: nat)
    requires 0 < k < n
    ensures k <= r < n <= 2 * r
    decreases n - k
  {
    if n <= 2 * k then k else LastBelow(n, 2 * k)
  }

  /** The largest power of two strictly below n: what `split_point` returns for every n its loop leaves. */
  function SplitPoint(n: nat): (k: nat)
    requires n >= 2
    ensures 0 < k < n <= 2 * k
  {
    LastBelow(n, 1)
  }

  lemma {:induction false} LastBelowIsPow2(n: nat, e: nat)
    requires Pow2(e) < n
    ensures CeilLog2(n) >= 1 && LastBelow(n, Pow2(e)) == Pow2(CeilLog2(n) - 1)
    decreases n - Pow2(e)
  {
    if n <= 2 * Pow2(e) { CeilLog2Unique(n, e); } else { LastBelowIsPow2(n, e + 1); }
  }

  lemma SplitPointIsPow2(n: nat)
    requires n >= 2
    ensures CeilLog2(n) >= 1 && SplitPoint(n) == Pow2(CeilLog2(n) - 1)
  {
    LastBelowIsPow2(n, 0);
  }

  /** Any power of two that halves into the right range is the split point. */
  lemma SplitPointUnique(n: nat, e: nat)
    requires Pow2(e) < n <= 2 * Pow2(e)
    ensures n >= 2 && SplitPoint(n) == Pow2(e)
  {
    CeilLog2Unique(n, e);
    SplitPointIsPow2(n);
  }

  /** All trees that keep a nonempty right half of the same level split at the same place. */
  lemma SplitPointStable(m: nat, n: nat)
    requires n >= 2 && SplitPoint(n) < m <= n
    ensures m >= 2 && SplitPoint(m) == SplitPoint(n)
  {
    SplitPointIsPow2(n);
    SplitPointUnique(m, CeilLog2(n) - 1);
  }

  /** Both halves are at least one level lower. */
  lemma SplitPointLevels(n: nat)
    requires n >= 2
    ensures CeilLog2(SplitPoint(n)) <= CeilLog2(n) - 1
    ensures CeilLog2(n - SplitPoint(n)) <= CeilLog2(n) - 1
  {
    var c := CeilLog2(n) - 1;
    SplitPointIsPow2(n);
    CeilLog2OfPow2(c);
    CeilLog2Monotone(n - SplitPoint(n), SplitPoint(n));
  }

  lemma {:induction false} CeilLog2OfPow2(e: nat)
    ensures CeilLog2(Pow2(e)) == e
  {
    if e == 0 {
    } else {
      CeilLog2OfPow2(e - 1);
      assert (Pow2(e) + 1) / 2 == Pow2(e - 1);
    }
  }

  /** One doubling of a 64-bit word: the shifted-out bit is lost. */
  function ShiftLeft1(k: nat): nat
    requires k < WORD
  {
    (2 * k) % WORD
  }

  /** The loop variable after i rounds of doubling, starting from 1. */
  function LoopValue(i: nat): (k: nat)
    ensures k < WORD
  {
    if i == 0 then 1 else ShiftLeft1(LoopValue(i - 1))
  }

  lemma {:induction false} LoopValueIs(i: nat)
    ensures LoopValue(i) == if i < 64 then Pow2(i) else 0
  {
    if i == 0 {
    } else {
      LoopValueIs(i - 1);
      if i <= 64 { Pow2UpTo63(i - 1); }
      ShiftCases(LoopValue(i - 1));
      assert i < 64 ==> Pow2(i) == 2 * Pow2(i - 1);
    }
  }

  lemma ShiftCases(k: nat)
    ensures 2 * k < WORD ==> ShiftLeft1(k) == 2 * k
    ensures k == HALF_WORD ==> ShiftLeft1(k) == 0
  {
  }

  lemma Pow2UpTo63(i: nat)
    requires i <= 63
    ensures if i < 63 then 2 * Pow2(i) <= HALF_WORD else Pow2(i) == HALF_WORD
  {
    Pow2At63();
    if i < 63 { Pow2Monotone(i + 1, 63); }
  }

  lemma Pow2At63()
    ensures Pow2(63) == HALF_WORD && Pow2(64) == WORD
  {
    assert Pow2(8) == 256;
    assert Pow2(16) == 65536;
    assert Pow2(24) == 0x100_0000;
    assert Pow2(32) == 0x1_0000_0000;
    assert Pow2(40) == 0x100_0000_0000;
    assert Pow2(48) == 0x1_0000_0000_0000;
    assert Pow2(56) == 0x100_0000_0000_0000;
  }

  /** On 64-bit words the shift loop is left exactly for n up to 2^63; above, it spins on zero. */
  lemma SplitLoopTerminates(n: nat)
    requires 2 <= n < WORD
    ensures (exists i: nat :: LoopValue(i) >= n) <==> n <= HALF_WORD
  {
    Pow2At63();
    if n <= HALF_WORD {
      LoopValueIs(63);
    } else if exists i: nat :: LoopValue(i) >= n {
      var i: nat :| LoopValue(i) >= n;
      LoopValueIs(i);
      if i < 64 { Pow2Monotone(i, 63); }
    }
  }

  /** `split_point`: double until n is reached, then step back once. */
  method SplitPointLoop(n: nat) returns (k: nat)
    requires 2 <= n <= HALF_WORD
    ensures n >= 2 && k == SplitPoint(n)
    ensures exists e: nat :: k == Pow2(e)
    ensures k < n <= 2 * k
  {
    k := 1;
    ghost var e: nat := 0;
    while k < n
      invariant k == Pow2(e) <= HALF_WORD
      invariant e > 0 ==> Pow2(e - 1) < n
      decreases HALF_WORD - k
    {
      Pow2At63();
      if e >= 63 { Pow2Monotone(63, e); }
      Pow2Monotone(e + 1, 63);
      k := ShiftLeft1(k);
      e := e + 1;
    }
    SplitPointUnique(n, e - 1);
    k := k / 2;
  }

  function Root(h: MerkleHasher, leaves: seq<Digest>): Digest
    decreases |leaves|
  {
    if |leaves| == 0 then EmptyRoot(h)
    else if |leaves| == 1 then leaves[0]
    else
      var k := SplitPoint(|leaves|);
      Node(h, Root(h, leaves[..k]), Root(h, leaves[k..]))
  }

  lemma RootHasWidth(h: MerkleHasher, leaves: seq<Digest>)
    requires AllHaveWidth(h, leaves)
    ensures HasWidth(h, Root(h, leaves))
  {
  }

  /** A prefix that reaches into the right half keeps the left half whole. */
  lemma RootOfPrefix(h: MerkleHasher, leaves: seq<Digest>, m: nat)
    requires |leaves| >= 2 && SplitPoint(|leaves|) < m <= |leaves|
    ensures var k := SplitPoint(|leaves|);
            Root(h, leaves[..m]) == Node(h, Root(h, leaves[..k]), Root(h, leaves[k..][..m - k]))
  {
    var k := SplitPoint(|leaves|);
    SplitPointStable(m, |leaves|);
    assert leaves[..m][..k] == leaves[..k];
    assert leaves[..m][k..] == leaves[k..][..m - k];
  }

  function LeafHashes(h: MerkleHasher, records: seq<Bytes>): (ds: seq<Digest>)
    ensures |ds| == |records|
    ensures forall i :: 0 <= i < |ds| ==> ds[i] == Leaf(h, records[i])
  {
    seq(|records|, i requires 0 <= i < |records| => Leaf(h, records[i]))
  }

  /** What the outermost hash call of a tree over records consumes. */
  function RootInput(h: MerkleHasher, records: seq<Bytes>): (input: Bytes)
    ensures h.hash(input) == Root(h, LeafHashes(h, records)).bytes
  {
    var leaves := LeafHashes(h, records);
    if |records| == 0 then []
    else if |records| == 1 then LeafInput(records[0])
    else
      var k := SplitPoint(|records|);
      NodeInput(Root(h, leaves[..k]), Root(h, leaves[k..]))
  }

  /** Searches two record lists with equal roots for the hash collision that explains a difference. */
  function RootCollision(h: MerkleHasher, rs: seq<Bytes>, rs': seq<Bytes>): Collision
    decreases |rs|
  {
    var top := Collision(RootInput(h, rs), RootInput(h, rs'));
    if Collides(h, top) || |rs| < 2 || |rs'| < 2 then top
    else
      var k, k' := SplitPoint(|rs|), SplitPoint(|rs'|);
      var left := RootCollision(h, rs[..k], rs'[..k']);
      if Collides(h, left) then left else RootCollision(h, rs[k..], rs'[k'..])
  }

  lemma LeafHashesSlice(h: MerkleHasher, rs: seq<Bytes>, k: nat)
    requires k <= |rs|
    ensures LeafHashes(h, rs)[..k] == LeafHashes(h, rs[..k])
    ensures LeafHashes(h, rs)[k..] == LeafHashes(h, rs[k..])
  {
  }

  /** Equal roots of two trees with inner nodes have equal halves, or collide at the top. */
  lemma HalvesBind(h: MerkleHasher, rs: seq<Bytes>, rs': seq<Bytes>)
    requires |rs| >= 2 && |rs'| >= 2
    requires RootInput(h, rs) == RootInput(h, rs')
    ensures var k, k' := SplitPoint(|rs|), SplitPoint(|rs'|);
            && Root(h, LeafHashes(h, rs[..k])).bytes == Root(h, LeafHashes(h, rs'[..k'])).bytes
            && Root(h, LeafHashes(h, rs[k..])).bytes == Root(h, LeafHashes(h, rs'[k'..])).bytes
  {
    var k, k' := SplitPoint(|rs|), SplitPoint(|rs'|);
    LeafHashesSlice(h, rs, k);
    LeafHashesSlice(h, rs', k');
    RootHasWidth(h, LeafHashes(h, rs[..k]));
    RootHasWidth(h, LeafHashes(h, rs'[..k']));
    NodeBinds(h, Root(h, LeafHashes(h, rs[..k])), Root(h, LeafHashes(h, rs[k..])),
              Root(h, LeafHashes(h, rs'[..k'])), Root(h, LeafHashes(h, rs'[k'..])));
  }

  lemma {:induction false} JoinHalves(h: MerkleHasher, rs: seq<Bytes>, rs': seq<Bytes>)
    requires |rs| >= 2 && |rs'| >= 2
    requires var k, k' := SplitPoint(|rs|), SplitPoint(|rs'|);
             && (rs[..k] == rs'[..k'] || Collides(h, RootCollision(h, rs[..k], rs'[..k'])))
             && (rs[k..] == rs'[k'..] || Collides(h, RootCollision(h, rs[k..], rs'[k'..])))
    ensures rs == rs' || Collides(h, RootCollision(h, rs, rs'))
  {
    var k, k' := SplitPoint(|rs|), SplitPoint(|rs'|);
    if rs[..k] == rs'[..k'] && rs[k..] == rs'[k'..] {
      assert rs == rs[..k] + rs[k..] && rs' == rs'[..k'] + rs'[k'..];
    } else {
      HalfCollides(h, rs, rs', RootCollision(h, rs[..k], rs'[..k']), RootCollision(h, rs[k..], rs'[k'..]));
    }
  }

  lemma {:induction false} HalfCollides(h: MerkleHasher, rs: seq<Bytes>, rs': seq<Bytes>, left: Collision,
                                        right: Collision)
    requires |rs| >= 2 && |rs'| >= 2
    requires var k, k' := SplitPoint(|rs|), SplitPoint(|rs'|);
             left == RootCollision(h, rs[..k], rs'[..k']) && right == RootCollision(h, rs[k..], rs'[k'..])
    requires Collides(h, left) || Collides(h, right)
    ensures Collides(h, RootCollision(h, rs, rs'))
  {
  }

  /** A root commits to its records, their order and their number, for lists of any two lengths. */
  lemma {:induction false} RootBindsRecords(h: MerkleHasher, rs: seq<Bytes>, rs': seq<Bytes>)
    requires Root(h, LeafHashes(h, rs)).bytes == Root(h, LeafHashes(h, rs')).bytes
    ensures rs == rs' || Collides(h, RootCollision(h, rs, rs'))
    decreases |rs|
  {
    if RootInput(h, rs) == RootInput(h, rs') {
      if |rs| < 2 || |rs'| < 2 {
        SmallRootsBind(h, rs, rs');
      } else {
        var k, k' := SplitPoint(|rs|), SplitPoint(|rs'|);
        HalvesBind(h, rs, rs');
        RootBindsRecords(h, rs[..k], rs'[..k']);
        RootBindsRecords(h, rs[k..], rs'[k'..]);
        JoinHalves(h, rs, rs');
      }
    }
  }

  /** The prefixes keep the empty tree, a single record and an inner node apart. */
  lemma SmallRootsBind(h: MerkleHasher, rs: seq<Bytes>, rs': seq<Bytes>)
    requires |rs| < 2 || |rs'| < 2
    requires RootInput(h, rs) == RootInput(h, rs')
    ensures rs == rs'
  {
    var x := RootInput(h, rs);
    assert |rs| == 0 <==> |x| == 0;
    assert |rs'| == 0 <==> |x| == 0;
    assert |rs| == 1 ==> x[0] == LEAF_PREFIX && x[1..] == rs[0];
    assert |rs'| == 1 ==> x[0] == LEAF_PREFIX && x[1..] == rs'[0];
  }
}
