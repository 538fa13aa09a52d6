/**
 Which proofs the escrow contract accepts.

 The contract hashes a claimed leaf through every element of the proof and halves the index once per
 element. The proof generator halves the index once per level and skips levels without a sibling. This
 module says exactly where the two agree.
 */
module MerkleVerifier {
  import opened PowersOfTwo
  import opened MerkleTree

  // ---------- The reference verifier, which knows the number of leaves ----------

  /** The tree head that leaf m of n leaves and an audit path lead to, following section 2.1.1 of RFC 6962. */
  function RootFromPath<T>(h: (T, T) -> T, leaf: T, m: nat, n: nat, path: seq<T>): T
    requires m < n
    decreases n
  {
    if n == 1 || path == [] then leaf
    else
      var k, last := Split(n), path[|path| - 1];
      var rest := path[..|path| - 1];
      if m < k then h(RootFromPath(h, leaf, m, k, rest), last)
      else h(last, RootFromPath(h, leaf, m - k, n - k, rest))
  }

  /** Knowing the leaf count, every generated proof leads to the root, promoted levels included. */
  lemma {:induction false} GeneratedProofLeadsToRoot<T>(h: (T, T) -> T, d: seq<T>, m: nat)
    requires m < |d|
    ensures RootFromPath(h, d[m], m, |d|, AuditPath(h, d, m)) == Root(h, d)
    decreases |d|
  {
    hide *;
    if |d| == 1 {
      OnlyLeafIsRoot(h, d);
    } else {
      var k := Split(|d|);
      RootAtNode(h, d, k);
      if m < k {
        GeneratedProofLeadsToRoot(h, d[..k], m);
        AuditPathLeft(h, d, m, k);
        RootFromLongerPath(h, d[m], m, |d|, AuditPath(h, d[..k], m), Root(h, d[k..]));
      } else {
        GeneratedProofLeadsToRoot(h, d[k..], m - k);
        AuditPathRight(h, d, m, k);
        RootFromLongerPath(h, d[m], m, |d|, AuditPath(h, d[k..], m - k), Root(h, d[..k]));
      }
    }
  }

  lemma {:induction false} OnlyLeafIsRoot<T>(h: (T, T) -> T, d: seq<T>)
    requires |d| == 1
    ensures RootFromPath(h, d[0], 0, 1, AuditPath(h, d, 0)) == Root(h, d)
  {
  }

  lemma {:induction false} RootFromLongerPath<T>(h: (T, T) -> T, leaf: T, m: nat, n: nat, path: seq<T>, last: T)
    requires 1 < n && m < n
    ensures var k := Split(n);
      RootFromPath(h, leaf, m, n, path + [last]) ==
      if m < k then h(RootFromPath(h, leaf, m, k, path), last) else h(last, RootFromPath(h, leaf, m - k, n - k, path))
  {
    assert (path + [last])[..|path + [last]| - 1] == path;
  }

  // ---------- The contract's verifier ----------

  /** The hash that a leaf, an index and a proof lead to. */
  function Climb<T>(h: (T, T) -> T, node: T, index: nat, proof: seq<T>): T
    decreases |proof|
  {
    if proof == [] then node
    else Climb(h, Join(h, node, index, proof[0]), index / 2, proof[1..])
  }

  function Join<T>(h: (T, T) -> T, node: T, index: nat, sibling: T): T {
    if index % 2 == 0 then h(node, sibling) else h(sibling, node)
  }

  method VerifyMerkleProof<T(==)>(h: (T, T) -> T, proof: seq<T>, root: T, leaf: T, index: nat) returns (ok: bool)
    ensures ok <==> Climb(h, leaf, index, proof) == root
  {
    var computedHash, position := leaf, index;
    for i := 0 to |proof|
      invariant position >= 0
      invariant Climb(h, computedHash, position, proof[i..]) == Climb(h, leaf, index, proof)
    {
      var proofElement := proof[i];
      assert proof[i..][0] == proofElement && proof[i..][1..] == proof[i + 1..];
      if position % 2 == 0 {
        computedHash := h(computedHash, proofElement);
      } else {
        computedHash := h(proofElement, computedHash);
      }
      position := position / 2;
    }
    ok := computedHash == root;
  }

  // ---------- Where a generated proof is accepted ----------

  /** Leaf i of n leaves, or a node above it, is the odd last node of some level. */
  predicate Promoted(n: nat, i: nat)
    requires i < n
  {
    n > 1 && ((i == n - 1 && i % 2 == 0) || Promoted((n + 1) / 2, i / 2))
  }

  /** The left and right turns of leaf i's path, as the bits of a number, lowest level first. */
  function Turns(n: nat, i: nat): nat
    requires i < n
  {
    if n == 1 then 0
    else if i == n - 1 && i % 2 == 0 then Turns((n + 1) / 2, i / 2)
    else i % 2 + 2 * Turns((n + 1) / 2, i / 2)
  }

  /** The number of levels at which leaf i's path has a sibling. */
  function PathLength(n: nat, i: nat): nat
    requires i < n
  {
    if n == 1 then 0
    else if i == n - 1 && i % 2 == 0 then PathLength((n + 1) / 2, i / 2)
    else 1 + PathLength((n + 1) / 2, i / 2)
  }

  lemma {:induction false} HalfOf(bit: nat, rest: nat)
    requires bit < 2
    ensures (bit + 2 * rest) % 2 == bit && (bit + 2 * rest) / 2 == rest
  {
  }

  lemma {:induction false} TurnsStep(n: nat, above: nat, i: nat)
    requires 1 < n && i < n && above == (n + 1) / 2 && !(i == n - 1 && i % 2 == 0)
    ensures Turns(n, i) % 2 == i % 2 && Turns(n, i) / 2 == Turns(above, i / 2)
    ensures PathLength(n, i) == PathLength(above, i / 2) + 1
  {
    HalfOf(i % 2, Turns(above, i / 2));
  }

  /** The turns spell the leaf's own index exactly when the leaf is never promoted, and a smaller one otherwise. */
  lemma {:induction false} TurnsBelowIndex(n: nat, i: nat)
    requires i < n
    ensures Turns(n, i) <= i
    ensures Turns(n, i) == i <==> !Promoted(n, i)
  {
    if n > 1 {
      TurnsBelowIndex((n + 1) / 2, i / 2);
    }
  }

  lemma {:induction false} LastLeafTurnsRight(n: nat)
    requires n > 1
    ensures Turns(n, n - 1) % 2 == 1 && PathLength(n, n - 1) > 0
  {
    if (n - 1) % 2 == 0 {
      LastLeafTurnsRight((n + 1) / 2);
      assert (n - 1) / 2 == (n + 1) / 2 - 1;
    }
  }

  lemma {:induction false} FullLengthIffNeverPromoted(n: nat, i: nat)
    requires i < n
    ensures PathLength(n, i) <= Depth(n)
    ensures PathLength(n, i) == Depth(n) <==> !Promoted(n, i)
  {
    if n > 1 {
      FullLengthIffNeverPromoted((n + 1) / 2, i / 2);
    }
  }

  /** Hashing a node with its sibling, in the order its index tells, gives the node above. */
  lemma {:induction false} JoinGivesParent<T>(h: (T, T) -> T, s: seq<T>, i: nat)
    requires 1 < |s| && i < |s| && !(i == |s| - 1 && i % 2 == 0)
    ensures |Sibling(s, i)| == 1
    ensures Join(h, s[i], i, Sibling(s, i)[0]) == Parents(h, s)[i / 2]
  {
  }

  lemma {:induction false} SiblingPathStep<T>(h: (T, T) -> T, s: seq<T>, i: nat)
    requires 1 < |s| && i < |s| && !(i == |s| - 1 && i % 2 == 0)
    ensures |Sibling(s, i)| == 1
    ensures SiblingPath(h, s, i) == [Sibling(s, i)[0]] + SiblingPath(h, Parents(h, s), i / 2)
  {
    assert Sibling(s, i) == [Sibling(s, i)[0]];
  }

  lemma {:induction false} ClimbOne<T>(h: (T, T) -> T, node: T, index: nat, sibling: T, rest: seq<T>)
    ensures Climb(h, node, index, [sibling] + rest) == Climb(h, Join(h, node, index, sibling), index / 2, rest)
  {
    assert ([sibling] + rest)[1..] == rest;
  }

  /** A promoted node reaches the next level as it is. */
  lemma {:induction false} PromotionStep<T>(h: (T, T) -> T, s: seq<T>, i: nat)
    requires 1 < |s| && i == |s| - 1 && i % 2 == 0
    ensures i / 2 < |Parents(h, s)| == (|s| + 1) / 2 && Parents(h, s)[i / 2] == s[i]
    ensures SiblingPath(h, s, i) == SiblingPath(h, Parents(h, s), i / 2)
    ensures Turns(|s|, i) == Turns(|Parents(h, s)|, i / 2)
    ensures PathLength(|s|, i) == PathLength(|Parents(h, s)|, i / 2)
  {
    assert Sibling(s, i) == [];
  }

  lemma {:induction false} ClimbOneLevel<T>(h: (T, T) -> T, s: seq<T>, i: nat)
    requires 1 < |s| && i < |s|
    ensures Climb(h, s[i], Turns(|s|, i), SiblingPath(h, s, i)) ==
            Climb(h, Parents(h, s)[i / 2], Turns(|Parents(h, s)|, i / 2), SiblingPath(h, Parents(h, s), i / 2))
  {
    hide *;
    if i == |s| - 1 && i % 2 == 0 {
      PromotionStep(h, s, i);
    } else {
      JoinGivesParent(h, s, i);
      SiblingPathStep(h, s, i);
      TurnsStep(|s|, |Parents(h, s)|, i);
      ClimbOne(h, s[i], Turns(|s|, i), Sibling(s, i)[0], SiblingPath(h, Parents(h, s), i / 2));
      SameParityJoin(h, s[i], i, Turns(|s|, i), Sibling(s, i)[0]);
    }
  }

  lemma {:induction false} SameParityJoin<T>(h: (T, T) -> T, node: T, i: nat, j: nat, sibling: T)
    requires i % 2 == j % 2
    ensures Join(h, node, i, sibling) == Join(h, node, j, sibling)
  {
  }

  /** Whatever the hash, the contract accepts leaf i's proof at the index spelled by its turns. */
  lemma {:induction false} AcceptedAtItsTurns<T>(h: (T, T) -> T, s: seq<T>, i: nat)
    requires i < |s|
    ensures Climb(h, s[i], Turns(|s|, i), SiblingPath(h, s, i)) == Root(h, s)
    decreases |s|
  {
    if |s| > 1 {
      ClimbOneLevel(h, s, i);
      AcceptedAtItsTurns(h, Parents(h, s), i / 2);
      RootOfParents(h, s);
    }
  }

  /** A generated proof has an element for each level with a sibling: all of them unless its leaf is promoted. */
  lemma {:induction false} ProofHasPathLength<T>(h: (T, T) -> T, s: seq<T>, i: nat)
    requires i < |s|
    ensures |AuditPath(h, s, i)| == PathLength(|s|, i)
    ensures |AuditPath(h, s, i)| == Depth(|s|) <==> !Promoted(|s|, i)
    decreases |s|
  {
    if |s| > 1 {
      ProofHasPathLength(h, Parents(h, s), i / 2);
      AuditPathStep(h, s, i);
    }
    FullLengthIffNeverPromoted(|s|, i);
  }

  // ---------- Promotion in binary ----------

  /** The last leaf escapes promotion exactly in a perfect tree. */
  lemma {:induction false} LastLeafNeverPromotedIff(p: nat)
    ensures !Promoted(p + 1, p) <==> AllOnes(p)
  {
    if p > 0 && p % 2 == 1 {
      assert (p + 2) / 2 == p / 2 + 1;
      LastLeafNeverPromotedIff(p / 2);
    }
  }

  /** A leaf is promoted only if the last leaf is. */
  lemma {:induction false} PromotedOnlyWithLast(p: nat, i: nat)
    requires i <= p && Promoted(p + 1, i)
    ensures Promoted(p + 1, p)
    decreases p
  {
    if !(i == p && i % 2 == 0) {
      assert (p + 2) / 2 == p / 2 + 1;
      PromotedOnlyWithLast(p / 2, i / 2);
    }
  }

  predicate OthersNeverPromoted(n: nat)
    requires n > 0
  {
    forall i :: 0 <= i < n - 1 ==> !Promoted(n, i)
  }

  /** All leaves but the last escape promotion exactly when the last index is ones followed by zeros. */
  lemma {:induction false} OthersNeverPromotedIff(p: nat)
    ensures OthersNeverPromoted(p + 1) <==> OnesThenZeros(p)
  {
    if p > 0 {
      assert (p + 2) / 2 == p / 2 + 1;
      if p % 2 == 1 {
        OthersWhenOdd(p);
      } else {
        var n, half := p + 1, p / 2 + 1;
        OthersNeverPromotedIff(p / 2);
        if OthersNeverPromoted(n) {
          forall j | 0 <= j < half - 1
            ensures !Promoted(half, j)
          {
            assert !Promoted(n, 2 * j);
          }
        }
        if OthersNeverPromoted(half) {
          forall i | 0 <= i < n - 1
            ensures !Promoted(n, i)
          {
            assert !Promoted(half, i / 2);
          }
        }
      }
    }
  }

  lemma {:induction false} OthersWhenOdd(p: nat)
    requires p % 2 == 1
    ensures OthersNeverPromoted(p + 1) <==> AllOnes(p)
  {
    assert (p + 2) / 2 == p / 2 + 1;
    LastLeafNeverPromotedIff(p / 2);
    LastLeafNeverPromotedIff(p);
    if AllOnes(p) {
      var n := p + 1;
      forall i | 0 <= i < n - 1
        ensures !Promoted(n, i)
      {
        if Promoted(n, i) {
          PromotedOnlyWithLast(p, i);
        }
      }
    } else {
      assert (p - 1) / 2 == p / 2 && Promoted(p + 1, p - 1);
    }
  }
}
