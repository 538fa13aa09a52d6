/**
 Everything the contract's proof check accepts.

 The check cannot tell the hash of a secret from an inner node of the tree, because the tree has no prefixes that
 would separate them. So it accepts every node of every level, and only the length of the proof tells which.
 */
module MerkleAcceptance {
  import opened PowersOfTwo
  import opened MerkleTree
  import opened MerkleVerifier
  import opened MerkleBinding

  // ---------- Any hash ----------

  /** Only the low bits of the index decide the turns of a climb. */
  lemma {:induction false} ClimbByLowBits<T>(h: (T, T) -> T, x: T, i: nat, j: nat, proof: seq<T>)
    requires SameLowBits(i, j, |proof|)
    ensures Climb(h, x, i, proof) == Climb(h, x, j, proof)
    decreases |proof|
  {
    if proof != [] {
      ClimbByLowBits(h, Join(h, x, i, proof[0]), i / 2, j / 2, proof[1..]);
    }
  }

  lemma {:induction false} SameBitsItself(i: nat, bits: nat)
    ensures SameLowBits(i, i, bits)
    decreases bits
  {
    if bits > 0 {
      SameBitsItself(i / 2, bits - 1);
    }
  }

  /**
   For every hash and every fill index, promoted ones included: a proof as long as that of a leaf whose turns the
   index ends in carries that leaf, and is that leaf's proof, or else two different pairs hashed to the same value.
   */
  lemma {:induction false} FillCarriesLeafOfItsTurns<T>(h: (T, T) -> T, leaves: seq<T>, i: nat, j: nat, hashlock: T,
                                                        proof: seq<T>)
    requires j < |leaves| && |proof| == PathLength(|leaves|, j) && SameLowBits(i, Turns(|leaves|, j), |proof|)
    requires Climb(h, hashlock, i, proof) == Root(h, leaves)
    ensures (hashlock == leaves[j] && proof == AuditPath(h, leaves, j))
      || Collide(h, ClimbPairs(h, hashlock, i, proof), ClimbPairs(h, leaves[j], i, AuditPath(h, leaves, j)))
  {
    hide *;
    AcceptedAtItsTurns(h, leaves, j);
    SiblingPathIsAuditPath(h, leaves, j);
    ProofHasPathLength(h, leaves, j);
    ClimbByLowBits(h, leaves[j], i, Turns(|leaves|, j), AuditPath(h, leaves, j));
    ProofBinding(h, hashlock, proof, leaves[j], AuditPath(h, leaves, j), i);
  }

  /** At an index that is never promoted, a proof as long as the tree is deep carries that index's own leaf. */
  lemma {:induction false} FullLengthFillUsesOwnLeaf<T>(h: (T, T) -> T, leaves: seq<T>, i: nat, hashlock: T, proof: seq<T>)
    requires i < |leaves| && !Promoted(|leaves|, i) && |proof| == Depth(|leaves|)
    requires Climb(h, hashlock, i, proof) == Root(h, leaves)
    ensures (hashlock == leaves[i] && proof == AuditPath(h, leaves, i))
      || Collide(h, ClimbPairs(h, hashlock, i, proof), ClimbPairs(h, leaves[i], i, AuditPath(h, leaves, i)))
  {
    hide *;
    TurnsBelowIndex(|leaves|, i);
    FullLengthIffNeverPromoted(|leaves|, i);
    SameBitsItself(i, |proof|);
    FillCarriesLeafOfItsTurns(h, leaves, i, i, hashlock, proof);
  }

  /** Every level has the same root. */
  lemma {:induction false} LevelRoot<T>(h: (T, T) -> T, leaves: seq<T>, l: nat)
    requires |leaves| > 0 && l < |Levels(h, leaves)|
    ensures |Levels(h, leaves)[l]| > 0 && Root(h, Levels(h, leaves)[l]) == Root(h, leaves)
    decreases l
  {
    hide Root, Levels;
    LevelSuffix(h, leaves, l);
    if l > 0 {
      LevelRoot(h, leaves, l - 1);
      LevelSuffix(h, leaves, l - 1);
      RootOfParents(h, Levels(h, leaves)[l - 1]);
    }
  }

  /** For every hash, every node of every level is accepted, with its siblings, at the indices that end in its turns. */
  lemma {:induction false} NodeAccepted<T>(h: (T, T) -> T, leaves: seq<T>, l: nat, i: nat, index: nat)
    requires |leaves| > 0 && l < |Levels(h, leaves)| && i < |Levels(h, leaves)[l]|
    requires var level := Levels(h, leaves)[l];
      SameLowBits(index, Turns(|level|, i), |SiblingPath(h, level, i)|)
    ensures var level := Levels(h, leaves)[l];
      Climb(h, level[i], index, SiblingPath(h, level, i)) == Root(h, leaves)
  {
    var level := Levels(h, leaves)[l];
    hide *;
    LevelRoot(h, leaves, l);
    AcceptedAtItsTurns(h, level, i);
    ClimbByLowBits(h, level[i], index, Turns(|level|, i), SiblingPath(h, level, i));
  }

  // ---------- The free hash: every accepted hashlock is a node ----------

  /** The last element of a proof is paired with what the others lead to, on one side or the other. */
  lemma {:induction false} FreeClimbLast(x: Term, index: nat, proof: seq<Term>, last: Term)
    ensures var below, top := Climb(Free, x, index, proof), Climb(Free, x, index, proof + [last]);
      top == Pair(below, last) || top == Pair(last, below)
    decreases |proof|
  {
    if proof == [] {
      assert proof + [last] == [last] && [last][1..] == [];
    } else {
      assert (proof + [last])[0] == proof[0] && (proof + [last])[1..] == proof[1..] + [last];
      FreeClimbLast(Join(Free, x, index, proof[0]), index / 2, proof[1..], last);
    }
  }

  /** The last element of an accepted proof is one half of the tree, and the others lead to the other half. */
  lemma {:induction false} AcceptedBelow(l: Term, r: Term, x: Term, index: nat, proof: seq<Term>)
    requires x.Atom? && Climb(Free, x, index, proof) == Pair(l, r)
    ensures proof != []
    ensures var front, last := proof[..|proof| - 1], proof[|proof| - 1];
      var below := Climb(Free, x, index, front);
      (below == l && last == r) || (below == r && last == l)
  {
    var front, last := proof[..|proof| - 1], proof[|proof| - 1];
    assert proof == front + [last];
    FreeClimbLast(x, index, front, last);
  }

  ghost predicate AllAtoms(leaves: seq<Term>) {
    forall i :: 0 <= i < |leaves| ==> leaves[i].Atom?
  }

  /** A secret hash that leads to the root, at any index and by any proof, is a leaf with its generated proof. */
  lemma {:induction false} AcceptedIsGenerated(leaves: seq<Term>, x: Term, index: nat, proof: seq<Term>) returns (j: nat)
    requires |leaves| > 0 && AllAtoms(leaves) && x.Atom?
    requires Climb(Free, x, index, proof) == Root(Free, leaves)
    ensures j < |leaves| && x == leaves[j] && proof == AuditPath(Free, leaves, j)
    decreases |leaves|
  {
    hide *;
    if |leaves| == 1 {
      OnlyLeaf(leaves, x, index, proof);
      j := 0;
    } else {
      var k := Split(|leaves|);
      var left, right := leaves[..k], leaves[k..];
      AtomsInHalves(leaves, k);
      RootAtNode(Free, leaves, k);
      FreeIsPair(Root(Free, left), Root(Free, right));
      AcceptedBelow(Root(Free, left), Root(Free, right), x, index, proof);
      var front, last := proof[..|proof| - 1], proof[|proof| - 1];
      assert proof == front + [last];
      if Climb(Free, x, index, front) == Root(Free, left) && last == Root(Free, right) {
        j := AcceptedIsGenerated(left, x, index, front);
        AuditPathLeft(Free, leaves, j, k);
      } else {
        var i := AcceptedIsGenerated(right, x, index, front);
        j := k + i;
        AuditPathRight(Free, leaves, j, k);
      }
    }
  }

  lemma {:induction false} FreeIsPair(l: Term, r: Term)
    ensures Free(l, r) == Pair(l, r)
  {
  }

  lemma {:induction false} AtomsInHalves(leaves: seq<Term>, k: nat)
    requires AllAtoms(leaves) && k <= |leaves|
    ensures AllAtoms(leaves[..k]) && AllAtoms(leaves[k..])
  {
  }

  lemma {:induction false} OnlyLeaf(leaves: seq<Term>, x: Term, index: nat, proof: seq<Term>)
    requires |leaves| == 1 && AllAtoms(leaves) && Climb(Free, x, index, proof) == Root(Free, leaves)
    ensures x == leaves[0] && proof == [] == AuditPath(Free, leaves, 0)
  {
    if proof != [] {
      var front, last := proof[..|proof| - 1], proof[|proof| - 1];
      assert proof == front + [last];
      FreeClimbLast(x, index, front, last);
    }
  }

  /** The value stands at position i of level l, and the proof collects its siblings from there. */
  ghost predicate AtNode(leaves: seq<Term>, x: Term, proof: seq<Term>, l: int, i: int)
    requires |leaves| > 0
  {
    var tree := Levels(Free, leaves);
    && 0 <= l < |tree| && 0 <= i < |tree[l]|
    && x == tree[l][i] && proof == SiblingPath(Free, tree[l], i)
  }

  ghost predicate InTree(leaves: seq<Term>, x: Term, proof: seq<Term>)
    requires |leaves| > 0
  {
    exists l, i :: AtNode(leaves, x, proof, l, i)
  }

  /** The first k elements of the proof lead to position i of the bottom level, and the others from there. */
  ghost predicate Below(s: seq<Term>, x: Term, index: nat, proof: seq<Term>, i: int, k: int) {
    && 0 <= i < |s| && 0 < k <= |proof|
    && Climb(Free, x, index, proof[..k]) == s[i] && proof[k..] == SiblingPath(Free, s, i)
  }

  lemma {:induction false} AtNodeAbove(s: seq<Term>, x: Term, proof: seq<Term>)
    requires 1 < |s| && InTree(Parents(Free, s), x, proof)
    ensures InTree(s, x, proof)
  {
    var l, i :| AtNode(Parents(Free, s), x, proof, l, i);
    assert Levels(Free, s) == [s] + Levels(Free, Parents(Free, s));
    hide Levels, SiblingPath;
    assert Levels(Free, s)[l + 1] == Levels(Free, Parents(Free, s))[l];
    assert AtNode(s, x, proof, l + 1, i);
  }

  /** One level further down. */
  lemma {:induction false} BelowStep(s: seq<Term>, x: Term, index: nat, proof: seq<Term>, i: int, k: int)
    requires 1 < |s| && Below(Parents(Free, s), x, index, proof, i, k)
    ensures InTree(s, x, proof) || exists j, m :: Below(s, x, index, proof, j, m)
  {
    var above := Parents(Free, s);
    hide SiblingPath, Climb, Levels;
    if 2 * i + 1 < |s| {
      var front, last := proof[..k - 1], proof[k - 1];
      assert proof[..k] == front + [last];
      FreeClimbLast(x, index, front, last);
      var j := if Climb(Free, x, index, front) == s[2 * i] && last == s[2 * i + 1] then 2 * i else 2 * i + 1;
      SiblingPathStep(Free, s, j);
      assert Climb(Free, x, index, front) == s[j] && Sibling(s, j)[0] == last && j / 2 == i;
      assert proof[k - 1..] == [last] + proof[k..];
      if k == 1 {
        ClimbNothing(x, index, front);
        assert proof == proof[0..];
        LeafAtNode(s, x, proof, j);
      } else {
        assert Below(s, x, index, proof, j, k - 1);
      }
    } else {
      PromotionStep(Free, s, 2 * i);
      assert Below(s, x, index, proof, 2 * i, k);
    }
  }

  lemma {:induction false} ClimbNothing(x: Term, index: nat, proof: seq<Term>)
    requires proof == []
    ensures Climb(Free, x, index, proof) == x
  {
  }

  lemma {:induction false} LeafAtNode(s: seq<Term>, x: Term, proof: seq<Term>, j: int)
    requires 0 <= j < |s| && x == s[j] && proof == SiblingPath(Free, s, j)
    ensures InTree(s, x, proof)
  {
    hide SiblingPath;
    assert AtNode(s, x, proof, 0, j);
  }

  /** Whatever leads to the root is a node of the tree above some level, or lies below that level. */
  lemma {:induction false} NodeOrBelow(s: seq<Term>, x: Term, index: nat, proof: seq<Term>)
    requires |s| > 0 && Climb(Free, x, index, proof) == Root(Free, s)
    ensures InTree(s, x, proof) || exists i, k :: Below(s, x, index, proof, i, k)
    decreases |s|
  {
    if |s| == 1 {
      if proof == [] {
        LeafAtNode(s, x, proof, 0);
      } else {
        assert proof[..|proof|] == proof;
        assert Below(s, x, index, proof, 0, |proof|);
      }
    } else {
      RootOfParents(Free, s);
      hide Root, Climb, Below, InTree;
      NodeOrBelow(Parents(Free, s), x, index, proof);
      if InTree(Parents(Free, s), x, proof) {
        AtNodeAbove(s, x, proof);
      } else {
        var i, k :| Below(Parents(Free, s), x, index, proof, i, k);
        BelowStep(s, x, index, proof, i, k);
      }
    }
  }

  /** Every level has the same root, and its nodes cover disjoint sets of secrets. */
  lemma {:induction false} LevelKeeps(leaves: seq<Term>, l: nat)
    requires |leaves| > 0 && Separate(leaves) && l < |Levels(Free, leaves)|
    ensures var level := Levels(Free, leaves)[l];
      |level| > 0 && Root(Free, level) == Root(Free, leaves) && Separate(level) && Depth(|level|) + l == Depth(|leaves|)
    decreases l
  {
    hide Root, Separate, Levels, Depth;
    LevelSuffix(Free, leaves, l);
    if l == 0 {
      LeavesFirst(leaves);
    } else {
      var below := Levels(Free, leaves)[l - 1];
      LevelKeeps(leaves, l - 1);
      LevelSuffix(Free, leaves, l - 1);
      RootOfParents(Free, below);
      ParentsSeparate(below);
      DepthOfParents(below);
    }
  }

  lemma {:induction false} DepthOfParents(level: seq<Term>)
    requires |level| > 1
    ensures Depth(|level|) == 1 + Depth(|Parents(Free, level)|)
  {
  }

  /** The contract accepts x at this index as the node at position i of level l. */
  ghost predicate AcceptedAsNode(leaves: seq<Term>, x: Term, index: nat, proof: seq<Term>, l: int, i: int)
    requires |leaves| > 0
  {
    AtNode(leaves, x, proof, l, i) && SameLowBits(index, Turns(|Levels(Free, leaves)[l]|, i), |proof|)
  }

  lemma {:induction false} NodeAcceptedIff(leaves: seq<Term>, x: Term, index: nat, proof: seq<Term>, l: int, i: int)
    requires |leaves| > 0 && DistinctSecrets(leaves) && AtNode(leaves, x, proof, l, i)
    ensures Climb(Free, x, index, proof) == Root(Free, leaves) <==> AcceptedAsNode(leaves, x, index, proof, l, i)
  {
    var level := Levels(Free, leaves)[l];
    assert Separate(leaves);
    LevelKeeps(leaves, l);
    AcceptedExactlyAtTurns(level, i, index);
    SiblingPathIsAuditPath(Free, level, i);
    ProofHasPathLength(Free, level, i);
    hide *;
  }

  /**
   The contract accepts a hashlock at an index exactly when it is some node of some level of the tree, the proof
   collects the siblings from there up, and the index ends in the turns from there up.
   */
  lemma {:induction false} AcceptedFillsExactly(leaves: seq<Term>, x: Term, index: nat, proof: seq<Term>)
    requires |leaves| > 0 && DistinctSecrets(leaves)
    ensures Climb(Free, x, index, proof) == Root(Free, leaves) <==> exists l, i :: AcceptedAsNode(leaves, x, index, proof, l, i)
  {
    hide Root, Climb, AtNode, SameLowBits, Turns, Levels;
    if Climb(Free, x, index, proof) == Root(Free, leaves) {
      NodeOrBelow(leaves, x, index, proof);
      if !InTree(leaves, x, proof) {
        var i, k :| Below(leaves, x, index, proof, i, k);
        NothingBelowLeaves(leaves, x, index, proof, i, k);
      }
      var l, i :| AtNode(leaves, x, proof, l, i);
      NodeAcceptedIff(leaves, x, index, proof, l, i);
    }
    if l, i :| AcceptedAsNode(leaves, x, index, proof, l, i) {
      NodeAcceptedIff(leaves, x, index, proof, l, i);
    }
  }

  lemma {:induction false} NothingBelowLeaves(leaves: seq<Term>, x: Term, index: nat, proof: seq<Term>, i: int, k: int)
    requires DistinctSecrets(leaves)
    ensures !Below(leaves, x, index, proof, i, k)
  {
    if Below(leaves, x, index, proof, i, k) {
      assert proof[..k] == proof[..k - 1] + [proof[k - 1]];
      FreeClimbLast(x, index, proof[..k - 1], proof[k - 1]);
    }
  }

  // ---------- Which accepted hashlocks are secret hashes ----------

  /** The root itself, with no proof at all, is accepted at every index, and it is no secret's hash if there are two. */
  lemma {:induction false} RootAcceptedEverywhere(leaves: seq<Term>, index: nat)
    requires |leaves| > 1 && DistinctSecrets(leaves)
    ensures Climb(Free, Root(Free, leaves), index, []) == Root(Free, leaves) && Root(Free, leaves) !in leaves
  {
    RootAtNode(Free, leaves, Split(|leaves|));
  }

  /** Proofs of this length lead from leaf j when the index ends in its turns. */
  predicate LeafLength(n: nat, index: nat, length: nat, j: int) {
    0 <= j < n && length == PathLength(n, j) && SameLowBits(index, Turns(n, j), length)
  }

  lemma {:induction false} FreeNeverCollides(ps: seq<(Term, Term)>, qs: seq<(Term, Term)>)
    ensures !Collide(Free, ps, qs)
  {
  }

  /**
   An accepted hashlock is the hash of one of the order's secrets exactly when the proof is as long as that of a leaf
   whose turns the index ends in: a condition on the number of secrets, the index and the length alone.
   */
  lemma {:induction false} AcceptedIsSecretIff(leaves: seq<Term>, x: Term, index: nat, proof: seq<Term>)
    requires |leaves| > 0 && DistinctSecrets(leaves) && Climb(Free, x, index, proof) == Root(Free, leaves)
    ensures x in leaves <==> exists j :: LeafLength(|leaves|, index, |proof|, j)
  {
    if x in leaves {
      var j := AcceptedIsGenerated(leaves, x, index, proof);
      OwnProofLength(leaves, index, j);
    }
    if j :| LeafLength(|leaves|, index, |proof|, j) {
      FillCarriesLeafOfItsTurns(Free, leaves, index, j, x, proof);
      FreeNeverCollides(ClimbPairs(Free, x, index, proof), ClimbPairs(Free, leaves[j], index, AuditPath(Free, leaves, j)));
    }
  }

  lemma {:induction false} OwnProofLength(leaves: seq<Term>, index: nat, j: nat)
    requires DistinctSecrets(leaves) && j < |leaves|
    requires Climb(Free, leaves[j], index, AuditPath(Free, leaves, j)) == Root(Free, leaves)
    ensures LeafLength(|leaves|, index, |AuditPath(Free, leaves, j)|, j)
  {
    assert Separate(leaves);
    AcceptedExactlyAtTurns(leaves, j, index);
    SiblingPathIsAuditPath(Free, leaves, j);
    ProofHasPathLength(Free, leaves, j);
    hide *;
  }

  lemma {:induction false} BitsDetermine(i: nat, j: nat, bits: nat)
    requires SameLowBits(i, j, bits) && i < Pow2(bits) && j < Pow2(bits)
    ensures i == j
    decreases bits
  {
    if bits > 0 {
      BitsDetermine(i / 2, j / 2, bits - 1);
    }
  }

  /**
   In every tree, what is accepted at the index of a secret is that secret's hash exactly when the proof is as long as the
   tree is deep. The contract does not look at the length.
   */
  lemma {:induction false} OwnSecretIffFullLength(leaves: seq<Term>, x: Term, i: nat, proof: seq<Term>)
    requires i < |leaves| && DistinctSecrets(leaves) && Climb(Free, x, i, proof) == Root(Free, leaves)
    ensures x == leaves[i] <==> |proof| == Depth(|leaves|)
  {
    var n := |leaves|;
    if x == leaves[i] {
      var j := AcceptedIsGenerated(leaves, x, i, proof);
      OwnProofLength(leaves, i, i);
      OwnBits(n, i);
      FullLengthIffNeverPromoted(n, i);
    }
    if |proof| == Depth(n) {
      FullLengthIsOwn(leaves, x, i, proof);
    }
  }

  lemma {:induction false} FullLengthIsOwn(leaves: seq<Term>, x: Term, i: nat, proof: seq<Term>)
    requires i < |leaves| && DistinctSecrets(leaves) && Climb(Free, x, i, proof) == Root(Free, leaves)
    requires |proof| == Depth(|leaves|)
    ensures x == leaves[i]
  {
    var n := |leaves|;
    hide Root, Climb, SameLowBits, Turns, Levels, SiblingPath, Pow2, Depth, Promoted, PathLength;
    AcceptedFillsExactly(leaves, x, i, proof);
    var l, j :| AcceptedAsNode(leaves, x, i, proof, l, j);
    assert Separate(leaves);
    LevelKeeps(leaves, l);
    ProofLength(Free, Levels(Free, leaves)[l], j);
    LeavesFirst(leaves);
    SiblingPathIsAuditPath(Free, leaves, j);
    ProofHasPathLength(Free, leaves, j);
    TurnsBelowIndex(n, j);
    DepthIsLogarithm(n);
    BitsDetermine(i, j, |proof|);
  }

  lemma {:induction false} LeavesFirst(leaves: seq<Term>)
    ensures Levels(Free, leaves)[0] == leaves
  {
  }

  // ---------- Which secrets work at which index ----------

  /** At every fill index below `parts`, the only one of the order's secrets that can be used is its own. */
  ghost predicate OnlyOwnSecrets(leaves: seq<Term>, parts: nat)
    requires 0 < parts < |leaves|
  {
    forall i: nat, j: nat, proof: seq<Term> ::
      i < parts && j < |leaves| && Climb(Free, leaves[j], i, proof) == Root(Free, leaves) ==> j == i
  }

  /** No secret of the order can be used at another's index exactly when parts + 1 is a power of two. */
  lemma {:induction false} OnlyOwnSecretsIff(leaves: seq<Term>, parts: nat)
    requires 0 < parts && |leaves| == parts + 1 && DistinctSecrets(leaves)
    ensures OnlyOwnSecrets(leaves, parts) <==> IsPow2(parts + 1)
  {
    hide Root, Climb, IsPow2;
    if IsPow2(parts + 1) {
      forall i: nat, j: nat, proof: seq<Term>
        | i < parts && j < |leaves| && Climb(Free, leaves[j], i, proof) == Root(Free, leaves)
        ensures j == i
      {
        PerfectTreeOwnSecrets(leaves, i, j, proof);
      }
    } else {
      var index, proof := OverflowSecretElsewhere(leaves, parts);
    }
  }

  lemma {:induction false} PerfectTreeOwnSecrets(leaves: seq<Term>, i: nat, j: nat, proof: seq<Term>)
    requires i < |leaves| && j < |leaves| && DistinctSecrets(leaves) && IsPow2(|leaves|)
    requires Climb(Free, leaves[j], i, proof) == Root(Free, leaves)
    ensures j == i
  {
    var p := |leaves| - 1;
    hide Root, Climb, Promoted, AllOnes, IsPow2, AuditPath, Depth;
    var k := AcceptedIsGenerated(leaves, leaves[j], i, proof);
    AllOnesIffSuccessorPow2(p);
    LastLeafNeverPromotedIff(p);
    if Promoted(p + 1, k) {
      PromotedOnlyWithLast(p, k);
    }
    ProofHasPathLength(Free, leaves, k);
    OwnSecretIffFullLength(leaves, leaves[j], i, proof);
  }
}
