/**
 The Merkle tree over the hashes of the partial-fill secrets.

 The program builds it level by level from the bottom and promotes an odd last node unchanged.
 The reference is the recursive tree head and audit path of sections 2.1 and 2.1.1 of RFC 6962
 with the 0x00/0x01 prefixes dropped. The pair hash `h` is an arbitrary function.
 */
module MerkleTree {
  import opened PowersOfTwo

  // ---------- The reference: recursive from the top ----------

  /** Section 2.1 of RFC 6962. */
  function Root<T>(h: (T, T) -> T, d: seq<T>): T
    requires |d| > 0
    decreases |d|
  {
    if |d| == 1 then d[0]
    else
      var k := Split(|d|);
      h(Root(h, d[..k]), Root(h, d[k..]))
  }

  /** Section 2.1.1 of RFC 6962: the audit path of leaf m, nearest sibling first. */
  function AuditPath<T>(h: (T, T) -> T, d: seq<T>, m: nat): seq<T>
    requires m < |d|
    decreases |d|
  {
    if |d| == 1 then []
    else
      var k := Split(|d|);
      if m < k
      then AuditPath(h, d[..k], m) + [Root(h, d[k..])]
      else AuditPath(h, d[k..], m - k) + [Root(h, d[..k])]
  }

  // ---------- The program's view: one level at a time ----------

  /** The level above `level`: neighbours are paired, an odd last node is promoted. */
  function Parents<T>(h: (T, T) -> T, level: seq<T>): (above: seq<T>)
    ensures |above| == (|level| + 1) / 2
    ensures forall j :: 0 <= j < |above| ==>
      above[j] == if 2 * j + 1 < |level| then h(level[2 * j], level[2 * j + 1]) else level[2 * j]
  {
    seq((|level| + 1) / 2, j requires 0 <= j < (|level| + 1) / 2 =>
      if 2 * j + 1 < |level| then h(level[2 * j], level[2 * j + 1]) else level[2 * j])
  }

  /** All levels of the tree, leaves first. */
  function Levels<T>(h: (T, T) -> T, leaves: seq<T>): (tree: seq<seq<T>>)
    ensures |tree| > 0 && tree[0] == leaves
    decreases |leaves|
  {
    if |leaves| <= 1 then [leaves] else [leaves] + Levels(h, Parents(h, leaves))
  }

  /** The node beside node i, as a sequence that is empty when there is none. */
  function Sibling<T>(level: seq<T>, i: nat): seq<T>
    requires i < |level|
  {
    if i % 2 == 1 then [level[i - 1]]
    else if i + 1 < |level| then [level[i + 1]]
    else []
  }

  /** The siblings met on the way up from leaf i; a promoted node contributes nothing. */
  function SiblingPath<T>(h: (T, T) -> T, level: seq<T>, i: nat): seq<T>
    requires i < |level|
    decreases |level|
  {
    if |level| == 1 then []
    else Sibling(level, i) + SiblingPath(h, Parents(h, level), i / 2)
  }

  // ---------- The two views agree ----------

  lemma {:induction false} SplitHalves(n: nat)
    requires n > 2
    ensures Split(n) % 2 == 0 && Split((n + 1) / 2) == Split(n) / 2
  {
  }

  /** Pairing commutes with cutting a level at an even position. */
  lemma {:induction false} ParentsCut<T>(h: (T, T) -> T, s: seq<T>, k: nat)
    requires k <= |s| && k % 2 == 0
    ensures Parents(h, s)[..k / 2] == Parents(h, s[..k])
    ensures Parents(h, s)[k / 2..] == Parents(h, s[k..])
  {
    var c := k / 2;
    var whole, left, right := Parents(h, s), Parents(h, s[..k]), Parents(h, s[k..]);
    forall j | 0 <= j < c
      ensures whole[..c][j] == left[j]
    {
      assert 2 * j + 1 < k;
    }
    forall j | 0 <= j < |right|
      ensures whole[c..][j] == right[j]
    {
      assert whole[c..][j] == whole[c + j];
      assert s[k..][2 * j] == s[2 * (c + j)];
    }
  }

  /** Going one level up does not change the tree head. */
  lemma {:induction false} RootOfParents<T>(h: (T, T) -> T, s: seq<T>)
    requires |s| > 0
    ensures Root(h, Parents(h, s)) == Root(h, s)
    decreases |s|
  {
    hide *;
    if |s| <= 2 {
      RootOfTwo(h, s);
    } else {
      var k, above := Split(|s|), Parents(h, s);
      SplitHalves(|s|);
      ParentsCut(h, s, k);
      RootOfParents(h, s[..k]);
      RootOfParents(h, s[k..]);
      RootAtNode(h, s, k);
      RootAtNode(h, above, k / 2);
    }
  }

  lemma {:induction false} RootOfTwo<T>(h: (T, T) -> T, s: seq<T>)
    requires 0 < |s| <= 2
    ensures Root(h, Parents(h, s)) == Root(h, s)
  {
    if |s| == 1 {
      assert Parents(h, s) == s;
    } else {
      assert Split(2) == 1;
      assert s[..1] == [s[0]] && s[1..] == [s[1]];
    }
  }

  /** The sibling of a node does not change when its level is cut at an even position. */
  lemma {:induction false} SiblingCut<T>(s: seq<T>, k: nat, i: nat)
    requires k <= |s| && k % 2 == 0 && i < |s|
    ensures i < k ==> Sibling(s[..k], i) == Sibling(s, i)
    ensures i >= k ==> Sibling(s[k..], i - k) == Sibling(s, i)
  {
  }

  /** The halves of the level above, and the heads they keep. */
  lemma {:induction false} HalvesAbove<T>(h: (T, T) -> T, s: seq<T>, k: nat) returns (above: seq<T>, c: nat)
    requires |s| > 2 && k == Split(|s|)
    ensures above == Parents(h, s) && |above| > 1 && c == Split(|above|) && k == 2 * c
    ensures above[..c] == Parents(h, s[..k]) && above[c..] == Parents(h, s[k..])
    ensures Root(h, above[..c]) == Root(h, s[..k]) && Root(h, above[c..]) == Root(h, s[k..])
  {
    SplitHalves(|s|);
    above, c := Parents(h, s), k / 2;
    ParentsCut(h, s, k);
    RootOfParents(h, s[..k]);
    RootOfParents(h, s[k..]);
  }

  /** One level of the audit path is the sibling at that level; a lone node has none. */
  lemma {:induction false} AuditPathStep<T>(h: (T, T) -> T, s: seq<T>, i: nat)
    requires i < |s|
    ensures AuditPath(h, s, i) == Sibling(s, i) + AuditPath(h, Parents(h, s), i / 2)
    decreases |s|
  {
    if |s| == 2 {
      assert Split(2) == 1;
      assert s[..1] == [s[0]] && s[1..] == [s[1]];
    } else if |s| > 2 {
      var k := Split(|s|);
      var above, c := HalvesAbove(h, s, k);
      SiblingCut(s, k, i);
      if i < k {
        AuditPathStep(h, s[..k], i);
        AuditPathGlueLeft(h, s, above, i, k, c, Parents(h, s[..k]));
      } else {
        AuditPathStep(h, s[k..], i - k);
        assert (i - k) / 2 == i / 2 - c;
        AuditPathGlueRight(h, s, above, i, k, c, Parents(h, s[k..]), (i - k) / 2);
      }
    }
  }

  lemma {:induction false} AuditPathGlueLeft<T>(h: (T, T) -> T, s: seq<T>, above: seq<T>, i: nat, k: nat, c: nat,
                                                left: seq<T>)
    requires 1 < |s| && k == Split(|s|) && i < k
    requires 1 < |above| && c == Split(|above|) && i / 2 < c && left == above[..c]
    requires Root(h, above[c..]) == Root(h, s[k..])
    requires AuditPath(h, s[..k], i) == Sibling(s, i) + AuditPath(h, left, i / 2)
    ensures AuditPath(h, s, i) == Sibling(s, i) + AuditPath(h, above, i / 2)
  {
    AppendAssociates(Sibling(s, i), AuditPath(h, left, i / 2), [Root(h, s[k..])]);
  }

  lemma {:induction false} RootAtNode<T>(h: (T, T) -> T, d: seq<T>, k: nat)
    requires 1 < |d| && k == Split(|d|)
    ensures Root(h, d) == h(Root(h, d[..k]), Root(h, d[k..]))
  {
    hide Split;
  }

  lemma {:induction false} AuditPathLeft<T>(h: (T, T) -> T, d: seq<T>, m: nat, k: nat)
    requires 1 < |d| && k == Split(|d|) && m < k
    ensures AuditPath(h, d, m) == AuditPath(h, d[..k], m) + [Root(h, d[k..])]
  {
    hide Split, Root;
  }

  lemma {:induction false} AuditPathRight<T>(h: (T, T) -> T, d: seq<T>, m: nat, k: nat)
    requires 1 < |d| && k == Split(|d|) && k <= m < |d|
    ensures AuditPath(h, d, m) == AuditPath(h, d[k..], m - k) + [Root(h, d[..k])]
  {
    hide Split, Root;
  }

  lemma {:induction false} AuditPathGlueRight<T>(h: (T, T) -> T, s: seq<T>, above: seq<T>, i: nat, k: nat, c: nat,
                                                 right: seq<T>, j: nat)
    requires 1 < |s| && k == Split(|s|) && k <= i < |s|
    requires 1 < |above| && c == Split(|above|) && c <= i / 2 < |above|
    requires Root(h, above[..c]) == Root(h, s[..k])
    requires right == above[c..] && j == i / 2 - c
    requires AuditPath(h, s[k..], i - k) == Sibling(s, i) + AuditPath(h, right, j)
    ensures AuditPath(h, s, i) == Sibling(s, i) + AuditPath(h, above, i / 2)
  {
    AuditPathRight(h, s, i, k);
    AuditPathRight(h, above, i / 2, c);
    AppendAssociates(Sibling(s, i), AuditPath(h, right, j), [Root(h, s[..k])]);
  }

  lemma {:induction false} AppendAssociates<T>(a: seq<T>, b: seq<T>, c: seq<T>)
    ensures (a + b) + c == a + (b + c)
  {
  }

  /** The bottom-up tree has the recursive tree head at its top. */
  lemma {:induction false} LevelsEndInRoot<T>(h: (T, T) -> T, leaves: seq<T>)
    requires |leaves| > 0
    ensures var tree := Levels(h, leaves); |tree[|tree| - 1]| == 1 && tree[|tree| - 1][0] == Root(h, leaves)
    decreases |leaves|
  {
    if |leaves| > 1 {
      LevelsEndInRoot(h, Parents(h, leaves));
      RootOfParents(h, leaves);
    }
  }

  /** The siblings collected on the way up are the audit path, in its order. */
  lemma {:induction false} SiblingPathIsAuditPath<T>(h: (T, T) -> T, s: seq<T>, i: nat)
    requires i < |s|
    ensures SiblingPath(h, s, i) == AuditPath(h, s, i)
    decreases |s|
  {
    if |s| > 1 {
      SiblingPathIsAuditPath(h, Parents(h, s), i / 2);
      AuditPathStep(h, s, i);
    }
  }

  // ---------- Size of tree and proofs ----------

  lemma {:induction false} LevelCount<T>(h: (T, T) -> T, leaves: seq<T>)
    requires |leaves| > 0
    ensures |Levels(h, leaves)| == Depth(|leaves|) + 1
    decreases |leaves|
  {
    if |leaves| > 1 {
      LevelCount(h, Parents(h, leaves));
    }
  }

  /** From any level on, the levels are those of the tree built over it; only the last one is a single node. */
  lemma {:induction false} LevelSuffix<T>(h: (T, T) -> T, leaves: seq<T>, l: nat)
    requires |leaves| > 0 && l < |Levels(h, leaves)|
    ensures |Levels(h, leaves)[l]| > 0
    ensures Levels(h, leaves)[l..] == Levels(h, Levels(h, leaves)[l])
    ensures l + 1 < |Levels(h, leaves)| ==>
              |Levels(h, leaves)[l]| > 1 && Levels(h, leaves)[l + 1] == Parents(h, Levels(h, leaves)[l])
    ensures l + 1 == |Levels(h, leaves)| ==> |Levels(h, leaves)[l]| == 1
    decreases |leaves|
  {
    var tree := Levels(h, leaves);
    if l > 0 {
      var above := Levels(h, Parents(h, leaves));
      LevelSuffix(h, Parents(h, leaves), l - 1);
      assert tree[l] == above[l - 1] && tree[l..] == above[l - 1..];
    } else {
      assert tree[0..] == tree;
    }
  }

  /** No proof is longer than the tree is deep, and the first leaf's proof has exactly that length. */
  lemma {:induction false} ProofLength<T>(h: (T, T) -> T, s: seq<T>, i: nat)
    requires i < |s|
    ensures |SiblingPath(h, s, i)| <= Depth(|s|)
    ensures i == 0 ==> |SiblingPath(h, s, i)| == Depth(|s|)
    decreases |s|
  {
    if |s| > 1 {
      var above := Parents(h, s);
      ProofLength(h, above, i / 2);
      assert Depth(|s|) == 1 + Depth(|above|);
      assert |Sibling(s, i)| <= 1;
    }
  }

  // ---------- The program ----------

  /** One pass of the build loop; `hashed` counts the pair hashes it made. */
  method NextLevel<T>(h: (T, T) -> T, currentLevel: seq<T>) returns (nextLevel: seq<T>, ghost hashed: nat)
    ensures nextLevel == Parents(h, currentLevel)
    ensures hashed == |currentLevel| - |nextLevel|
  {
    nextLevel, hashed := [], 0;
    var i := 0;
    while i < |currentLevel|
      invariant i % 2 == 0 && 0 <= i <= |currentLevel| + 1
      invariant |nextLevel| == i / 2
      invariant i / 2 <= |Parents(h, currentLevel)|
      invariant nextLevel == Parents(h, currentLevel)[..i / 2]
      invariant hashed == (if i <= |currentLevel| then i else |currentLevel|) - |nextLevel|
      decreases |currentLevel| - i
    {
      if i + 1 < |currentLevel| {
        nextLevel := nextLevel + [h(currentLevel[i], currentLevel[i + 1])];
        hashed := hashed + 1;
      } else {
        nextLevel := nextLevel + [currentLevel[i]];
      }
      i := i + 2;
    }
  }

  /** The bottom-up build: its last level is the RFC 6962 tree head, after exactly |leaves| - 1 pair hashes. */
  method BuildTree<T>(h: (T, T) -> T, leaves: seq<T>)
    returns (tree: seq<seq<T>>, merkleRoot: T, ghost pairHashes: nat)
    requires |leaves| > 0
    ensures tree == Levels(h, leaves)
    ensures merkleRoot == Root(h, leaves)
    ensures |tree| == Depth(|leaves|) + 1
    ensures pairHashes == |leaves| - 1
  {
    tree, pairHashes := [leaves], 0;
    var currentLevel := leaves;
    while |currentLevel| > 1
      invariant |currentLevel| > 0 && |tree| > 0 && tree[|tree| - 1] == currentLevel
      invariant tree[..|tree| - 1] + Levels(h, currentLevel) == Levels(h, leaves)
      invariant pairHashes == |leaves| - |currentLevel|
      decreases |currentLevel|
    {
      var nextLevel, hashed := NextLevel(h, currentLevel);
      ghost var below := tree[..|tree| - 1];
      tree := tree + [nextLevel];
      assert tree[..|tree| - 1] == below + [currentLevel];
      assert below + Levels(h, currentLevel) == (below + [currentLevel]) + Levels(h, nextLevel);
      pairHashes := pairHashes + hashed;
      currentLevel := nextLevel;
    }
    assert tree == tree[..|tree| - 1] + [currentLevel];
    LevelsEndInRoot(h, leaves);
    LevelCount(h, leaves);
    merkleRoot := tree[|tree| - 1][0];
  }

  /** The proof loop for leaf i over the finished tree. */
  method ProofForLeaf<T>(h: (T, T) -> T, leaves: seq<T>, tree: seq<seq<T>>, i: nat) returns (proof: seq<T>)
    requires i < |leaves| && tree == Levels(h, leaves)
    ensures proof == AuditPath(h, leaves, i)
    ensures |proof| <= Depth(|leaves|)
  {
    proof := [];
    var index := i;
    for level := 0 to |tree| - 1
      invariant 0 <= index < |tree[level]|
      invariant proof + SiblingPath(h, tree[level], index) == SiblingPath(h, leaves, i)
    {
      LevelSuffix(h, leaves, level);
      var levelNodes := tree[level];
      var isRightNode := index % 2 == 1;
      var siblingIndex := if isRightNode then index - 1 else index + 1;
      AppendAssociates(proof, Sibling(levelNodes, index), SiblingPath(h, tree[level + 1], index / 2));
      if siblingIndex < |levelNodes| {
        proof := proof + [levelNodes[siblingIndex]];
      } else {
        assert proof == proof + Sibling(levelNodes, index);
      }
      index := index / 2;
    }
    LevelSuffix(h, leaves, |tree| - 1);
    assert proof == proof + SiblingPath(h, tree[|tree| - 1], index);
    SiblingPathIsAuditPath(h, leaves, i);
    ProofLength(h, leaves, i);
  }
}
