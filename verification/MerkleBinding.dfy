/**
 What a Merkle root commits to.

 For an arbitrary pair hash, two different openings of one root exhibit a collision among the pairs
 that were actually hashed. For the free pair hash, which has no collisions at all, the fill indices
 at which the contract accepts a leaf are characterised exactly.
 */
module MerkleBinding {
  import opened PowersOfTwo
  import opened MerkleTree
  import opened MerkleVerifier

  // ---------- Any hash: a second opening is a collision ----------

  /** The pairs hashed while climbing. */
  function ClimbPairs<T>(h: (T, T) -> T, node: T, index: nat, proof: seq<T>): seq<(T, T)>
    decreases |proof|
  {
    if proof == [] then []
    else
      var pair := if index % 2 == 0 then (node, proof[0]) else (proof[0], node);
      [pair] + ClimbPairs(h, h(pair.0, pair.1), index / 2, proof[1..])
  }

  /** The pairs hashed while computing a tree head. */
  function TreePairs<T>(h: (T, T) -> T, d: seq<T>): seq<(T, T)>
    requires |d| > 0
    decreases |d|
  {
    if |d| == 1 then []
    else
      var k := Split(|d|);
      [(Root(h, d[..k]), Root(h, d[k..]))] + (TreePairs(h, d[..k]) + TreePairs(h, d[k..]))
  }

  /** Two different pairs, one from each list, have the same hash. */
  ghost predicate Collide<T>(h: (T, T) -> T, ps: seq<(T, T)>, qs: seq<(T, T)>) {
    exists i, j :: 0 <= i < |ps| && 0 <= j < |qs| && ps[i] != qs[j] && h(ps[i].0, ps[i].1) == h(qs[j].0, qs[j].1)
  }

  lemma {:induction false} CollideInContext<T>(h: (T, T) -> T, a: seq<(T, T)>, ps: seq<(T, T)>, c: seq<(T, T)>,
                            b: seq<(T, T)>, qs: seq<(T, T)>, d: seq<(T, T)>)
    requires Collide(h, ps, qs)
    ensures Collide(h, a + (ps + c), b + (qs + d))
  {
    var i, j :| 0 <= i < |ps| && 0 <= j < |qs| && ps[i] != qs[j] && h(ps[i].0, ps[i].1) == h(qs[j].0, qs[j].1);
    assert (a + (ps + c))[|a| + i] == ps[i] && (b + (qs + d))[|b| + j] == qs[j];
  }

  lemma {:induction false} CollideHead<T>(h: (T, T) -> T, p: (T, T), ps: seq<(T, T)>, q: (T, T), qs: seq<(T, T)>)
    requires p != q && h(p.0, p.1) == h(q.0, q.1)
    ensures Collide(h, [p] + ps, [q] + qs)
  {
    assert ([p] + ps)[0] == p && ([q] + qs)[0] == q;
  }

  /** At one fill index and proof length the contract accepts one leaf and one proof only. */
  lemma {:induction false} ProofBinding<T>(h: (T, T) -> T, x: T, p: seq<T>, y: T, q: seq<T>, index: nat)
    requires |p| == |q| && Climb(h, x, index, p) == Climb(h, y, index, q)
    ensures (x == y && p == q) || Collide(h, ClimbPairs(h, x, index, p), ClimbPairs(h, y, index, q))
    decreases |p|
  {
    if p != [] {
      var px := if index % 2 == 0 then (x, p[0]) else (p[0], x);
      var qy := if index % 2 == 0 then (y, q[0]) else (q[0], y);
      var x', y' := h(px.0, px.1), h(qy.0, qy.1);
      ProofBinding(h, x', p[1..], y', q[1..], index / 2);
      var ps, qs := ClimbPairs(h, x', index / 2, p[1..]), ClimbPairs(h, y', index / 2, q[1..]);
      if Collide(h, ps, qs) {
        CollideInContext(h, [px], ps, [], [qy], qs, []);
        assert [px] + (ps + []) == [px] + ps && [qy] + (qs + []) == [qy] + qs;
      } else if px != qy {
        CollideHead(h, px, ps, qy, qs);
      } else {
        assert p == [p[0]] + p[1..] && q == [q[0]] + q[1..];
      }
    }
  }

  /** Two leaf sequences of one length with one tree head are equal, or their trees collide. */
  lemma {:induction false} RootBinding<T>(h: (T, T) -> T, xs: seq<T>, ys: seq<T>)
    requires |xs| == |ys| > 0 && Root(h, xs) == Root(h, ys)
    ensures xs == ys || Collide(h, TreePairs(h, xs), TreePairs(h, ys))
    decreases |xs|
  {
    if |xs| > 1 {
      var k := Split(|xs|);
      if Root(h, xs[..k]) == Root(h, ys[..k]) && Root(h, xs[k..]) == Root(h, ys[k..]) {
        RootBinding(h, xs[..k], ys[..k]);
        RootBinding(h, xs[k..], ys[k..]);
      }
      RootBindingNode(h, xs, ys, k);
    }
  }

  lemma {:induction false} RootBindingNode<T>(h: (T, T) -> T, xs: seq<T>, ys: seq<T>, k: nat)
    requires 1 < |xs| == |ys| && k == Split(|xs|) && Root(h, xs) == Root(h, ys)
    requires Root(h, xs[..k]) == Root(h, ys[..k]) && Root(h, xs[k..]) == Root(h, ys[k..]) ==>
      && (xs[..k] == ys[..k] || Collide(h, TreePairs(h, xs[..k]), TreePairs(h, ys[..k])))
      && (xs[k..] == ys[k..] || Collide(h, TreePairs(h, xs[k..]), TreePairs(h, ys[k..])))
    ensures xs == ys || Collide(h, TreePairs(h, xs), TreePairs(h, ys))
  {
    var px, py := (Root(h, xs[..k]), Root(h, xs[k..])), (Root(h, ys[..k]), Root(h, ys[k..]));
    if px == py && xs[..k] == ys[..k] && xs[k..] == ys[k..] {
      assert xs == xs[..k] + xs[k..] && ys == ys[..k] + ys[k..];
    } else {
      CollideInNode(h, px, TreePairs(h, xs[..k]), TreePairs(h, xs[k..]), py, TreePairs(h, ys[..k]), TreePairs(h, ys[k..]));
    }
  }

  lemma {:induction false} CollideInNode<T>(h: (T, T) -> T, px: (T, T), lx: seq<(T, T)>, rx: seq<(T, T)>,
                         py: (T, T), ly: seq<(T, T)>, ry: seq<(T, T)>)
    requires h(px.0, px.1) == h(py.0, py.1)
    requires px != py || Collide(h, lx, ly) || Collide(h, rx, ry)
    ensures Collide(h, [px] + (lx + rx), [py] + (ly + ry))
  {
    if px != py {
      CollideHead(h, px, lx + rx, py, ly + ry);
    } else if Collide(h, lx, ly) {
      CollideInContext(h, [px], lx, rx, [py], ly, ry);
    } else {
      CollideInContext(h, [px] + lx, rx, [], [py] + ly, ry, []);
      assert ([px] + lx) + (rx + []) == [px] + (lx + rx) && ([py] + ly) + (ry + []) == [py] + (ly + ry);
    }
  }

  // ---------- Any hash: what a verifier that knows the leaf count accepts ----------

  /** The pairs hashed by the verifier that knows the leaf count, topmost first. */
  function PathPairs<T>(h: (T, T) -> T, leaf: T, m: nat, n: nat, path: seq<T>): seq<(T, T)>
    requires m < n
    decreases n
  {
    if n == 1 || path == [] then []
    else
      var k, last, rest := Split(n), path[|path| - 1], path[..|path| - 1];
      if m < k
      then [(RootFromPath(h, leaf, m, k, rest), last)] + PathPairs(h, leaf, m, k, rest)
      else [(last, RootFromPath(h, leaf, m - k, n - k, rest))] + PathPairs(h, leaf, m - k, n - k, rest)
  }

  /**
   For a given index and leaf count, promoted leaves included, the generated proof is the only one of its
   length that leads from any leaf to the root, and it leads there from its own leaf only; or two hashed pairs
   collide.
   */
  lemma {:induction false} PathBinding<T>(h: (T, T) -> T, d: seq<T>, m: nat, x: T, p: seq<T>)
    requires m < |d| && |p| == |AuditPath(h, d, m)| && RootFromPath(h, x, m, |d|, p) == Root(h, d)
    ensures (x == d[m] && p == AuditPath(h, d, m)) || Collide(h, PathPairs(h, x, m, |d|, p), TreePairs(h, d))
    decreases |d|
  {
    hide *;
    if |d| == 1 {
      PathOfOne(h, d, x, p);
    } else {
      var k := Split(|d|);
      if m < k {
        AuditPathLeft(h, d, m, k);
        var last, rest := p[|p| - 1], p[..|p| - 1];
        assert p == rest + [last];
        if RootFromPath(h, x, m, k, rest) == Root(h, d[..k]) {
          PathBinding(h, d[..k], m, x, rest);
        }
        PathBindingLeft(h, d, m, x, rest, last, k, d[..k]);
      } else {
        AuditPathRight(h, d, m, k);
        var last, rest := p[|p| - 1], p[..|p| - 1];
        assert p == rest + [last];
        if RootFromPath(h, x, m - k, |d| - k, rest) == Root(h, d[k..]) {
          PathBinding(h, d[k..], m - k, x, rest);
        }
        PathBindingRight(h, d, m, x, rest, last, k, d[k..]);
      }
    }
  }

  lemma {:induction false} PathOfOne<T>(h: (T, T) -> T, d: seq<T>, x: T, p: seq<T>)
    requires |d| == 1 && |p| == |AuditPath(h, d, 0)| && RootFromPath(h, x, 0, 1, p) == Root(h, d)
    ensures x == d[0] && p == AuditPath(h, d, 0)
  {
  }

  lemma {:induction false} PathBindingLeft<T>(h: (T, T) -> T, d: seq<T>, m: nat, x: T, rest: seq<T>, last: T,
                                              k: nat, half: seq<T>)
    requires 1 < |d| && k == Split(|d|) && m < k && half == d[..k]
    requires RootFromPath(h, x, m, |d|, rest + [last]) == Root(h, d)
    requires RootFromPath(h, x, m, k, rest) == Root(h, half) ==>
      (x == half[m] && rest == AuditPath(h, half, m)) || Collide(h, PathPairs(h, x, m, k, rest), TreePairs(h, half))
    ensures (x == d[m] && rest + [last] == AuditPath(h, d, m))
            || Collide(h, PathPairs(h, x, m, |d|, rest + [last]), TreePairs(h, d))
  {
    hide *;
    TreeAtNode(h, d, m, k);
    PathAtNode(h, x, m, |d|, rest, last, k);
    CollideAtNode(h, (RootFromPath(h, x, m, k, rest), last), PathPairs(h, x, m, k, rest),
                  (Root(h, half), Root(h, d[k..])), TreePairs(h, half), TreePairs(h, d[k..]), TreePairs(h, half));
  }

  lemma {:induction false} PathBindingRight<T>(h: (T, T) -> T, d: seq<T>, m: nat, x: T, rest: seq<T>, last: T,
                                               k: nat, half: seq<T>)
    requires 1 < |d| && k == Split(|d|) && k <= m < |d| && half == d[k..]
    requires RootFromPath(h, x, m, |d|, rest + [last]) == Root(h, d)
    requires RootFromPath(h, x, m - k, |d| - k, rest) == Root(h, half) ==>
      (x == half[m - k] && rest == AuditPath(h, half, m - k))
      || Collide(h, PathPairs(h, x, m - k, |d| - k, rest), TreePairs(h, half))
    ensures (x == d[m] && rest + [last] == AuditPath(h, d, m))
            || Collide(h, PathPairs(h, x, m, |d|, rest + [last]), TreePairs(h, d))
  {
    hide *;
    TreeAtNode(h, d, m, k);
    PathAtNode(h, x, m, |d|, rest, last, k);
    CollideAtNode(h, (last, RootFromPath(h, x, m - k, |d| - k, rest)), PathPairs(h, x, m - k, |d| - k, rest),
                  (Root(h, d[..k]), Root(h, half)), TreePairs(h, d[..k]), TreePairs(h, half), TreePairs(h, half));
  }

  /** A collision at a node, or between the pairs below it and those of one of its halves, is one in the tree. */
  lemma {:induction false} CollideAtNode<T>(h: (T, T) -> T, p: (T, T), inner: seq<(T, T)>, q: (T, T),
                                            ls: seq<(T, T)>, rs: seq<(T, T)>, half: seq<(T, T)>)
    requires h(p.0, p.1) == h(q.0, q.1) && (half == ls || half == rs)
    ensures p != q || Collide(h, inner, half) ==> Collide(h, [p] + inner, [q] + (ls + rs))
  {
    hide Collide;
    if p != q {
      CollideHead(h, p, inner, q, ls + rs);
    } else if Collide(h, inner, half) {
      if half == ls {
        CollideInContext(h, [p], inner, [], [q], ls, rs);
      } else {
        CollideInContext(h, [p], inner, [], [q] + ls, rs, []);
        assert ([q] + ls) + (rs + []) == [q] + (ls + rs);
      }
      assert [p] + (inner + []) == [p] + inner;
    }
  }

  lemma {:induction false} PairsAtNode<T>(h: (T, T) -> T, d: seq<T>, k: nat)
    requires 1 < |d| && k == Split(|d|)
    ensures TreePairs(h, d) == [(Root(h, d[..k]), Root(h, d[k..]))] + (TreePairs(h, d[..k]) + TreePairs(h, d[k..]))
  {
    hide Split, Root;
  }

  /** A node of the tree and the audit paths through it, in terms of its two halves. */
  lemma {:induction false} TreeAtNode<T>(h: (T, T) -> T, d: seq<T>, m: nat, k: nat)
    requires 1 < |d| && m < |d| && k == Split(|d|)
    ensures Root(h, d) == h(Root(h, d[..k]), Root(h, d[k..]))
    ensures TreePairs(h, d) == [(Root(h, d[..k]), Root(h, d[k..]))] + (TreePairs(h, d[..k]) + TreePairs(h, d[k..]))
    ensures m < k ==> AuditPath(h, d, m) == AuditPath(h, d[..k], m) + [Root(h, d[k..])]
    ensures m >= k ==> AuditPath(h, d, m) == AuditPath(h, d[k..], m - k) + [Root(h, d[..k])]
  {
    hide *;
    RootAtNode(h, d, k);
    PairsAtNode(h, d, k);
    if m < k {
      AuditPathLeft(h, d, m, k);
    } else {
      AuditPathRight(h, d, m, k);
    }
  }

  lemma {:induction false} PathAtNode<T>(h: (T, T) -> T, x: T, m: nat, n: nat, rest: seq<T>, last: T, k: nat)
    requires 1 < n && m < n && k == Split(n)
    ensures m < k ==>
      var node := RootFromPath(h, x, m, k, rest);
      && RootFromPath(h, x, m, n, rest + [last]) == h(node, last)
      && PathPairs(h, x, m, n, rest + [last]) == [(node, last)] + PathPairs(h, x, m, k, rest)
    ensures m >= k ==>
      var node := RootFromPath(h, x, m - k, n - k, rest);
      && RootFromPath(h, x, m, n, rest + [last]) == h(last, node)
      && PathPairs(h, x, m, n, rest + [last]) == [(last, node)] + PathPairs(h, x, m - k, n - k, rest)
  {
    hide Split;
    var path := rest + [last];
    assert path[..|path| - 1] == rest && path[|path| - 1] == last;
  }

  // ---------- The free hash ----------

  /** A value of the free pair hash: the hash of a secret, or a pair kept whole. */
  datatype Term = Atom(secret: nat) | Pair(left: Term, right: Term)

  function Free(l: Term, r: Term): Term {
    Pair(l, r)
  }

  function Atoms(t: Term): (a: set<nat>)
    ensures a != {}
  {
    match t
    case Atom(n) => {n}
    case Pair(l, r) => Atoms(l) + Atoms(r)
  }

  /** The leaves are hashes of distinct secrets. */
  ghost predicate DistinctSecrets(leaves: seq<Term>) {
    && (forall i :: 0 <= i < |leaves| ==> leaves[i].Atom?)
    && (forall i, j :: 0 <= i < j < |leaves| ==> leaves[i] != leaves[j])
  }

  ghost predicate Separate(level: seq<Term>) {
    forall i, j :: 0 <= i < j < |level| ==> Atoms(level[i]) !! Atoms(level[j])
  }

  lemma {:induction false} ParentsSeparate(level: seq<Term>)
    requires Separate(level)
    ensures Separate(Parents(Free, level))
  {
    var above := Parents(Free, level);
    forall i, j | 0 <= i < j < |above|
      ensures Atoms(above[i]) !! Atoms(above[j])
    {
      assert Atoms(above[i]) == Atoms(level[2 * i]) + Atoms(level[2 * i + 1]);
    }
  }

  /** The free hash can be climbed down again, even without knowing the turns. */
  lemma {:induction false} FreeClimbInjective(x: Term, i: nat, y: Term, j: nat, proof: seq<Term>)
    requires Climb(Free, x, i, proof) == Climb(Free, y, j, proof)
    ensures x == y
    decreases |proof|
  {
    if proof != [] {
      FreeClimbInjective(Join(Free, x, i, proof[0]), i / 2, Join(Free, y, j, proof[0]), j / 2, proof[1..]);
    }
  }

  predicate SameLowBits(i: nat, j: nat, bits: nat) {
    bits == 0 || (i % 2 == j % 2 && SameLowBits(i / 2, j / 2, bits - 1))
  }

  /** The contract accepts leaf i's generated proof exactly at the indices that end in its turns. */
  lemma {:induction false} AcceptedExactlyAtTurns(s: seq<Term>, i: nat, index: nat)
    requires i < |s| && Separate(s)
    ensures Climb(Free, s[i], index, SiblingPath(Free, s, i)) == Root(Free, s)
            <==> SameLowBits(index, Turns(|s|, i), PathLength(|s|, i))
    decreases |s|
  {
    if |s| > 1 {
      hide *;
      var above := Parents(Free, s);
      ParentsSeparate(s);
      RootOfParents(Free, s);
      if i == |s| - 1 && i % 2 == 0 {
        AcceptedExactlyAtTurns(above, i / 2, index);
        PromotionStep(Free, s, i);
      } else {
        AcceptedExactlyAtTurns(above, i / 2, index / 2);
        AcceptedAtItsTurns(Free, above, i / 2);
        SiblingDiffers(s, i);
        AcceptedFromAbove(s, above, i, index, Root(Free, above));
      }
    }
  }

  lemma {:induction false} AcceptedFromAbove(s: seq<Term>, above: seq<Term>, i: nat, index: nat, root: Term)
    requires 1 < |s| && i < |s| && above == Parents(Free, s) && !(i == |s| - 1 && i % 2 == 0)
    requires Sibling(s, i) != [] ==> Sibling(s, i)[0] != s[i]
    requires Climb(Free, above[i / 2], Turns(|above|, i / 2), SiblingPath(Free, above, i / 2)) == root
    requires Climb(Free, above[i / 2], index / 2, SiblingPath(Free, above, i / 2)) == root
             <==> SameLowBits(index / 2, Turns(|above|, i / 2), PathLength(|above|, i / 2))
    ensures Climb(Free, s[i], index, SiblingPath(Free, s, i)) == root
            <==> SameLowBits(index, Turns(|s|, i), PathLength(|s|, i))
  {
    hide *;
    SiblingPathStep(Free, s, i);
    JoinGivesParent(Free, s, i);
    TurnsStep(|s|, |above|, i);
    var turns, bits := Turns(|above|, i / 2), PathLength(|above|, i / 2);
    OneMoreTurn(s[i], Sibling(s, i)[0], above[i / 2], i, index, Turns(|s|, i), turns,
                SiblingPath(Free, above, i / 2), bits, root);
  }

  lemma {:induction false} OneMoreTurn(x: Term, sibling: Term, parent: Term, i: nat, index: nat,
                                       turns: nat, turnsAbove: nat, rest: seq<Term>, bits: nat, root: Term)
    requires parent == Join(Free, x, i, sibling) && x != sibling
    requires turns % 2 == i % 2 && turns / 2 == turnsAbove
    requires Climb(Free, parent, turnsAbove, rest) == root
    requires Climb(Free, parent, index / 2, rest) == root <==> SameLowBits(index / 2, turnsAbove, bits)
    ensures Climb(Free, x, index, [sibling] + rest) == root <==> SameLowBits(index, turns, bits + 1)
  {
    ClimbOne(Free, x, index, sibling, rest);
    var joined := Join(Free, x, index, sibling);
    if index % 2 != i % 2 && Climb(Free, joined, index / 2, rest) == root {
      FreeClimbInjective(joined, index / 2, parent, turnsAbove, rest);
    }
  }

  lemma {:induction false} SiblingDiffers(s: seq<Term>, i: nat)
    requires i < |s| && Separate(s)
    ensures Sibling(s, i) != [] ==> Sibling(s, i)[0] != s[i]
  {
    var j := if i % 2 == 1 then i - 1 else i + 1;
    if j < |s| {
      assert Sibling(s, i)[0] == s[j];
      assert Atoms(s[i]) !! Atoms(s[j]);
    }
  }

  lemma {:induction false} OwnBits(n: nat, i: nat)
    requires i < n
    ensures SameLowBits(i, Turns(n, i), PathLength(n, i)) <==> !Promoted(n, i)
    decreases n
  {
    if n > 1 {
      OwnBits((n + 1) / 2, i / 2);
      if i < n - 1 || i % 2 == 1 {
        TurnsStep(n, (n + 1) / 2, i);
      } else {
        LastLeafTurnsRight((n + 1) / 2);
        assert i / 2 == (n + 1) / 2 - 1;
      }
    }
  }

  // ---------- The two ways a tree of parts + 1 leaves can be used ----------

  /** The contract accepts leaf i at its own fill index. */
  predicate AcceptedAtOwnIndex(leaves: seq<Term>, i: nat)
    requires i < |leaves|
  {
    Climb(Free, leaves[i], i, AuditPath(Free, leaves, i)) == Root(Free, leaves)
  }

  lemma {:induction false} AcceptedAtOwnIndexIff(leaves: seq<Term>, i: nat)
    requires i < |leaves| && DistinctSecrets(leaves)
    ensures AcceptedAtOwnIndex(leaves, i) <==> !Promoted(|leaves|, i)
  {
    SiblingPathIsAuditPath(Free, leaves, i);
    assert Separate(leaves);
    AcceptedExactlyAtTurns(leaves, i, i);
    OwnBits(|leaves|, i);
  }

  /** Every fill index below `parts` can be used exactly when `parts` is a difference of powers of two. */
  lemma {:induction false} UsableIndicesAcceptedIff(leaves: seq<Term>, parts: nat)
    requires |leaves| == parts + 1 && DistinctSecrets(leaves)
    ensures (forall i :: 0 <= i < parts ==> AcceptedAtOwnIndex(leaves, i))
            <==> exists a: nat, b: nat :: b <= a && parts == Pow2(a) - Pow2(b)
  {
    forall i | 0 <= i < parts
      ensures AcceptedAtOwnIndex(leaves, i) <==> !Promoted(|leaves|, i)
    {
      AcceptedAtOwnIndexIff(leaves, i);
    }
    OthersNeverPromotedIff(parts);
    OnesThenZerosIffDifference(parts);
  }

  /** Every secret, the overflow one included, can be used exactly when the tree is perfect. */
  lemma {:induction false} AllSecretsAcceptedIff(leaves: seq<Term>)
    requires |leaves| > 0 && DistinctSecrets(leaves)
    ensures (forall i :: 0 <= i < |leaves| ==> AcceptedAtOwnIndex(leaves, i)) <==> IsPow2(|leaves|)
  {
    var p := |leaves| - 1;
    forall i | 0 <= i < |leaves|
      ensures AcceptedAtOwnIndex(leaves, i) <==> !Promoted(|leaves|, i)
    {
      AcceptedAtOwnIndexIff(leaves, i);
    }
    LastLeafNeverPromotedIff(p);
    AllOnesIffSuccessorPow2(p);
    if !Promoted(p + 1, p) {
      forall i | 0 <= i < |leaves|
        ensures AcceptedAtOwnIndex(leaves, i)
      {
        if Promoted(p + 1, i) {
          PromotedOnlyWithLast(p, i);
        }
      }
    } else {
      assert !AcceptedAtOwnIndex(leaves, p);
    }
  }

  /** Off a power of two, the overflow secret is accepted at a fill index that belongs to another secret. */
  lemma {:induction false} OverflowSecretElsewhere(leaves: seq<Term>, parts: nat) returns (index: nat, proof: seq<Term>)
    requires 0 < parts && |leaves| == parts + 1 && DistinctSecrets(leaves) && !IsPow2(parts + 1)
    ensures index < parts && leaves[index] != leaves[parts]
    ensures Climb(Free, leaves[parts], index, proof) == Root(Free, leaves)
  {
    hide Root, SiblingPath, Turns, Promoted, Climb, AllOnes, IsPow2;
    AllOnesIffSuccessorPow2(parts);
    LastLeafNeverPromotedIff(parts);
    TurnsBelowIndex(parts + 1, parts);
    AcceptedAtItsTurns(Free, leaves, parts);
    index, proof := Turns(parts + 1, parts), SiblingPath(Free, leaves, parts);
  }
}
