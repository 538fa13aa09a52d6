/**
 The same results for the hash that the contract uses.

 The contract hashes pairs of 32-byte words with keccak256, and the secrets are 32-byte words too. Nothing is assumed of
 keccak256 but the length of its results. What holds for the free hash holds here, or else two different byte strings
 among those actually hashed have the same hash.
 */
module MerkleKeccak {
  import opened Bytes
  import opened PowersOfTwo
  import opened MerkleTree
  import opened MerkleVerifier
  import opened MerkleBinding
  import opened MerkleAcceptance
  import opened PartialFillSecrets

  predicate Word(b: Bytes) {
    |b| == 32
  }

  ghost predicate Words(bs: seq<Bytes>) {
    forall i :: 0 <= i < |bs| ==> Word(bs[i])
  }

  ghost predicate HashesToWords(keccak: Bytes -> Bytes) {
    forall s :: Word(keccak(s))
  }

  ghost predicate Distinct(secrets: seq<Bytes>) {
    forall i, j :: 0 <= i < j < |secrets| ==> secrets[i] != secrets[j]
  }

  /** Two different strings of this set have the same hash. */
  ghost predicate Collides(keccak: Bytes -> Bytes, strings: set<Bytes>) {
    exists a, b :: a in strings && b in strings && a != b && keccak(a) == keccak(b)
  }

  lemma {:induction false} CollidesInMore(keccak: Bytes -> Bytes, some: set<Bytes>, more: set<Bytes>)
    requires Collides(keccak, some) && some <= more
    ensures Collides(keccak, more)
  {
    var a, b :| a in some && b in some && a != b && keccak(a) == keccak(b);
    assert a in more && b in more;
  }

  lemma {:induction false} TwoCollide(keccak: Bytes -> Bytes, a: Bytes, b: Bytes, strings: set<Bytes>)
    requires a in strings && b in strings && a != b && keccak(a) == keccak(b)
    ensures Collides(keccak, strings)
  {
  }

  // ---------- From terms to words ----------

  /** The term mentions only the first n secrets. */
  predicate Over(t: Term, n: nat) {
    match t
    case Atom(k) => k < n
    case Pair(l, r) => Over(l, n) && Over(r, n)
  }

  /** The word a term stands for. */
  function Eval(keccak: Bytes -> Bytes, secrets: seq<Bytes>, t: Term): Bytes
    requires Over(t, |secrets|)
  {
    match t
    case Atom(k) => keccak(secrets[k])
    case Pair(l, r) => keccak(Eval(keccak, secrets, l) + Eval(keccak, secrets, r))
  }

  /** The strings hashed on the way. */
  function Inputs(keccak: Bytes -> Bytes, secrets: seq<Bytes>, t: Term): set<Bytes>
    requires Over(t, |secrets|)
  {
    match t
    case Atom(k) => {secrets[k]}
    case Pair(l, r) =>
      {Eval(keccak, secrets, l) + Eval(keccak, secrets, r)} + Inputs(keccak, secrets, l) + Inputs(keccak, secrets, r)
  }

  /** The string hashed at one step of a climb. */
  function Joined(x: Bytes, index: nat, sibling: Bytes): Bytes {
    if index % 2 == 0 then x + sibling else sibling + x
  }

  /** The strings hashed by a climb. */
  function ClimbInputs(keccak: Bytes -> Bytes, x: Bytes, index: nat, proof: seq<Bytes>): set<Bytes>
    decreases |proof|
  {
    if proof == [] then {}
    else {Joined(x, index, proof[0])} + ClimbInputs(keccak, keccak(Joined(x, index, proof[0])), index / 2, proof[1..])
  }

  lemma {:induction false} EvalIsWord(keccak: Bytes -> Bytes, secrets: seq<Bytes>, t: Term)
    requires HashesToWords(keccak) && Over(t, |secrets|)
    ensures Word(Eval(keccak, secrets, t))
  {
  }

  ghost predicate AllOver(ts: seq<Term>, n: nat) {
    forall i :: 0 <= i < |ts| ==> Over(ts[i], n)
  }

  /** The words are those that the terms stand for. */
  ghost predicate Evaluates(keccak: Bytes -> Bytes, secrets: seq<Bytes>, ts: seq<Term>, bs: seq<Bytes>) {
    |ts| == |bs| && AllOver(ts, |secrets|) && forall i :: 0 <= i < |ts| ==> bs[i] == Eval(keccak, secrets, ts[i])
  }

  /** Pairing words is hashing their concatenation. */
  lemma {:induction false} EvalPair(keccak: Bytes -> Bytes, secrets: seq<Bytes>, l: Term, r: Term)
    requires Over(l, |secrets|) && Over(r, |secrets|)
    ensures Eval(keccak, secrets, Free(l, r)) == PairHash(keccak)(Eval(keccak, secrets, l), Eval(keccak, secrets, r))
  {
  }

  /** The root of the words is the word of the root. */
  lemma {:induction false} EvalRoot(keccak: Bytes -> Bytes, secrets: seq<Bytes>, ts: seq<Term>, bs: seq<Bytes>)
    requires |ts| > 0 && Evaluates(keccak, secrets, ts, bs)
    ensures Over(Root(Free, ts), |secrets|) && Root(PairHash(keccak), bs) == Eval(keccak, secrets, Root(Free, ts))
    decreases |ts|
  {
    if |ts| > 1 {
      var k := Split(|ts|);
      assert Evaluates(keccak, secrets, ts[..k], bs[..k]) && Evaluates(keccak, secrets, ts[k..], bs[k..]);
      hide Root, Split, Eval, Over, Evaluates;
      EvalRoot(keccak, secrets, ts[..k], bs[..k]);
      EvalRoot(keccak, secrets, ts[k..], bs[k..]);
      RootAtNode(Free, ts, k);
      RootAtNode(PairHash(keccak), bs, k);
      OverPair(Root(Free, ts[..k]), Root(Free, ts[k..]), |secrets|);
      EvalPair(keccak, secrets, Root(Free, ts[..k]), Root(Free, ts[k..]));
    }
  }

  lemma {:induction false} OverPair(l: Term, r: Term, n: nat)
    ensures Over(Free(l, r), n) <==> Over(l, n) && Over(r, n)
  {
  }

  /** The secrets as terms: leaf i is the hash of secret i. */
  function SecretTerms(n: nat): (ts: seq<Term>)
    ensures |ts| == n && forall i :: 0 <= i < n ==> ts[i] == Atom(i)
  {
    seq(n, i requires 0 <= i < n => Atom(i))
  }

  lemma {:induction false} SecretTermsEvaluate(keccak: Bytes -> Bytes, secrets: seq<Bytes>)
    ensures DistinctSecrets(SecretTerms(|secrets|))
    ensures Evaluates(keccak, secrets, SecretTerms(|secrets|), Leaves(keccak, secrets))
  {
  }

  /** The root that the program generates for these secrets. */
  function GeneratedRoot(keccak: Bytes -> Bytes, secrets: seq<Bytes>): Bytes
    requires |secrets| > 0
  {
    Root(PairHash(keccak), Leaves(keccak, secrets))
  }

  function RootTerm(n: nat): Term
    requires n > 0
  {
    Root(Free, SecretTerms(n))
  }

  lemma {:induction false} RootTermEvaluates(keccak: Bytes -> Bytes, secrets: seq<Bytes>)
    requires |secrets| > 0
    ensures Over(RootTerm(|secrets|), |secrets|)
    ensures GeneratedRoot(keccak, secrets) == Eval(keccak, secrets, RootTerm(|secrets|))
  {
    hide Root;
    SecretTermsEvaluate(keccak, secrets);
    EvalRoot(keccak, secrets, SecretTerms(|secrets|), Leaves(keccak, secrets));
  }

  // ---------- From words back to terms ----------

  /** What is joined on the way up is part of the result, and was hashed for it. */
  lemma {:induction false} ClimbContains(keccak: Bytes -> Bytes, secrets: seq<Bytes>, x: Term, index: nat, proof: seq<Term>)
    requires Over(Climb(Free, x, index, proof), |secrets|)
    ensures Over(x, |secrets|) && AllOver(proof, |secrets|)
    ensures Inputs(keccak, secrets, x) <= Inputs(keccak, secrets, Climb(Free, x, index, proof))
    decreases |proof|
  {
    if proof != [] {
      var y := Join(Free, x, index, proof[0]);
      ClimbContains(keccak, secrets, y, index / 2, proof[1..]);
      assert Over(y, |secrets|);
      assert proof == [proof[0]] + proof[1..];
    }
  }

  /** A climb over terms that stands for a climb over words. */
  ghost predicate Lifts(keccak: Bytes -> Bytes, secrets: seq<Bytes>, t: Term, x: Bytes, index: nat, proof: seq<Bytes>,
                        y: Term, path: seq<Term>)
  {
    && Over(y, |secrets|) && x == Eval(keccak, secrets, y) && Evaluates(keccak, secrets, path, proof)
    && Climb(Free, y, index, path) == t
  }

  /** Two words side by side can be told apart again. */
  lemma {:induction false} SplitWords(a: Bytes, b: Bytes, c: Bytes, d: Bytes)
    requires Word(a) && Word(c) && a + b == c + d
    ensures a == c && b == d
  {
    assert a == (a + b)[..32] && c == (c + d)[..32];
    assert b == (a + b)[32..] && d == (c + d)[32..];
  }

  /** A climb over words to the word of a term is a climb over terms to that term, or strings hashed for them collide. */
  lemma {:induction false} Lift(keccak: Bytes -> Bytes, secrets: seq<Bytes>, t: Term, x: Bytes, index: nat,
                                proof: seq<Bytes>)
    requires HashesToWords(keccak) && Words(secrets) && Word(x) && Words(proof) && Over(t, |secrets|)
    requires Climb(PairHash(keccak), x, index, proof) == Eval(keccak, secrets, t)
    ensures (exists y, path :: Lifts(keccak, secrets, t, x, index, proof, y, path))
            || Collides(keccak, ClimbInputs(keccak, x, index, proof) + Inputs(keccak, secrets, t))
    decreases |proof|
  {
    if proof == [] {
      LiftWhere(keccak, secrets, t, x, index, proof);
    } else {
      var joined, rest := Joined(x, index, proof[0]), proof[1..];
      var x1 := keccak(joined);
      assert Words(rest) && Climb(PairHash(keccak), x1, index / 2, rest) == Climb(PairHash(keccak), x, index, proof);
      var inner := ClimbInputs(keccak, x1, index / 2, rest) + Inputs(keccak, secrets, t);
      hide Climb, Collides, Eval, Inputs, Lifts, Words;
      Lift(keccak, secrets, t, x1, index / 2, rest);
      if Collides(keccak, inner) {
        CollidesInMore(keccak, inner, ClimbInputs(keccak, x, index, proof) + Inputs(keccak, secrets, t));
      } else {
        var y1, path1 :| Lifts(keccak, secrets, t, x1, index / 2, rest, y1, path1);
        LiftStep(keccak, secrets, t, x, index, proof, y1, path1);
      }
    }
  }

  lemma {:induction false} LiftWhere(keccak: Bytes -> Bytes, secrets: seq<Bytes>, t: Term, x: Bytes, index: nat,
                                     proof: seq<Bytes>)
    requires Over(t, |secrets|) && proof == [] && Climb(PairHash(keccak), x, index, proof) == Eval(keccak, secrets, t)
    ensures exists y, path :: Lifts(keccak, secrets, t, x, index, proof, y, path)
  {
    assert Lifts(keccak, secrets, t, x, index, proof, t, []);
  }

  lemma {:induction false} LiftStep(keccak: Bytes -> Bytes, secrets: seq<Bytes>, t: Term, x: Bytes, index: nat,
                                    proof: seq<Bytes>, y1: Term, path1: seq<Term>)
    requires HashesToWords(keccak) && Words(secrets) && Word(x) && Words(proof) && Over(t, |secrets|) && proof != []
    requires Lifts(keccak, secrets, t, keccak(Joined(x, index, proof[0])), index / 2, proof[1..], y1, path1)
    ensures (exists y, path :: Lifts(keccak, secrets, t, x, index, proof, y, path))
            || Collides(keccak, ClimbInputs(keccak, x, index, proof) + Inputs(keccak, secrets, t))
  {
    var joined := Joined(x, index, proof[0]);
    ClimbContains(keccak, secrets, y1, index / 2, path1);
    assert joined in ClimbInputs(keccak, x, index, proof);
    var strings := ClimbInputs(keccak, x, index, proof) + Inputs(keccak, secrets, t);
    match y1
    case Atom(k) =>
      assert secrets[k] in strings && keccak(secrets[k]) == keccak(joined) && |secrets[k]| != |joined|;
      TwoCollide(keccak, joined, secrets[k], strings);
    case Pair(l, r) =>
      var el, er := Eval(keccak, secrets, l), Eval(keccak, secrets, r);
      assert el + er in strings && keccak(el + er) == keccak(joined);
      if joined != el + er {
        TwoCollide(keccak, joined, el + er, strings);
      } else {
        LiftJoin(keccak, secrets, t, x, index, proof, l, r, path1);
      }
  }

  lemma {:induction false} LiftJoin(keccak: Bytes -> Bytes, secrets: seq<Bytes>, t: Term, x: Bytes, index: nat,
                                    proof: seq<Bytes>, l: Term, r: Term, path1: seq<Term>)
    requires HashesToWords(keccak) && Word(x) && Words(proof) && proof != []
    requires Over(l, |secrets|) && Over(r, |secrets|) && Evaluates(keccak, secrets, path1, proof[1..])
    requires Climb(Free, Pair(l, r), index / 2, path1) == t
    requires Joined(x, index, proof[0]) == Eval(keccak, secrets, l) + Eval(keccak, secrets, r)
    ensures exists y, path :: Lifts(keccak, secrets, t, x, index, proof, y, path)
  {
    EvalIsWord(keccak, secrets, l);
    var y, s := if index % 2 == 0 then l else r, if index % 2 == 0 then r else l;
    var path := [s] + path1;
    if index % 2 == 0 {
      SplitWords(x, proof[0], Eval(keccak, secrets, l), Eval(keccak, secrets, r));
    } else {
      SplitWords(proof[0], x, Eval(keccak, secrets, l), Eval(keccak, secrets, r));
    }
    ClimbOne(Free, y, index, s, path1);
    hide Eval, Climb;
    forall i | 0 <= i < |path|
      ensures Over(path[i], |secrets|) && proof[i] == Eval(keccak, secrets, path[i])
    {
      assert i > 0 ==> path[i] == path1[i - 1] && proof[i] == proof[1..][i - 1];
    }
    assert Lifts(keccak, secrets, t, x, index, proof, y, path);
  }

  /** Terms that stand for one word are equal, or strings hashed for them collide. */
  lemma {:induction false} EvalInjective(keccak: Bytes -> Bytes, secrets: seq<Bytes>, t: Term, u: Term)
    requires HashesToWords(keccak) && Words(secrets) && Distinct(secrets) && Over(t, |secrets|) && Over(u, |secrets|)
    requires Eval(keccak, secrets, t) == Eval(keccak, secrets, u)
    ensures t == u || Collides(keccak, Inputs(keccak, secrets, t) + Inputs(keccak, secrets, u))
    decreases t
  {
    var a, b := InputOf(keccak, secrets, t), InputOf(keccak, secrets, u);
    var all := Inputs(keccak, secrets, t) + Inputs(keccak, secrets, u);
    if a != b {
      TwoCollide(keccak, a, b, all);
    } else if t.Pair? && u.Pair? {
      EvalIsWord(keccak, secrets, t.left);
      EvalIsWord(keccak, secrets, u.left);
      SplitWords(Eval(keccak, secrets, t.left), Eval(keccak, secrets, t.right),
                 Eval(keccak, secrets, u.left), Eval(keccak, secrets, u.right));
      EvalInjective(keccak, secrets, t.left, u.left);
      EvalInjective(keccak, secrets, t.right, u.right);
      if t.left != u.left {
        CollidesInMore(keccak, Inputs(keccak, secrets, t.left) + Inputs(keccak, secrets, u.left), all);
      } else if t.right != u.right {
        CollidesInMore(keccak, Inputs(keccak, secrets, t.right) + Inputs(keccak, secrets, u.right), all);
      }
    } else if t.Atom? != u.Atom? {
      MixedLengths(keccak, secrets, if t.Atom? then t else u, if t.Atom? then u else t);
    }
  }

  /** The last string hashed for a term. */
  function InputOf(keccak: Bytes -> Bytes, secrets: seq<Bytes>, t: Term): (s: Bytes)
    requires Over(t, |secrets|)
    ensures s in Inputs(keccak, secrets, t) && Eval(keccak, secrets, t) == keccak(s)
  {
    match t
    case Atom(k) => secrets[k]
    case Pair(l, r) => Eval(keccak, secrets, l) + Eval(keccak, secrets, r)
  }

  lemma {:induction false} MixedLengths(keccak: Bytes -> Bytes, secrets: seq<Bytes>, atom: Term, pair: Term)
    requires HashesToWords(keccak) && Words(secrets) && Over(atom, |secrets|) && Over(pair, |secrets|)
    requires atom.Atom? && pair.Pair?
    ensures InputOf(keccak, secrets, atom) != InputOf(keccak, secrets, pair)
  {
    EvalIsWord(keccak, secrets, pair.left);
    EvalIsWord(keccak, secrets, pair.right);
    assert |InputOf(keccak, secrets, atom)| == 32 && |InputOf(keccak, secrets, pair)| == 64;
  }

  // ---------- The tree over words ----------

  lemma {:induction false} EvaluatesUnique(keccak: Bytes -> Bytes, secrets: seq<Bytes>, ts: seq<Term>,
                                           bs: seq<Bytes>, cs: seq<Bytes>)
    requires Evaluates(keccak, secrets, ts, bs) && Evaluates(keccak, secrets, ts, cs)
    ensures bs == cs
  {
  }

  lemma {:induction false} EvalParents(keccak: Bytes -> Bytes, secrets: seq<Bytes>, ts: seq<Term>, bs: seq<Bytes>)
    requires Evaluates(keccak, secrets, ts, bs)
    ensures Evaluates(keccak, secrets, Parents(Free, ts), Parents(PairHash(keccak), bs))
  {
    var above, aboveWords := Parents(Free, ts), Parents(PairHash(keccak), bs);
    hide Parents;
    forall j | 0 <= j < |above|
      ensures Over(above[j], |secrets|) && aboveWords[j] == Eval(keccak, secrets, above[j])
    {
      if 2 * j + 1 < |ts| {
        assert Over(ts[2 * j], |secrets|) && Over(ts[2 * j + 1], |secrets|);
        EvalPair(keccak, secrets, ts[2 * j], ts[2 * j + 1]);
      } else {
        assert Over(ts[2 * j], |secrets|);
      }
    }
  }

  lemma {:induction false} EvalLevels(keccak: Bytes -> Bytes, secrets: seq<Bytes>, ts: seq<Term>, bs: seq<Bytes>, l: nat)
    requires |ts| > 0 && Evaluates(keccak, secrets, ts, bs) && l < |Levels(Free, ts)|
    ensures l < |Levels(PairHash(keccak), bs)|
    ensures Evaluates(keccak, secrets, Levels(Free, ts)[l], Levels(PairHash(keccak), bs)[l])
    decreases l
  {
    hide Levels, Evaluates;
    SameLength(keccak, secrets, ts, bs);
    LevelCount(Free, ts);
    LevelCount(PairHash(keccak), bs);
    if l == 0 {
      BottomLevel(Free, ts);
      BottomLevel(PairHash(keccak), bs);
    } else {
      EvalLevels(keccak, secrets, ts, bs, l - 1);
      LevelSuffix(Free, ts, l - 1);
      LevelSuffix(PairHash(keccak), bs, l - 1);
      EvalParents(keccak, secrets, Levels(Free, ts)[l - 1], Levels(PairHash(keccak), bs)[l - 1]);
    }
  }

  lemma {:induction false} SameLength(keccak: Bytes -> Bytes, secrets: seq<Bytes>, ts: seq<Term>, bs: seq<Bytes>)
    requires Evaluates(keccak, secrets, ts, bs)
    ensures |ts| == |bs|
  {
  }

  lemma {:induction false} BottomLevel<T>(h: (T, T) -> T, leaves: seq<T>)
    ensures Levels(h, leaves)[0] == leaves
  {
  }

  lemma {:induction false} EvalSiblings(keccak: Bytes -> Bytes, secrets: seq<Bytes>, ts: seq<Term>, bs: seq<Bytes>, i: nat)
    requires Evaluates(keccak, secrets, ts, bs) && i < |ts|
    ensures Evaluates(keccak, secrets, SiblingPath(Free, ts, i), SiblingPath(PairHash(keccak), bs, i))
    decreases |ts|
  {
    if |ts| > 1 {
      EvalParents(keccak, secrets, ts, bs);
      EvalSiblings(keccak, secrets, Parents(Free, ts), Parents(PairHash(keccak), bs), i / 2);
      EvalSibling(keccak, secrets, ts, bs, i);
      hide Evaluates, SiblingPath, Parents;
      SiblingsUnfold(Free, ts, i);
      SiblingsUnfold(PairHash(keccak), bs, i);
      EvaluatesConcat(keccak, secrets, Sibling(ts, i), Sibling(bs, i), SiblingPath(Free, Parents(Free, ts), i / 2),
                      SiblingPath(PairHash(keccak), Parents(PairHash(keccak), bs), i / 2));
    }
  }

  lemma {:induction false} SiblingsUnfold<T>(h: (T, T) -> T, level: seq<T>, i: nat)
    requires 1 < |level| && i < |level|
    ensures SiblingPath(h, level, i) == Sibling(level, i) + SiblingPath(h, Parents(h, level), i / 2)
  {
  }

  lemma {:induction false} EvalSibling(keccak: Bytes -> Bytes, secrets: seq<Bytes>, ts: seq<Term>, bs: seq<Bytes>, i: nat)
    requires Evaluates(keccak, secrets, ts, bs) && i < |ts|
    ensures Evaluates(keccak, secrets, Sibling(ts, i), Sibling(bs, i))
  {
  }

  lemma {:induction false} EvaluatesConcat(keccak: Bytes -> Bytes, secrets: seq<Bytes>, ts: seq<Term>, bs: seq<Bytes>,
                                           us: seq<Term>, cs: seq<Bytes>)
    requires Evaluates(keccak, secrets, ts, bs) && Evaluates(keccak, secrets, us, cs)
    ensures Evaluates(keccak, secrets, ts + us, bs + cs)
  {
  }

  // ---------- What the contract accepts ----------

  /** The shape of what the program and the contract handle: different secrets, and words everywhere. */
  ghost predicate InShape(keccak: Bytes -> Bytes, secrets: seq<Bytes>, x: Bytes, proof: seq<Bytes>) {
    && |secrets| > 0 && HashesToWords(keccak) && Words(secrets) && Distinct(secrets)
    && Word(x) && Words(proof)
  }

  predicate Accepts(keccak: Bytes -> Bytes, secrets: seq<Bytes>, x: Bytes, index: nat, proof: seq<Bytes>)
    requires |secrets| > 0
  {
    Climb(PairHash(keccak), x, index, proof) == GeneratedRoot(keccak, secrets)
  }

  lemma {:induction false} RootTermOver(n: nat)
    requires n > 0
    ensures Over(RootTerm(n), n)
  {
    RootTermEvaluates(s => s, seq(n, _ => []));
  }

  /** Every string hashed to build the tree or to check the proof. */
  function Hashed(keccak: Bytes -> Bytes, secrets: seq<Bytes>, x: Bytes, index: nat, proof: seq<Bytes>): set<Bytes>
    requires |secrets| > 0
  {
    RootTermOver(|secrets|);
    ClimbInputs(keccak, x, index, proof) + Inputs(keccak, secrets, RootTerm(|secrets|))
  }

  /** The accepted hashlock and proof stand for terms that the free hash accepts. */
  ghost predicate Lifted(keccak: Bytes -> Bytes, secrets: seq<Bytes>, x: Bytes, index: nat, proof: seq<Bytes>, y: Term,
                         path: seq<Term>)
    requires |secrets| > 0
  {
    Lifts(keccak, secrets, RootTerm(|secrets|), x, index, proof, y, path)
  }

  lemma {:induction false} AcceptedLifts(keccak: Bytes -> Bytes, secrets: seq<Bytes>, x: Bytes, index: nat,
                                         proof: seq<Bytes>)
    requires InShape(keccak, secrets, x, proof) && Accepts(keccak, secrets, x, index, proof)
    ensures (exists y, path :: Lifted(keccak, secrets, x, index, proof, y, path))
            || Collides(keccak, Hashed(keccak, secrets, x, index, proof))
  {
    hide RootTerm, Climb, Lifts, Eval, Inputs, Collides;
    RootTermEvaluates(keccak, secrets);
    Lift(keccak, secrets, RootTerm(|secrets|), x, index, proof);
    if y, path :| Lifts(keccak, secrets, RootTerm(|secrets|), x, index, proof, y, path) {
      assert Lifted(keccak, secrets, x, index, proof, y, path);
    }
  }

  /** The strings hashed for a part of the tree are among those hashed. */
  lemma {:induction false} LiftedInputs(keccak: Bytes -> Bytes, secrets: seq<Bytes>, x: Bytes, index: nat, proof: seq<Bytes>,
                                        y: Term, path: seq<Term>)
    requires |secrets| > 0 && Lifted(keccak, secrets, x, index, proof, y, path)
    ensures Over(y, |secrets|) && Inputs(keccak, secrets, y) <= Hashed(keccak, secrets, x, index, proof)
  {
    hide RootTerm;
    RootTermOver(|secrets|);
    ClimbContains(keccak, secrets, y, index, path);
  }

  lemma {:induction false} SecretHashed(keccak: Bytes -> Bytes, secrets: seq<Bytes>, x: Bytes, index: nat,
                                        proof: seq<Bytes>, j: nat)
    requires j < |secrets|
    ensures secrets[j] in Hashed(keccak, secrets, x, index, proof)
  {
    var n := |secrets|;
    var terms := SecretTerms(n);
    AcceptedAtItsTurns(Free, terms, j);
    RootTermOver(n);
    hide Root, SiblingPath;
    ClimbContains(keccak, secrets, terms[j], Turns(n, j), SiblingPath(Free, terms, j));
  }

  /** An accepted hashlock is the hash of secret j exactly if it stands for that secret. */
  lemma {:induction false} LiftedSecretIff(keccak: Bytes -> Bytes, secrets: seq<Bytes>, x: Bytes, index: nat,
                                           proof: seq<Bytes>,
                                           y: Term, path: seq<Term>, j: nat)
    requires InShape(keccak, secrets, x, proof) && Lifted(keccak, secrets, x, index, proof, y, path) && j < |secrets|
    ensures (x == keccak(secrets[j]) <==> y == Atom(j)) || Collides(keccak, Hashed(keccak, secrets, x, index, proof))
  {
    LiftedInputs(keccak, secrets, x, index, proof, y, path);
    SecretHashed(keccak, secrets, x, index, proof, j);
    if x == keccak(secrets[j]) && y != Atom(j) {
      EvalInjective(keccak, secrets, y, Atom(j));
      hide Hashed;
      CollidesInMore(keccak, Inputs(keccak, secrets, y) + Inputs(keccak, secrets, Atom(j)),
                     Hashed(keccak, secrets, x, index, proof));
    }
  }

  /**
   In every tree, what the contract accepts at the index of a secret is the hash of that secret exactly when the proof is
   as long as the tree is deep, or two hashed strings collide.
   */
  lemma {:induction false} OwnSecretIffFullLengthWords(keccak: Bytes -> Bytes, secrets: seq<Bytes>, x: Bytes, i: nat,
                                                       proof: seq<Bytes>)
    requires InShape(keccak, secrets, x, proof) && i < |secrets| && Accepts(keccak, secrets, x, i, proof)
    ensures (x == keccak(secrets[i]) <==> |proof| == Depth(|secrets|))
            || Collides(keccak, Hashed(keccak, secrets, x, i, proof))
  {
    hide Lifted, Collides, Hashed, Depth;
    AcceptedLifts(keccak, secrets, x, i, proof);
    if y, path :| Lifted(keccak, secrets, x, i, proof, y, path) {
      LiftedSecretIff(keccak, secrets, x, i, proof, y, path, i);
      LiftedAccepted(keccak, secrets, x, i, proof, y, path);
      OwnSecretIffFullLength(SecretTerms(|secrets|), y, i, path);
    }
  }

  lemma {:induction false} LiftedAccepted(keccak: Bytes -> Bytes, secrets: seq<Bytes>, x: Bytes, index: nat,
                                          proof: seq<Bytes>,
                                          y: Term, path: seq<Term>)
    requires |secrets| > 0 && Lifted(keccak, secrets, x, index, proof, y, path)
    ensures DistinctSecrets(SecretTerms(|secrets|)) && |path| == |proof|
    ensures Climb(Free, y, index, path) == Root(Free, SecretTerms(|secrets|))
  {
  }

  /**
   What the contract accepts is the hash of one of the secrets exactly when the proof is as long as that of a leaf whose
   turns the index ends in, or two hashed strings collide.
   */
  lemma {:induction false} AcceptedIsSecretIffWords(keccak: Bytes -> Bytes, secrets: seq<Bytes>, x: Bytes,
                                                    index: nat, proof: seq<Bytes>)
    requires InShape(keccak, secrets, x, proof) && Accepts(keccak, secrets, x, index, proof)
    ensures (x in Leaves(keccak, secrets) <==> exists j :: LeafLength(|secrets|, index, |proof|, j))
            || Collides(keccak, Hashed(keccak, secrets, x, index, proof))
  {
    hide Lifted, Collides, Hashed, LeafLength;
    AcceptedLifts(keccak, secrets, x, index, proof);
    if y, path :| Lifted(keccak, secrets, x, index, proof, y, path) {
      var terms := SecretTerms(|secrets|);
      LiftedAccepted(keccak, secrets, x, index, proof, y, path);
      AcceptedIsSecretIff(terms, y, index, path);
      if y in terms {
        var j :| 0 <= j < |terms| && terms[j] == y;
        LiftedSecretIff(keccak, secrets, x, index, proof, y, path, j);
        assert Leaves(keccak, secrets)[j] == keccak(secrets[j]);
      } else if x in Leaves(keccak, secrets) {
        var j :| 0 <= j < |secrets| && Leaves(keccak, secrets)[j] == x;
        LiftedSecretIff(keccak, secrets, x, index, proof, y, path, j);
        assert terms[j] == Atom(j);
      }
    }
  }

  /**
   A proof as long as that of a leaf whose turns the index ends in carries that leaf and is its generated proof, or two
   hashed strings collide.
   */
  lemma {:induction false} FillCarriesLeafWords(keccak: Bytes -> Bytes, secrets: seq<Bytes>, x: Bytes, index: nat,
                                                proof: seq<Bytes>, j: nat)
    requires InShape(keccak, secrets, x, proof) && Accepts(keccak, secrets, x, index, proof)
    requires LeafLength(|secrets|, index, |proof|, j)
    ensures (x == keccak(secrets[j]) && proof == AuditPath(PairHash(keccak), Leaves(keccak, secrets), j))
            || Collides(keccak, Hashed(keccak, secrets, x, index, proof))
  {
    hide Collides, Hashed, AuditPath, Climb, Root, Lifted, SiblingPath;
    AcceptedLifts(keccak, secrets, x, index, proof);
    if y, path :| Lifted(keccak, secrets, x, index, proof, y, path) {
      var terms, leaves := SecretTerms(|secrets|), Leaves(keccak, secrets);
      LiftedAccepted(keccak, secrets, x, index, proof, y, path);
      LiftedWord(keccak, secrets, x, index, proof, y, path);
      FillCarriesLeafOfItsTurns(Free, terms, index, j, y, path);
      FreeNeverCollides(ClimbPairs(Free, y, index, path), ClimbPairs(Free, terms[j], index, AuditPath(Free, terms, j)));
      SecretTermsEvaluate(keccak, secrets);
      EvalSiblings(keccak, secrets, terms, leaves, j);
      SiblingPathIsAuditPath(Free, terms, j);
      SiblingPathIsAuditPath(PairHash(keccak), leaves, j);
      EvaluatesUnique(keccak, secrets, path, proof, AuditPath(PairHash(keccak), leaves, j));
    }
  }

  /** The root itself, with no proof, is accepted at every index; with two secrets it is none's hash, or strings collide. */
  lemma {:induction false} RootFillsEveryIndex(keccak: Bytes -> Bytes, secrets: seq<Bytes>, index: nat)
    requires |secrets| > 1 && InShape(keccak, secrets, GeneratedRoot(keccak, secrets), [])
    ensures var root := GeneratedRoot(keccak, secrets);
      && Accepts(keccak, secrets, root, index, [])
      && (root !in Leaves(keccak, secrets) || Collides(keccak, Hashed(keccak, secrets, root, index, [])))
  {
    hide GeneratedRoot, Collides, Hashed;
    AcceptedIsSecretIffWords(keccak, secrets, GeneratedRoot(keccak, secrets), index, []);
    forall j | 0 <= j < |secrets|
      ensures !LeafLength(|secrets|, index, 0, j)
    {
      EveryLeafHasSibling(|secrets|, j);
    }
  }

  lemma {:induction false} EveryLeafHasSibling(n: nat, j: nat)
    requires 1 < n && j < n
    ensures PathLength(n, j) > 0
    decreases n
  {
    if j == n - 1 && j % 2 == 0 {
      EveryLeafHasSibling((n + 1) / 2, j / 2);
    }
  }

  /** A word that opens an accepted hashlock is one of the secrets, or two hashed strings collide. */
  lemma {:induction false} OpenedOnlyBySecrets(keccak: Bytes -> Bytes, secrets: seq<Bytes>, x: Bytes, index: nat,
                                               proof: seq<Bytes>, secret: Bytes)
    requires InShape(keccak, secrets, x, proof) && Accepts(keccak, secrets, x, index, proof)
    requires Word(secret) && keccak(secret) == x
    ensures secret in secrets || Collides(keccak, Hashed(keccak, secrets, x, index, proof) + {secret})
  {
    var strings := Hashed(keccak, secrets, x, index, proof);
    hide Hashed, Lifted;
    AcceptedLifts(keccak, secrets, x, index, proof);
    if Collides(keccak, strings) {
      CollidesInMore(keccak, strings, strings + {secret});
    } else {
      var y, path :| Lifted(keccak, secrets, x, index, proof, y, path);
      LiftedInputs(keccak, secrets, x, index, proof, y, path);
      LiftedWord(keccak, secrets, x, index, proof, y, path);
      var input := InputOf(keccak, secrets, y);
      if input != secret {
        TwoCollide(keccak, input, secret, strings + {secret});
      } else if y.Pair? {
        EvalIsWord(keccak, secrets, y.left);
        EvalIsWord(keccak, secrets, y.right);
      }
    }
  }

  lemma {:induction false} LiftedWord(keccak: Bytes -> Bytes, secrets: seq<Bytes>, x: Bytes, index: nat, proof: seq<Bytes>,
                                      y: Term, path: seq<Term>)
    requires |secrets| > 0 && Lifted(keccak, secrets, x, index, proof, y, path)
    ensures Over(y, |secrets|) && x == Eval(keccak, secrets, y) && Evaluates(keccak, secrets, path, proof)
  {
  }

  /** The hashlock is the node at position i of level l of the generated tree, at an index that ends in its turns. */
  ghost predicate WordNode(keccak: Bytes -> Bytes, secrets: seq<Bytes>, x: Bytes, index: nat, proof: seq<Bytes>, l: int, i: int)
    requires |secrets| > 0
  {
    var h := PairHash(keccak);
    var tree := Levels(h, Leaves(keccak, secrets));
    && 0 <= l < |tree| && 0 <= i < |tree[l]| && x == tree[l][i]
    && proof == SiblingPath(h, tree[l], i) && SameLowBits(index, Turns(|tree[l]|, i), |proof|)
  }

  /**
   The contract accepts every node of every level of the generated tree, with its siblings, at the indices that end in its
   turns; and nothing else, or two hashed strings collide.
   */
  lemma {:induction false} AcceptedFillsExactlyWords(keccak: Bytes -> Bytes, secrets: seq<Bytes>, x: Bytes,
                                                     index: nat, proof: seq<Bytes>)
    requires InShape(keccak, secrets, x, proof)
    ensures (exists l, i :: WordNode(keccak, secrets, x, index, proof, l, i)) ==> Accepts(keccak, secrets, x, index, proof)
    ensures Accepts(keccak, secrets, x, index, proof) ==>
      (exists l, i :: WordNode(keccak, secrets, x, index, proof, l, i))
      || Collides(keccak, Hashed(keccak, secrets, x, index, proof))
  {
    if l, i :| WordNode(keccak, secrets, x, index, proof, l, i) {
      NodeAccepted(PairHash(keccak), Leaves(keccak, secrets), l, i, index);
    }
    hide Climb, Collides, Hashed, WordNode, Levels, SiblingPath;
    if Accepts(keccak, secrets, x, index, proof) {
      AcceptedLifts(keccak, secrets, x, index, proof);
      if y, path :| Lifted(keccak, secrets, x, index, proof, y, path) {
        LiftedAccepted(keccak, secrets, x, index, proof, y, path);
        AcceptedFillsExactly(SecretTerms(|secrets|), y, index, path);
        var l, i :| AcceptedAsNode(SecretTerms(|secrets|), y, index, path, l, i);
        NodeOfWords(keccak, secrets, x, index, proof, y, path, l, i);
      }
    }
  }

  lemma {:induction false} NodeOfWords(keccak: Bytes -> Bytes, secrets: seq<Bytes>, x: Bytes, index: nat, proof: seq<Bytes>,
                                       y: Term, path: seq<Term>, l: int, i: int)
    requires |secrets| > 0 && Lifted(keccak, secrets, x, index, proof, y, path)
    requires AcceptedAsNode(SecretTerms(|secrets|), y, index, path, l, i)
    ensures WordNode(keccak, secrets, x, index, proof, l, i)
  {
    var terms, leaves := SecretTerms(|secrets|), Leaves(keccak, secrets);
    SecretTermsEvaluate(keccak, secrets);
    EvalLevels(keccak, secrets, terms, leaves, l);
    var level, words := Levels(Free, terms)[l], Levels(PairHash(keccak), leaves)[l];
    EvalSiblings(keccak, secrets, level, words, i);
    LiftedWord(keccak, secrets, x, index, proof, y, path);
    hide Levels, SiblingPath, Turns, SameLowBits, Lifted, Eval;
    EvaluatesUnique(keccak, secrets, path, proof, SiblingPath(PairHash(keccak), words, i));
  }
}
