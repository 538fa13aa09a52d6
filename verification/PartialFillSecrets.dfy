/**
 The secrets of a partially fillable order: N + 1 chained secrets for N parts, N fill thresholds, and
 a Merkle tree over the hashes of the secrets. Thresholds and percentages are exact reals.
 */
module PartialFillSecrets {
  import opened Bytes
  import opened MerkleTree

  datatype PartialFillSecrets = PartialFillSecrets(
    merkleRoot: Bytes,
    secrets: seq<Bytes>,
    merkleProofs: seq<seq<Bytes>>,
    fillThresholds: seq<real>)

  /** Hashing two tree nodes: the hash of their concatenation. */
  function PairHash(keccak: Bytes -> Bytes): (Bytes, Bytes) -> Bytes {
    (a, b) => keccak(a + b)
  }

  /** A negative number of parts yields no thresholds and the root secret alone. */
  function PartCount(parts: int): nat {
    if parts < 0 then 0 else parts
  }

  // ---------- Secrets ----------

  /** Each secret after the first is the hash of its predecessor and a fresh nonce. */
  ghost predicate IsChain(keccak: Bytes -> Bytes, rootSecret: Bytes, nonces: seq<Bytes>, secrets: seq<Bytes>)
  {
    && 0 < |secrets| <= |nonces| + 1 && secrets[0] == rootSecret
    && forall i :: 0 < i < |secrets| ==> secrets[i] == keccak(secrets[i - 1] + nonces[i - 1])
  }

  /** The leaves of the tree are the hashes of the secrets. */
  function Leaves(keccak: Bytes -> Bytes, secrets: seq<Bytes>): (leaves: seq<Bytes>)
    ensures |leaves| == |secrets|
    ensures forall i :: 0 <= i < |leaves| ==> leaves[i] == keccak(secrets[i])
  {
    seq(|secrets|, i requires 0 <= i < |secrets| => keccak(secrets[i]))
  }

  // ---------- Thresholds ----------

  /** The upper end of part k + 1 out of `parts`, in percent. */
  function Threshold(parts: nat, k: nat): real
    requires parts > 0
  {
    ((k + 1) as real * 100.0) / parts as real
  }

  function Thresholds(parts: nat): (t: seq<real>)
    ensures |t| == parts
  {
    seq(parts, k requires 0 <= k < parts => Threshold(parts, k))
  }

  ghost predicate Increasing(s: seq<real>) {
    forall i, j :: 0 <= i < j < |s| ==> s[i] < s[j]
  }

  lemma {:induction false} ThresholdOrder(parts: nat, i: nat, j: nat)
    requires parts > 0
    ensures i < j ==> Threshold(parts, i) < Threshold(parts, j)
    ensures Threshold(parts, i) > 0.0 && Threshold(parts, parts - 1) == 100.0
  {
    if i < j {
      Quotients((i + 1) as real * 100.0, (j + 1) as real * 100.0, parts as real);
    }
    Quotients(0.0, (i + 1) as real * 100.0, parts as real);
  }

  lemma {:induction false} Quotients(x: real, y: real, d: real)
    requires x < y && d > 0.0
    ensures x / d < y / d
  {
  }

  /** The thresholds cut 100 percent into equal parts, and the last one is 100. */
  ghost predicate EqualParts(thresholds: seq<real>, parts: nat) {
    |thresholds| == parts && forall k :: 0 <= k < parts ==> thresholds[k] * parts as real == 100.0 * (k + 1) as real
  }

  lemma {:induction false} ThresholdsIncrease(parts: nat)
    ensures Increasing(Thresholds(parts))
    ensures parts > 0 ==> Thresholds(parts)[parts - 1] == 100.0
    ensures EqualParts(Thresholds(parts), parts)
  {
    forall k | 0 <= k < parts
      ensures Thresholds(parts)[k] * parts as real == 100.0 * (k + 1) as real
    {
      assert Thresholds(parts)[k] == Threshold(parts, k);
    }
    hide Threshold;
    forall i, j | 0 <= i < j < parts
      ensures Thresholds(parts)[i] < Thresholds(parts)[j]
    {
      ThresholdOrder(parts, i, j);
    }
    if parts > 0 {
      ThresholdOrder(parts, 0, 0);
    }
  }

  // ---------- Choosing a secret ----------

  /** The number of thresholds that a cumulative fill has passed. */
  function PassedCount(cumulative: real, thresholds: seq<real>): (n: nat)
    ensures n <= |thresholds|
  {
    if thresholds == [] then 0
    else (if thresholds[0] < cumulative then 1 else 0) + PassedCount(cumulative, thresholds[1..])
  }

  /** The search loop: the first threshold that the cumulative fill does not exceed. */
  method GetSecretIndex(cumulative: real, thresholds: seq<real>) returns (index: nat)
    ensures index <= |thresholds|
    ensures forall k :: 0 <= k < index ==> thresholds[k] < cumulative
    ensures index < |thresholds| ==> cumulative <= thresholds[index]
    ensures Increasing(thresholds) ==> index == PassedCount(cumulative, thresholds)
  {
    for i := 0 to |thresholds|
      invariant forall k :: 0 <= k < i ==> thresholds[k] < cumulative
    {
      if cumulative <= thresholds[i] {
        if Increasing(thresholds) {
          PassedCountIs(cumulative, thresholds, i);
        }
        return i;
      }
    }
    if Increasing(thresholds) {
      PassedCountIs(cumulative, thresholds, |thresholds|);
    }
    return |thresholds|;
  }

  /** On increasing thresholds the count is the position of the cumulative fill among them. */
  lemma {:induction false} PassedCountIs(cumulative: real, thresholds: seq<real>, n: nat)
    requires Increasing(thresholds) && n <= |thresholds|
    ensures PassedCount(cumulative, thresholds) == n <==>
            (n > 0 ==> thresholds[n - 1] < cumulative) && (n < |thresholds| ==> cumulative <= thresholds[n])
  {
    PassedCountPosition(cumulative, thresholds);
    var m := PassedCount(cumulative, thresholds);
    if m < n {
      assert cumulative <= thresholds[m] <= thresholds[n - 1];
    } else if n < m {
      assert thresholds[n] <= thresholds[m - 1] < cumulative;
    }
  }

  lemma {:induction false} PassedCountPosition(cumulative: real, thresholds: seq<real>)
    requires Increasing(thresholds)
    ensures var n := PassedCount(cumulative, thresholds);
      && (n > 0 ==> thresholds[n - 1] < cumulative)
      && (n < |thresholds| ==> cumulative <= thresholds[n])
  {
    if thresholds != [] {
      var rest := thresholds[1..];
      assert Increasing(rest);
      PassedCountPosition(cumulative, rest);
      var m := PassedCount(cumulative, rest);
      assert m < |rest| ==> rest[m] == thresholds[m + 1];
      assert m > 0 ==> rest[m - 1] == thresholds[m] && thresholds[0] < thresholds[m];
    }
  }

  /** Filling more never selects an earlier secret; two totals share one exactly when no threshold separates them. */
  lemma {:induction false} SharedSecretIff(c1: real, c2: real, thresholds: seq<real>)
    requires Increasing(thresholds) && c1 < c2
    ensures PassedCount(c1, thresholds) <= PassedCount(c2, thresholds)
    ensures PassedCount(c1, thresholds) == PassedCount(c2, thresholds)
            <==> forall k :: 0 <= k < |thresholds| ==> !(c1 <= thresholds[k] < c2)
  {
    PassedCountPosition(c1, thresholds);
    PassedCountPosition(c2, thresholds);
    var n1, n2 := PassedCount(c1, thresholds), PassedCount(c2, thresholds);
    if n1 < n2 {
      assert thresholds[n1] <= thresholds[n2 - 1];
      assert c1 <= thresholds[n1] < c2;
    } else {
      forall k | 0 <= k < |thresholds|
        ensures !(c1 <= thresholds[k] < c2)
      {
        assert k < n1 ==> thresholds[k] <= thresholds[n1 - 1];
        assert k >= n2 ==> thresholds[n2] <= thresholds[k];
      }
    }
  }

  /** With N parts the overflow secret N is selected exactly above 100 percent. */
  lemma {:induction false} OverflowSecretIff(cumulative: real, parts: nat)
    requires parts > 0
    ensures PassedCount(cumulative, Thresholds(parts)) == parts <==> cumulative > 100.0
  {
    ThresholdsIncrease(parts);
    PassedCountIs(cumulative, Thresholds(parts), parts);
  }

  /** Some threshold lies between two totals. */
  ghost predicate Apart(c1: real, c2: real, thresholds: seq<real>) {
    exists k :: 0 <= k < |thresholds| && c1 <= thresholds[k] < c2
  }

  /** Some threshold lies between each fill's total and the next one's. */
  ghost predicate Separated(cs: seq<real>, thresholds: seq<real>) {
    forall j :: 0 <= j < |cs| - 1 ==> Apart(cs[j], cs[j + 1], thresholds)
  }

  ghost predicate FreshSecrets(cs: seq<real>, thresholds: seq<real>) {
    forall i, j :: 0 <= i < j < |cs| ==> PassedCount(cs[i], thresholds) != PassedCount(cs[j], thresholds)
  }

  lemma {:induction false} ApartIff(c1: real, c2: real, thresholds: seq<real>)
    requires Increasing(thresholds) && c1 < c2
    ensures Apart(c1, c2, thresholds) <==> PassedCount(c1, thresholds) != PassedCount(c2, thresholds)
  {
    SharedSecretIff(c1, c2, thresholds);
  }

  lemma {:induction false} ApartWider(c1: real, c2: real, c3: real, thresholds: seq<real>)
    requires Apart(c1, c2, thresholds) && c2 <= c3
    ensures Apart(c1, c3, thresholds)
  {
    var k :| 0 <= k < |thresholds| && c1 <= thresholds[k] < c2;
    assert c1 <= thresholds[k] < c3;
  }

  /** Successive fills use pairwise different secrets exactly when a threshold separates each from the next. */
  lemma {:induction false} FreshSecretsIff(cs: seq<real>, thresholds: seq<real>)
    requires Increasing(cs) && Increasing(thresholds)
    ensures FreshSecrets(cs, thresholds) <==> Separated(cs, thresholds)
  {
    assert forall i, j :: 0 <= i < j < |cs| ==> cs[i] < cs[j];
    hide PassedCount, Apart, Increasing;
    if FreshSecrets(cs, thresholds) {
      forall j | 0 <= j < |cs| - 1
        ensures Apart(cs[j], cs[j + 1], thresholds)
      {
        ApartIff(cs[j], cs[j + 1], thresholds);
      }
    }
    if Separated(cs, thresholds) {
      forall i, j | 0 <= i < j < |cs|
        ensures PassedCount(cs[i], thresholds) != PassedCount(cs[j], thresholds)
      {
        ApartWider(cs[i], cs[i + 1], cs[j], thresholds);
        ApartIff(cs[i], cs[j], thresholds);
      }
    }
  }

  // ---------- Generation ----------

  method ChainSecrets(keccak: Bytes -> Bytes, rootSecret: Bytes, nonces: seq<Bytes>, parts: int)
    returns (secrets: seq<Bytes>)
    requires |nonces| >= parts
    ensures |secrets| == if parts < 0 then 1 else parts + 1
    ensures IsChain(keccak, rootSecret, nonces, secrets)
  {
    var secretCount := parts + 1;
    secrets := [rootSecret];
    for i := 1 to if secretCount < 1 then 1 else secretCount
      invariant |secrets| == i
      invariant IsChain(keccak, rootSecret, nonces, secrets)
    {
      var combined := secrets[i - 1] + nonces[i - 1];
      secrets := secrets + [keccak(combined)];
    }
  }

  method FillThresholds(parts: int) returns (thresholds: seq<real>)
    ensures thresholds == Thresholds(PartCount(parts))
    ensures EqualParts(thresholds, if parts < 0 then 0 else parts)
  {
    ThresholdsIncrease(PartCount(parts));
    thresholds := [];
    for i := 1 to PartCount(parts) + 1
      invariant |thresholds| == i - 1
      invariant thresholds == Thresholds(PartCount(parts))[..i - 1]
    {
      thresholds := thresholds + [(i as real * 100.0) / parts as real];
    }
  }

  method ProofsForAll(h: (Bytes, Bytes) -> Bytes, leaves: seq<Bytes>, tree: seq<seq<Bytes>>)
    returns (merkleProofs: seq<seq<Bytes>>)
    requires tree == Levels(h, leaves)
    ensures |merkleProofs| == |leaves|
    ensures forall i :: 0 <= i < |leaves| ==> merkleProofs[i] == AuditPath(h, leaves, i)
  {
    hide AuditPath, Levels;
    merkleProofs := [];
    for i := 0 to |leaves|
      invariant |merkleProofs| == i
      invariant forall j :: 0 <= j < i ==> merkleProofs[j] == AuditPath(h, leaves, j)
    {
      var proof := ProofForLeaf(h, leaves, tree, i);
      merkleProofs := merkleProofs + [proof];
    }
  }

  /** The whole generation. The root secret and the nonces are the random bytes drawn by the caller. */
  method GenerateSecrets(keccak: Bytes -> Bytes, rootSecret: Bytes, nonces: seq<Bytes>, parts: int)
    returns (r: PartialFillSecrets)
    requires |nonces| >= parts
    ensures |r.secrets| == |r.merkleProofs| == if parts < 0 then 1 else parts + 1
    ensures IsChain(keccak, rootSecret, nonces, r.secrets)
    ensures r.fillThresholds == Thresholds(PartCount(parts))
    ensures EqualParts(r.fillThresholds, if parts < 0 then 0 else parts)
    ensures r.merkleRoot == Root(PairHash(keccak), Leaves(keccak, r.secrets))
    ensures forall i :: 0 <= i < |r.secrets| ==>
              r.merkleProofs[i] == AuditPath(PairHash(keccak), Leaves(keccak, r.secrets), i)
  {
    hide Root, AuditPath, Levels;
    var secrets := ChainSecrets(keccak, rootSecret, nonces, parts);
    var fillThresholds := FillThresholds(parts);
    var leaves := Leaves(keccak, secrets);
    var tree, merkleRoot, _ := BuildTree(PairHash(keccak), leaves);
    var merkleProofs := ProofsForAll(PairHash(keccak), leaves, tree);
    r := PartialFillSecrets(merkleRoot, secrets, merkleProofs, fillThresholds);
  }
}
