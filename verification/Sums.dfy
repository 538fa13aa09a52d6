/** Sums over finite sets. */
module Sums {

  ghost function Pick<K>(keys: set<K>): (k: K)
    requires keys != {}
    ensures k in keys
  {
    var k :| k in keys; k
  }

  ghost function SumOver<K>(keys: set<K>, f: K -> nat): nat {
    if keys == {} then 0 else f(Pick(keys)) + SumOver(keys - {Pick(keys)}, f)
  }

  lemma {:induction false} SumRemove<K>(keys: set<K>, f: K -> nat, k: K)
    requires k in keys
    ensures SumOver(keys, f) == f(k) + SumOver(keys - {k}, f)
    decreases |keys|
  {
    var p := Pick(keys);
    if p != k {
      SumRemove(keys - {p}, f, k);
      SumRemove(keys - {k}, f, p);
      assert keys - {p} - {k} == keys - {k} - {p};
    }
  }

  lemma {:induction false} SumSame<K>(keys: set<K>, f: K -> nat, g: K -> nat)
    requires forall k :: k in keys ==> f(k) == g(k)
    ensures SumOver(keys, f) == SumOver(keys, g)
    decreases |keys|
  {
    if keys != {} {
      SumSame(keys - {Pick(keys)}, f, g);
    }
  }

  lemma {:induction false} SumAtLeast<K>(keys: set<K>, f: K -> nat, k: K)
    requires k in keys
    ensures f(k) <= SumOver(keys, f)
  {
    SumRemove(keys, f, k);
  }

  ghost function SumRealsOver<K>(keys: set<K>, f: K -> real): real {
    if keys == {} then 0.0 else f(Pick(keys)) + SumRealsOver(keys - {Pick(keys)}, f)
  }

  lemma {:induction false} SumRealsRemove<K>(keys: set<K>, f: K -> real, k: K)
    requires k in keys
    ensures SumRealsOver(keys, f) == f(k) + SumRealsOver(keys - {k}, f)
    decreases |keys|
  {
    var p := Pick(keys);
    if p != k {
      SumRealsRemove(keys - {p}, f, k);
      SumRealsRemove(keys - {k}, f, p);
      assert keys - {p} - {k} == keys - {k} - {p};
    }
  }

  lemma {:induction false} SumRealsNonNegative<K>(keys: set<K>, f: K -> real)
    requires forall k :: k in keys ==> f(k) >= 0.0
    ensures SumRealsOver(keys, f) >= 0.0
    decreases |keys|
  {
    if keys != {} {
      SumRealsNonNegative(keys - {Pick(keys)}, f);
    }
  }
}
