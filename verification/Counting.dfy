/** Counting the members of a set that only one element can enter or leave. */
module Counting {

  lemma SizeWithout(a: set<nat>, b: set<nat>, t: nat)
    requires forall v | v != t :: v in b <==> v in a
    ensures |b| - |a| == (if t in b then 1 else 0) - (if t in a then 1 else 0)
  {
    assert b - {t} == a - {t};
    assert t in a ==> |a - {t}| == |a| - 1;
    assert t in b ==> |b - {t}| == |b| - 1;
    assert t !in a ==> a - {t} == a;
    assert t !in b ==> b - {t} == b;
  }
}
