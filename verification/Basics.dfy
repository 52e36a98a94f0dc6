// Small notions shared by the other modules.
module Basics {

  datatype Option<T> = None | Some(value: T)

  function One(b: bool): int {
    if b then 1 else 0
  }

  predicate Distinct(xs: seq<int>) {
    forall a, b :: 0 <= a < b < |xs| ==> xs[a] != xs[b]
  }

  /** Sets that differ in one element at most. */
  lemma OneDiffers(xs: set<int>, ys: set<int>, i: int)
    requires forall j :: j != i ==> (j in xs <==> j in ys)
    ensures |ys| == |xs| + One(i in ys) - One(i in xs)
  {
    var rest := xs - {i};
    assert forall j :: j in rest <==> j != i && j in ys;
    assert rest == ys - {i};
    assert i in xs ==> xs == rest + {i};
    assert i in ys ==> ys == rest + {i};
    assert i !in xs ==> xs == rest;
    assert i !in ys ==> ys == rest;
  }

  lemma SubsetSize(xs: set<int>, ys: set<int>)
    requires xs <= ys
    ensures |xs| <= |ys| && (|xs| == |ys| ==> xs == ys)
  {
    assert ys == xs + (ys - xs);
  }
}
