/** Concatenation of a list of lists, as the stores and the gallery build their flat lists. */
module Seqs {

  /** The lists of `rs` one after the other, in order. */
  function Flatten<T>(rs: seq<seq<T>>): seq<T>
  {
    if |rs| == 0 then [] else Flatten(rs[..|rs| - 1]) + rs[|rs| - 1]
  }

  /** Flattening distributes over concatenation. */
  lemma {:induction false} FlattenAppend<T>(a: seq<seq<T>>, b: seq<seq<T>>)
    ensures Flatten(a + b) == Flatten(a) + Flatten(b)
    decreases |b|
  {
    if |b| == 0 {
      assert a + b == a;
    } else {
      var b' := b[..|b| - 1];
      assert (a + b)[..|a + b| - 1] == a + b';
      FlattenAppend(a, b');
    }
  }

  /**
   * Element `k` of list `i` sits in the flattening at position `j`, right
   * after the elements of the lists before it.
   */
  lemma {:induction false} FlattenIndex<T>(rs: seq<seq<T>>, i: nat, k: nat, j: nat)
    requires i < |rs| && k < |rs[i]| && j == |Flatten(rs[..i])| + k
    ensures j < |Flatten(rs)|
    ensures Flatten(rs)[j] == rs[i][k]
    decreases |rs|
  {
    var init := rs[..|rs| - 1];
    if i == |rs| - 1 {
      assert rs[..i] == init;
    } else {
      assert init[..i] == rs[..i];
      FlattenIndex(init, i, k, j);
    }
  }
}
