/** Sequence vocabulary shared by the models. */
module Sequences {

  datatype Option<+T> = None | Some(value: T)

  function Reversed<T>(s: seq<T>): (r: seq<T>)
    ensures |r| == |s|
  {
    if s == [] then [] else [s[|s| - 1]] + Reversed(s[..|s| - 1])
  }

  lemma {:induction false} ReversedAt<T>(s: seq<T>, k: nat)
    requires k < |s|
    ensures Reversed(s)[k] == s[|s| - 1 - k]
  {
    if k > 0 {
      ReversedAt(s[..|s| - 1], k - 1);
    }
  }

  lemma ReversedConcat<T>(a: seq<T>, b: seq<T>)
    ensures Reversed(a + b) == Reversed(b) + Reversed(a)
    decreases |b|
  {
    if b == [] {
      assert a + b == a;
    } else {
      assert (a + b)[..|a + b| - 1] == a + b[..|b| - 1];
      ReversedConcat(a, b[..|b| - 1]);
    }
  }

  /** All the elements of a sequence of batches, batch after batch. */
  function Flat<T>(batches: seq<seq<T>>): (r: seq<T>)
  {
    if batches == [] then [] else Flat(batches[..|batches| - 1]) + batches[|batches| - 1]
  }

  /** Batch after batch, each one last element first. */
  function FlatReversed<T>(batches: seq<seq<T>>): (r: seq<T>)
  {
    if batches == [] then []
    else FlatReversed(batches[..|batches| - 1]) + Reversed(batches[|batches| - 1])
  }

  lemma FlatSnoc<T>(batches: seq<seq<T>>, batch: seq<T>)
    ensures Flat(batches + [batch]) == Flat(batches) + batch
    ensures FlatReversed(batches + [batch]) == FlatReversed(batches) + Reversed(batch)
  {
    assert (batches + [batch])[..|batches|] == batches;
  }

  lemma {:induction false} FlatSameLength<T>(batches: seq<seq<T>>)
    ensures |Flat(batches)| == |FlatReversed(batches)|
  {
    if batches != [] {
      FlatSameLength(batches[..|batches| - 1]);
    }
  }

  /** Taking fewer batches gives a prefix. */
  lemma {:induction false} FlatPrefix<T>(batches: seq<seq<T>>, t: nat)
    requires t <= |batches|
    ensures Flat(batches[..t]) <= Flat(batches)
    ensures FlatReversed(batches[..t]) <= FlatReversed(batches)
  {
    if t == |batches| {
      assert batches[..t] == batches;
    } else {
      FlatPrefix(batches[..|batches| - 1], t);
      assert batches[..|batches| - 1][..t] == batches[..t];
    }
  }
}
