// "Keep the first of each key", as both dedupe loops of the repository do it.
module Mentions {
  /** Positions whose key has not occurred before. */
  function FirstPositions<K(==)>(keys: seq<K>): (r: seq<nat>)
    ensures |r| <= |keys| && forall k :: 0 <= k < |r| ==> r[k] < |keys|
  {
    if keys == [] then []
    else
      var n := |keys| - 1;
      FirstPositions(keys[..n]) + if keys[n] in keys[..n] then [] else [n]
  }

  /** The elements standing at the given positions. */
  function At<T>(elems: seq<T>, at: seq<nat>): (r: seq<T>)
    requires forall k :: 0 <= k < |at| ==> at[k] < |elems|
    ensures |r| == |at| && forall k :: 0 <= k < |r| ==> r[k] == elems[at[k]]
  {
    seq(|at|, k requires 0 <= k < |at| => elems[at[k]])
  }

  lemma {:induction false} PositionsRise<K>(keys: seq<K>, i: nat, j: nat)
    requires i < j < |FirstPositions(keys)|
    ensures FirstPositions(keys)[i] < FirstPositions(keys)[j]
  {
    var init := FirstPositions(keys[..|keys| - 1]);
    if j < |init| { PositionsRise(keys[..|keys| - 1], i, j); }
  }

  lemma {:induction false} NewIsKept<K>(keys: seq<K>, k: nat)
    requires k < |keys| && keys[k] !in keys[..k]
    ensures k in FirstPositions(keys)
  {
    var n := |keys| - 1;
    if k < n {
      assert keys[..n][..k] == keys[..k];
      NewIsKept(keys[..n], k);
    }
  }

  lemma {:induction false} KeptIsNew<K>(keys: seq<K>, j: nat, i: nat)
    requires j < |FirstPositions(keys)| && i < FirstPositions(keys)[j]
    ensures keys[i] != keys[FirstPositions(keys)[j]]
  {
    var n := |keys| - 1;
    var init := FirstPositions(keys[..n]);
    if j < |init| {
      KeptIsNew(keys[..n], j, i);
    } else {
      assert keys[..n][i] in keys[..n];
    }
  }

  /** Kept keys are pairwise distinct. */
  lemma {:induction false} KeptDiffer<K>(keys: seq<K>, i: nat, j: nat)
    requires i < j < |FirstPositions(keys)|
    ensures keys[FirstPositions(keys)[i]] != keys[FirstPositions(keys)[j]]
  {
    PositionsRise(keys, i, j);
    KeptIsNew(keys, j, FirstPositions(keys)[i]);
  }

  /** Every key is kept at its first mention. */
  lemma {:induction false} FirstMention<K>(keys: seq<K>, k: nat) returns (j: nat)
    requires k < |keys|
    ensures j <= k && keys[j] == keys[k] && j in FirstPositions(keys)
    decreases k
  {
    if keys[k] in keys[..k] {
      var i :| 0 <= i < k && keys[..k][i] == keys[k];
      j := FirstMention(keys, i);
    } else {
      NewIsKept(keys, k);
      j := k;
    }
  }

  lemma NextPosition<K>(keys: seq<K>, i: nat)
    requires i < |keys|
    ensures FirstPositions(keys[..i + 1]) == FirstPositions(keys[..i]) + if keys[i] in keys[..i] then [] else [i]
    ensures forall key :: key in keys[..i + 1] <==> key in keys[..i] || key == keys[i]
  {
    assert keys[..i + 1] == keys[..i] + [keys[i]];
    assert keys[..i + 1][..i] == keys[..i];
  }

  lemma KeptNext<T, K>(elems: seq<T>, keys: seq<K>, i: nat)
    requires i < |keys| == |elems|
    ensures At(elems, FirstPositions(keys[..i + 1])) ==
      At(elems, FirstPositions(keys[..i])) + if keys[i] in keys[..i] then [] else [elems[i]]
  {
    NextPosition(keys, i);
  }
}

// The order in which the workers of a pool finish.
module Completion {
  /** A completion order names every index below n exactly once. */
  predicate IsOrderOf(completion: seq<nat>, n: nat) {
    && |completion| == n
    && (forall k :: 0 <= k < n ==> completion[k] < n)
    && (forall j, k :: 0 <= j < k < n ==> completion[j] != completion[k])
    && (forall i :: 0 <= i < n ==> i in completion)
  }
}
