/** Small shared vocabulary of the games: optional values, the answer-feedback
    flag every quiz game keeps, and index permutations, which stand for the
    `sort(() => Math.random() - 0.5)` shuffles (any permutation may come out). */
module Common {

  datatype Option<T> = None | Some(value: T)

  /** The `'correct' | 'wrong' | null` feedback state of a quiz round. */
  datatype Feedback = NoFeedback | Correct | Wrong

  /** `order` lists every index below `n` exactly once. */
  predicate IsPermutation(order: seq<nat>, n: nat)
  {
    && |order| == n
    && (forall i :: 0 <= i < n ==> order[i] < n)
    && (forall i, j :: 0 <= i < j < n ==> order[i] != order[j])
    && (forall k :: 0 <= k < n ==> k in order)
  }

  /** The elements of `s` rearranged: position i shows `s[order[i]]`. */
  function Permute<T>(s: seq<T>, order: seq<nat>): (r: seq<T>)
    requires IsPermutation(order, |s|)
    ensures |r| == |s|
    ensures forall i :: 0 <= i < |s| ==> r[i] == s[order[i]]
    ensures multiset(r) == multiset(s)
  {
    PermutePreservesMultiset(s, order);
    Pick(s, order)
  }

  /** The entries of `s` at the positions listed in `order`, in that order. */
  function Pick<T>(s: seq<T>, order: seq<nat>): (r: seq<T>)
    requires forall i :: 0 <= i < |order| ==> order[i] < |s|
    ensures |r| == |order|
    ensures forall i :: 0 <= i < |order| ==> r[i] == s[order[i]]
  {
    seq(|order|, i requires 0 <= i < |order| => s[order[i]])
  }

  /** True when the elements of `s` are pairwise different. */
  predicate Distinct<T(==)>(s: seq<T>)
  {
    forall i, j :: 0 <= i < j < |s| ==> s[i] != s[j]
  }

  /** A rearrangement of distinct elements is again distinct and holds the same elements. */
  lemma PermuteDistinct<T>(s: seq<T>, order: seq<nat>)
    requires IsPermutation(order, |s|) && Distinct(s)
    ensures Distinct(Permute(s, order))
    ensures forall x :: x in Permute(s, order) <==> x in s
  {
    var r := Permute(s, order);
    forall x
      ensures x in r <==> x in s
    {
      calc {
        x in r;
        x in multiset(r);
        x in multiset(s);
        x in s;
      }
    }
  }

  /** Removes position k from a sequence. */
  function RemoveAt<T>(s: seq<T>, k: nat): (r: seq<T>)
    requires k < |s|
    ensures |r| == |s| - 1
    ensures forall i :: 0 <= i < |r| ==> r[i] == (if i < k then s[i] else s[i + 1])
  {
    s[..k] + s[k + 1..]
  }

  /** Taking the entry `n - 1` out of a permutation of `n` indices leaves a
      permutation of `n - 1` indices. */
  lemma RemoveLastIndex(order: seq<nat>, n: nat, k: nat)
    requires n > 0 && IsPermutation(order, n) && k < n && order[k] == n - 1
    ensures IsPermutation(RemoveAt(order, k), n - 1)
  {
    var order' := RemoveAt(order, k);
    forall j | 0 <= j < n - 1
      ensures j in order'
    {
      assert j in order;
      var i :| 0 <= i < n && order[i] == j;
      if i < k {
        assert order'[i] == j;
      } else {
        assert order'[i - 1] == j;
      }
    }
    forall i | 0 <= i < n - 1
      ensures order'[i] < n - 1
    {
      var src := if i < k then i else i + 1;
      assert order'[i] == order[src] && src != k;
    }
  }

  /** Permuting a sequence keeps its multiset of elements: the last element of
      `s` is taken out of both sides and the rest follows by induction. */
  lemma {:induction false} PermutePreservesMultiset<T>(s: seq<T>, order: seq<nat>)
    requires IsPermutation(order, |s|)
    ensures multiset(Pick(s, order)) == multiset(s)
  {
    var n := |s|;
    if n > 0 {
      var left, right := SplitAtLast(order, n);
      var s', x := s[..n - 1], s[n - 1];
      PermutePreservesMultiset(s', left + right);
      InsertLast(s', x, left, right);
      assert s' + [x] == s;
    }
  }

  /** The indices before and after the largest one in a permutation: together
      they are a permutation of the smaller indices. */
  lemma SplitAtLast(order: seq<nat>, n: nat) returns (left: seq<nat>, right: seq<nat>)
    requires n > 0 && IsPermutation(order, n)
    ensures order == left + [n - 1] + right
    ensures IsPermutation(left + right, n - 1)
    ensures forall i :: 0 <= i < |left| ==> left[i] < n - 1
    ensures forall i :: 0 <= i < |right| ==> right[i] < n - 1
  {
    assert n - 1 in order;
    var k :| 0 <= k < n && order[k] == n - 1;
    RemoveLastIndex(order, n, k);
    left, right := order[..k], order[k + 1..];
    assert RemoveAt(order, k) == left + right;
    assert order == left + [n - 1] + right;
    forall i | 0 <= i < |right|
      ensures right[i] < n - 1
    {
      assert right[i] == (left + right)[k + i];
    }
  }

  /** The inductive step: putting the last element back at any position of a
      rearrangement of the others. */
  lemma InsertLast<T>(s: seq<T>, x: T, left: seq<nat>, right: seq<nat>)
    requires forall i :: 0 <= i < |left| ==> left[i] < |s|
    requires forall i :: 0 <= i < |right| ==> right[i] < |s|
    requires multiset(Pick(s, left + right)) == multiset(s)
    ensures multiset(Pick(s + [x], left + [|s|] + right)) == multiset(s + [x])
  {
    var t := s + [x];
    var mid := [|s|];
    PickConcat(t, left + mid, right);
    PickConcat(t, left, mid);
    PickConcat(s, left, right);
    SamePick(s, x, left);
    SamePick(s, x, right);
    assert Pick(t, mid) == [x];
  }

  lemma PickConcat<T>(s: seq<T>, a: seq<nat>, b: seq<nat>)
    requires forall i :: 0 <= i < |a| ==> a[i] < |s|
    requires forall i :: 0 <= i < |b| ==> b[i] < |s|
    ensures Pick(s, a + b) == Pick(s, a) + Pick(s, b)
  {
    var ab := a + b;
    assert forall i :: 0 <= i < |ab| ==> Pick(s, ab)[i] == (Pick(s, a) + Pick(s, b))[i];
  }

  lemma SamePick<T>(s: seq<T>, x: T, order: seq<nat>)
    requires forall i :: 0 <= i < |order| ==> order[i] < |s|
    ensures Pick(s + [x], order) == Pick(s, order)
  {
    assert forall i :: 0 <= i < |order| ==> Pick(s + [x], order)[i] == Pick(s, order)[i];
  }

  /** Number of correct answers in a run of answers, `true` for each correct one. */
  function CorrectCount(outcomes: seq<bool>): (n: nat)
    ensures n <= |outcomes|
  {
    if outcomes == [] then 0 else (if outcomes[0] then 1 else 0) + CorrectCount(outcomes[1..])
  }
}
