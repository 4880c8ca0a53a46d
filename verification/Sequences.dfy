/** A sequence less one of its elements. */
module Sequences {
  function WithoutIndex<T>(s: seq<T>, i: nat): (r: seq<T>)
    requires i < |s|
    ensures |r| == |s| - 1
  {
    s[..i] + s[i + 1..]
  }

  lemma WithoutHas<T>(s: seq<T>, i: nat)
    requires i < |s|
    ensures forall k :: 0 <= k < |s| - 1 ==> WithoutIndex(s, i)[k] == s[if k < i then k else k + 1]
    ensures forall k :: 0 <= k < |s| - 1 ==> WithoutIndex(s, i)[k] in s
    ensures forall k :: 0 <= k < |s| && k != i ==> s[k] in WithoutIndex(s, i)
  {
    var rest := WithoutIndex(s, i);
    forall k | 0 <= k < |s| && k != i
      ensures s[k] in rest
    {
      assert rest[if k < i then k else k - 1] == s[k];
    }
  }
}
