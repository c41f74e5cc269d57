/** The JavaScript array operations `indexOf` and `splice(index, 1)` on list
    values, and what splicing out a located element amounts to. */
module JsArrays {
  import opened Records

  /** Where `splice` starts: a negative index counts back from the end
      (clamped at 0), a positive one is clamped at the length. */
  function SpliceStart(length: nat, index: int): (k: nat)
    ensures k <= length
    ensures 0 <= index <= length ==> k == index
    ensures index < 0 ==> k == if length + index < 0 then 0 else length + index
  {
    if index < 0 then (if length + index < 0 then 0 else length + index)
    else if index > length then length
    else index
  }

  /** `splice(index, 1)`: removes the element at the start position, if any,
      and moves every later element down by one. */
  function SpliceOne<T>(s: seq<T>, index: int): (r: seq<T>)
    ensures 0 <= index < |s| ==> |r| == |s| - 1
    ensures 0 <= index < |s| ==> forall j | 0 <= j < index :: r[j] == s[j]
    ensures 0 <= index < |s| ==> forall j | index <= j < |r| :: r[j] == s[j + 1]
    ensures index >= |s| ==> r == s
    ensures index < 0 && |s| > 0 ==>
      var k := if |s| + index < 0 then 0 else |s| + index;
      && |r| == |s| - 1
      && (forall j | 0 <= j < k :: r[j] == s[j])
      && (forall j | k <= j < |r| :: r[j] == s[j + 1])
    ensures s == [] ==> r == s
  {
    var k := SpliceStart(|s|, index);
    if k < |s| then s[..k] + s[k + 1..] else s
  }

  /** `s.indexOf(x)` for an element that is present: its first position. */
  function IndexOf<T(==)>(s: seq<T>, x: T): (i: nat)
    requires x in s
    ensures i < |s| && s[i] == x
    ensures forall j | 0 <= j < i :: s[j] != x
  {
    if s[0] == x then 0 else 1 + IndexOf(s[1..], x)
  }

  /** In a list without repetitions, splicing out the position `indexOf`
      finds removes exactly that element. */
  lemma {:induction false} SpliceIndexOf(s: seq<string>, x: string)
    requires Distinct(s) && x in s
    ensures SpliceOne(s, IndexOf(s, x)) == Without(s, {x})
  {
    if s[0] == x {
      assert forall y :: y in s[1..] ==> y != x;
      WithoutNone(s[1..], {x});
      assert SpliceOne(s, 0) == s[1..];
    } else {
      SpliceIndexOf(s[1..], x);
      SpliceOneCons(s, IndexOf(s[1..], x) + 1);
    }
  }

  /** Splicing at a later position keeps the head and splices the tail. */
  lemma SpliceOneCons<T>(s: seq<T>, k: nat)
    requires 0 < k < |s|
    ensures SpliceOne(s, k) == [s[0]] + SpliceOne(s[1..], k - 1)
  {
    assert SpliceOne(s, k) == s[..k] + s[k + 1..];
    assert SpliceOne(s[1..], k - 1) == s[1..][..k - 1] + s[1..][k..];
    assert s[..k] == [s[0]] + s[1..][..k - 1];
    assert s[k + 1..] == s[1..][k..];
  }
}
