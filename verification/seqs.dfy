/** Array helpers with the semantics of the JavaScript array methods the
    services use: `findIndex`, `filter`, `splice(i, 1)`. */
module Seqs {

  /** `Array.prototype.findIndex`: the first index whose element satisfies
      `p`, or -1 when there is none. */
  function FindIndex<T>(s: seq<T>, p: T -> bool): (r: int)
    ensures -1 <= r < |s|
    ensures r == -1 <==> forall i :: 0 <= i < |s| ==> !p(s[i])
    ensures 0 <= r ==> p(s[r]) && forall j :: 0 <= j < r ==> !p(s[j])
  {
    if |s| == 0 then -1
    else if p(s[0]) then 0
    else
      var k := FindIndex(s[1..], p);
      if k == -1 then -1 else k + 1
  }

  /** `Array.prototype.filter`: the elements satisfying `p`, in order. */
  function Filter<T(!new)>(s: seq<T>, p: T -> bool): (r: seq<T>)
    ensures |r| <= |s|
    ensures forall x :: x in r <==> x in s && p(x)
    ensures forall i :: 0 <= i < |r| ==> p(r[i])
  {
    if |s| == 0 then []
    else if p(s[0]) then [s[0]] + Filter(s[1..], p)
    else Filter(s[1..], p)
  }

  /** The sequence without its element at index `i`. */
  function RemoveAt<T>(s: seq<T>, i: nat): (r: seq<T>)
    requires i < |s|
    ensures |r| == |s| - 1
    ensures forall j :: 0 <= j < i ==> r[j] == s[j]
    ensures forall j :: i <= j < |r| ==> r[j] == s[j + 1]
  {
    s[..i] + s[i + 1..]
  }

  /** When exactly the element at `i` fails `p`, filtering removes exactly
      that element and keeps the relative order of the rest. */
  lemma {:induction false} FilterRemovesOne<T(!new)>(s: seq<T>, p: T -> bool, i: nat)
    requires i < |s|
    requires !p(s[i])
    requires forall j :: 0 <= j < |s| && j != i ==> p(s[j])
    ensures Filter(s, p) == RemoveAt(s, i)
  {
    if i == 0 {
      FilterKeepsAll(s[1..], p);
      assert s[1..] == RemoveAt(s, 0);
    } else {
      FilterRemovesOne(s[1..], p, i - 1);
      assert RemoveAt(s, i) == [s[0]] + RemoveAt(s[1..], i - 1);
    }
  }

  /** `filter` is a homomorphism of concatenation that keeps or drops each
      single element: together these pin down order and multiplicity. */
  lemma {:induction false} FilterConcat<T(!new)>(a: seq<T>, b: seq<T>, p: T -> bool)
    ensures Filter(a + b, p) == Filter(a, p) + Filter(b, p)
    ensures forall x :: Filter([x], p) == if p(x) then [x] else []
  {
    if |a| > 0 {
      FilterConcat(a[1..], b, p);
      assert (a + b)[1..] == a[1..] + b;
    } else {
      assert a + b == b;
    }
    forall x
      ensures Filter([x], p) == if p(x) then [x] else []
    {
      assert [x][1..] == [];
    }
  }

  /** Filtering with a predicate every element satisfies is the identity. */
  lemma {:induction false} FilterKeepsAll<T(!new)>(s: seq<T>, p: T -> bool)
    requires forall j :: 0 <= j < |s| ==> p(s[j])
    ensures Filter(s, p) == s
  {
    if |s| > 0 {
      FilterKeepsAll(s[1..], p);
      assert [s[0]] + s[1..] == s;
    }
  }
}
