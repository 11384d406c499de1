/** The filtering comprehension `[f(x) for x in s if cond(x)]` and its laws. */
module Seqs {
  import opened Wrappers

  /** The images of the elements of `s` that `f` keeps, in the order of `s`. */
  function FilterMap<A, B>(s: seq<A>, f: A -> Option<B>): (r: seq<B>)
    ensures |r| <= |s|
    decreases |s|
  {
    if s == [] then [] else Kept(s[0], f) + FilterMap(s[1..], f)
  }

  /** What one element contributes. */
  function Kept<A, B>(x: A, f: A -> Option<B>): seq<B>
  {
    if f(x).Some? then [f(x).value] else []
  }

  /** The comprehension over two runs is that of the first run followed by that of the second. */
  lemma {:induction false} FilterMapConcat<A, B>(a: seq<A>, b: seq<A>, f: A -> Option<B>)
    ensures FilterMap(a + b, f) == FilterMap(a, f) + FilterMap(b, f)
    decreases |a|
  {
    if a == [] {
      assert a + b == b;
    } else {
      var ab := a + b;
      assert ab[0] == a[0];
      assert ab[1..] == a[1..] + b;
      FilterMapConcat(a[1..], b, f);
      calc {
        FilterMap(ab, f);
        Kept(a[0], f) + FilterMap(a[1..] + b, f);
        Kept(a[0], f) + (FilterMap(a[1..], f) + FilterMap(b, f));
        (Kept(a[0], f) + FilterMap(a[1..], f)) + FilterMap(b, f);
      }
    }
  }

  /** One more element adds its image at the end when it is kept, and nothing otherwise. */
  lemma FilterMapSnoc<A, B>(s: seq<A>, x: A, f: A -> Option<B>)
    ensures FilterMap(s + [x], f) == FilterMap(s, f) + Kept(x, f)
  {
    FilterMapConcat(s, [x], f);
    assert FilterMap([x], f) == Kept(x, f) + FilterMap([x][1..], f);
  }

  /** Every element of the result is the image of some element of the input. */
  lemma {:induction false} FilterMapFrom<A, B>(s: seq<A>, f: A -> Option<B>, k: nat)
    requires k < |FilterMap(s, f)|
    ensures exists j :: 0 <= j < |s| && f(s[j]) == Some(FilterMap(s, f)[k])
    decreases |s|
  {
    var head := Kept(s[0], f);
    assert FilterMap(s, f) == head + FilterMap(s[1..], f);
    if k < |head| {
      assert f(s[0]) == Some(FilterMap(s, f)[k]);
    } else {
      var k' := k - |head|;
      assert FilterMap(s, f)[k] == FilterMap(s[1..], f)[k'];
      FilterMapFrom(s[1..], f, k');
      var j :| 0 <= j < |s[1..]| && f(s[1..][j]) == Some(FilterMap(s[1..], f)[k']);
      assert s[j + 1] == s[1..][j];
    }
  }
}
