/** Generic list operations that the source performs with loops over `java.util.List`. */
module Sequences {
  import opened Wrappers

  /** The elements of `s` that satisfy `p`, in their original order. */
  function Filter<T>(s: seq<T>, p: T -> bool): (r: seq<T>)
    ensures |r| <= |s|
    ensures forall i :: 0 <= i < |r| ==> r[i] in s && p(r[i])
    ensures forall i :: 0 <= i < |s| && p(s[i]) ==> s[i] in r
  {
    if |s| == 0 then [] else Filter(s[..|s| - 1], p) + (if p(s[|s| - 1]) then [s[|s| - 1]] else [])
  }

  /** Filtering distributes over concatenation: the relative order of kept elements is the input's. */
  lemma {:induction false} FilterConcat<T>(a: seq<T>, b: seq<T>, p: T -> bool)
    ensures Filter(a + b, p) == Filter(a, p) + Filter(b, p)
    decreases |b|
  {
    if |b| == 0 {
      assert a + b == a;
    } else {
      assert (a + b)[..|a + b| - 1] == a + b[..|b| - 1];
      FilterConcat(a, b[..|b| - 1], p);
    }
  }

  /** The index of the first element of `s` satisfying `p`, if there is one. */
  function FirstIndex<T>(s: seq<T>, p: T -> bool): (r: Option<nat>)
    ensures r.None? <==> forall i :: 0 <= i < |s| ==> !p(s[i])
    ensures r.Some? ==> r.value < |s| && p(s[r.value])
    ensures r.Some? ==> forall j :: 0 <= j < r.value ==> !p(s[j])
  {
    if |s| == 0 then None
    else if p(s[0]) then Some(0)
    else match FirstIndex(s[1..], p)
      case None => None
      case Some(k) => Some(k + 1)
  }

  /** Any index that satisfies `p` and is preceded only by elements that do not is the one FirstIndex finds. */
  lemma FirstIndexIs<T>(s: seq<T>, p: T -> bool, i: nat)
    requires i < |s| && p(s[i])
    requires forall j :: 0 <= j < i ==> !p(s[j])
    ensures FirstIndex(s, p) == Some(i)
  {
  }

  /** The test "is equivalent to `x` under `same`", as a predicate on elements. */
  function SameAs<T>(x: T, same: (T, T) -> bool): T -> bool
  {
    y => same(y, x)
  }

  /**
   * `s` with its first element equivalent to `x` under `same` removed, as
   * `java.util.List.remove(Object)` does; `s` itself when there is none.
   */
  function RemoveFirst<T>(s: seq<T>, x: T, same: (T, T) -> bool): (r: seq<T>)
    ensures FirstIndex(s, SameAs(x, same)).None? ==> r == s
    ensures FirstIndex(s, SameAs(x, same)).Some? ==>
      var i := FirstIndex(s, SameAs(x, same)).value;
      |r| == |s| - 1 && s == r[..i] + [s[i]] + r[i..]
    ensures forall j :: 0 <= j < |s| && !same(s[j], x) ==> s[j] in r
  {
    match FirstIndex(s, SameAs(x, same))
    case None => s
    case Some(i) =>
      assert s == s[..i] + [s[i]] + s[i + 1..];
      s[..i] + s[i + 1..]
  }
}
