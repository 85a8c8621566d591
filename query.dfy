/** The row queries of the store, over tables held as sequences in insertion
    order: `findFirst` is the first matching row, `findMany` the matching rows
    in order, `count` their number, `updateMany` rewrites every matching row
    and `deleteMany` drops them. */
module Query {
  import opened Common

  /** Index of the first element satisfying `p`. */
  function FindFirst<T>(s: seq<T>, p: T -> bool): (r: Option<nat>)
    ensures r.Some? ==> r.value < |s| && p(s[r.value])
    ensures r.Some? ==> forall j :: 0 <= j < r.value ==> !p(s[j])
    ensures r.None? <==> forall j :: 0 <= j < |s| ==> !p(s[j])
  {
    if |s| == 0 then None
    else if p(s[0]) then Some(0)
    else match FindFirst(s[1..], p)
      case None => None
      case Some(k) => Some(k + 1)
  }

  /** The first match is the one at `k` when nothing before it matches. */
  lemma {:induction false} FindFirstAt<T>(s: seq<T>, p: T -> bool, k: nat)
    requires k < |s| && p(s[k])
    requires forall j :: 0 <= j < k ==> !p(s[j])
    ensures FindFirst(s, p) == Some(k)
  {
    if k > 0 {
      FindFirstAt(s[1..], p, k - 1);
    }
  }

  /** The elements satisfying `p`, in their original order. */
  function Filter<T>(s: seq<T>, p: T -> bool): (r: seq<T>)
    ensures |r| <= |s|
    ensures forall j :: 0 <= j < |r| ==> r[j] in s && p(r[j])
    ensures forall j :: 0 <= j < |s| && p(s[j]) ==> s[j] in r
    ensures multiset(r) <= multiset(s)
  {
    if |s| == 0 then []
    else
      assert s == [s[0]] + s[1..];
      if p(s[0]) then [s[0]] + Filter(s[1..], p) else Filter(s[1..], p)
  }

  lemma {:induction false} FilterAppend<T>(s: seq<T>, x: T, p: T -> bool)
    ensures Filter(s + [x], p) == Filter(s, p) + (if p(x) then [x] else [])
  {
    if |s| == 0 {
      assert s + [x] == [x];
    } else {
      assert (s + [x])[1..] == s[1..] + [x];
      FilterAppend(s[1..], x, p);
    }
  }

  /** Number of elements satisfying `p`. */
  function Count<T>(s: seq<T>, p: T -> bool): (n: nat)
    ensures n == |Filter(s, p)|
    ensures n <= |s|
    ensures n == 0 <==> forall j :: 0 <= j < |s| ==> !p(s[j])
  {
    if |s| == 0 then 0
    else (if p(s[0]) then 1 else 0) + Count(s[1..], p)
  }

  /** Every element satisfying `p` replaced by `f` of it, the rest untouched. */
  function UpdateWhere<T>(s: seq<T>, p: T -> bool, f: T -> T): (r: seq<T>)
    ensures |r| == |s|
    ensures forall j :: 0 <= j < |s| ==> r[j] == if p(s[j]) then f(s[j]) else s[j]
  {
    seq(|s|, j requires 0 <= j < |s| => if p(s[j]) then f(s[j]) else s[j])
  }

  /** The elements NOT satisfying `p`, in order (Prisma `delete`/`deleteMany`). */
  function DeleteWhere<T>(s: seq<T>, p: T -> bool): (r: seq<T>)
    ensures forall j :: 0 <= j < |r| ==> r[j] in s && !p(r[j])
    ensures forall j :: 0 <= j < |s| && !p(s[j]) ==> s[j] in r
    ensures |r| <= |s|
  {
    Filter(s, x => !p(x))
  }
}
