/** The immutable-array idioms the components use to update their state:
    `array.filter(p)`, `array.map(x => sel(x) ? f(x) : x)`, `array.find(p)`
    and `array.filter(p).length`, as pure functions over sequences. */
module Lists {

  datatype Option<T> = None | Some(value: T)

  /** The number of elements of `s` satisfying `p`. */
  function Count<T>(s: seq<T>, p: T -> bool): (n: nat)
    ensures n <= |s|
  {
    if s == [] then 0 else (if p(s[0]) then 1 else 0) + Count(s[1..], p)
  }

  /** Nothing is counted exactly when no element satisfies `p`. */
  lemma {:induction false} CountZero<T>(s: seq<T>, p: T -> bool)
    ensures Count(s, p) == 0 <==> forall i :: 0 <= i < |s| ==> !p(s[i])
  {
    if s != [] {
      CountZero(s[1..], p);
      assert forall i :: 1 <= i < |s| ==> s[i] == s[1..][i - 1];
    }
  }

  /** Count distributes over concatenation. */
  lemma {:induction false} CountAppend<T>(a: seq<T>, b: seq<T>, p: T -> bool)
    ensures Count(a + b, p) == Count(a, p) + Count(b, p)
  {
    if a != [] {
      assert (a + b)[1..] == a[1..] + b;
      CountAppend(a[1..], b, p);
    } else {
      assert a + b == b;
    }
  }

  /** `a` is obtained from `b` by deleting zero or more elements, keeping
      the order of the rest. */
  predicate IsSubsequence<T(==)>(a: seq<T>, b: seq<T>) {
    if a == [] then true
    else if b == [] then false
    else (a[0] == b[0] && IsSubsequence(a[1..], b[1..])) || IsSubsequence(a, b[1..])
  }

  /** `s.filter(keep)`: exactly the elements satisfying `keep`, in their
      original order, as many as `Count` says. */
  function Filter<T(==)>(s: seq<T>, keep: T -> bool): (r: seq<T>)
    ensures |r| == Count(s, keep)
    ensures IsSubsequence(r, s)
    ensures forall i :: 0 <= i < |r| ==> keep(r[i]) && r[i] in s
    ensures forall i :: 0 <= i < |s| && keep(s[i]) ==> s[i] in r
  {
    if s == [] then []
    else if keep(s[0]) then
      [s[0]] + Filter(s[1..], keep)
    else Filter(s[1..], keep)
  }

  /** When every element is kept, filtering changes nothing. */
  lemma {:induction false} FilterKeepAll<T>(s: seq<T>, keep: T -> bool)
    requires forall i :: 0 <= i < |s| ==> keep(s[i])
    ensures Filter(s, keep) == s
  {
    if s != [] {
      FilterKeepAll(s[1..], keep);
    }
  }

  /** `s.map(x => sel(x) ? f(x) : x)`: same length, `f` applied exactly at
      the positions selected by `sel`, every other position untouched. */
  function MapWhere<T>(s: seq<T>, sel: T -> bool, f: T -> T): (r: seq<T>)
    ensures |r| == |s|
    ensures forall i :: 0 <= i < |s| && sel(s[i]) ==> r[i] == f(s[i])
    ensures forall i :: 0 <= i < |s| && !sel(s[i]) ==> r[i] == s[i]
  {
    if s == [] then []
    else [if sel(s[0]) then f(s[0]) else s[0]] + MapWhere(s[1..], sel, f)
  }

  /** Applying a selective update twice is the identity when `f` is an
      involution that keeps selected elements selected. */
  lemma MapWhereInvolution<T>(s: seq<T>, sel: T -> bool, f: T -> T)
    requires forall x :: sel(x) ==> sel(f(x)) && f(f(x)) == x
    ensures MapWhere(MapWhere(s, sel, f), sel, f) == s
  {
    var once := MapWhere(s, sel, f);
    var twice := MapWhere(once, sel, f);
    forall i | 0 <= i < |s|
      ensures twice[i] == s[i]
    {
      if sel(s[i]) {
        assert sel(once[i]);
      }
    }
  }

  /** Selecting nothing changes nothing. */
  lemma MapWhereNoneSelected<T>(s: seq<T>, sel: T -> bool, f: T -> T)
    requires forall i :: 0 <= i < |s| ==> !sel(s[i])
    ensures MapWhere(s, sel, f) == s
  {
  }

  /** When exactly one position `k` is selected and `f` negates `p`, the
      number of elements satisfying `p` moves by exactly one, in the
      direction given by `p(s[k])`. */
  lemma {:induction false} CountMapWhereSingle<T>(s: seq<T>, sel: T -> bool, f: T -> T, p: T -> bool, k: nat)
    requires k < |s| && sel(s[k])
    requires forall i :: 0 <= i < |s| && i != k ==> !sel(s[i])
    requires forall x :: p(f(x)) == !p(x)
    ensures Count(MapWhere(s, sel, f), p) == if p(s[k]) then Count(s, p) - 1 else Count(s, p) + 1
  {
    var r := MapWhere(s, sel, f);
    if k == 0 {
      MapWhereNoneSelected(s[1..], sel, f);
      assert r[1..] == MapWhere(s[1..], sel, f) == s[1..];
    } else {
      assert r[1..] == MapWhere(s[1..], sel, f);
      CountMapWhereSingle(s[1..], sel, f, p, k - 1);
    }
  }

  /** The position of the first element satisfying `p`, or `|s|` if none. */
  function FirstIndex<T>(s: seq<T>, p: T -> bool): (k: nat)
    ensures k <= |s|
    ensures k < |s| ==> p(s[k])
    ensures forall i :: 0 <= i < k ==> !p(s[i])
  {
    if s == [] then 0
    else if p(s[0]) then 0
    else 1 + FirstIndex(s[1..], p)
  }

  /** `s.find(p)`: the first element satisfying `p`, or nothing when no
      element does. */
  function Find<T>(s: seq<T>, p: T -> bool): (r: Option<T>)
    ensures r.None? <==> forall i :: 0 <= i < |s| ==> !p(s[i])
    ensures r.Some? ==> p(r.value)
    ensures forall i :: 0 <= i < |s| && p(s[i]) && (forall j :: 0 <= j < i ==> !p(s[j])) ==> r == Some(s[i])
  {
    var k := FirstIndex(s, p);
    if k < |s| then Some(s[k]) else None
  }

  /** No two elements of `s` share a key. */
  predicate DistinctBy<T, K(==)>(s: seq<T>, key: T -> K) {
    forall i, j :: 0 <= i < j < |s| ==> key(s[i]) != key(s[j])
  }

  lemma DistinctByAppendFresh<T, K>(s: seq<T>, x: T, key: T -> K)
    requires DistinctBy(s, key)
    requires forall i :: 0 <= i < |s| ==> key(s[i]) != key(x)
    ensures DistinctBy(s + [x], key)
  {
  }

  /** An update that keeps every key keeps keys distinct. */
  lemma DistinctByMapWhere<T, K>(s: seq<T>, sel: T -> bool, f: T -> T, key: T -> K)
    requires DistinctBy(s, key)
    requires forall x :: key(f(x)) == key(x)
    ensures DistinctBy(MapWhere(s, sel, f), key)
  {
    var r := MapWhere(s, sel, f);
    assert forall i :: 0 <= i < |s| ==> key(r[i]) == key(s[i]);
  }

  /** Dropping elements keeps keys distinct. */
  lemma {:induction false} DistinctByFilter<T, K>(s: seq<T>, keep: T -> bool, key: T -> K)
    requires DistinctBy(s, key)
    ensures DistinctBy(Filter(s, keep), key)
  {
    if s != [] {
      assert DistinctBy(s[1..], key);
      DistinctByFilter(s[1..], keep, key);
      if keep(s[0]) {
        var rest := Filter(s[1..], keep);
        var r := [s[0]] + rest;
        forall j | 0 < j < |r|
          ensures key(r[0]) != key(r[j])
        {
          assert r[j] in s[1..];
          var m :| 0 <= m < |s[1..]| && s[1..][m] == r[j];
          assert s[m + 1] == r[j];
        }
      }
    }
  }

  /** When the elements selected by `sel` all share one key and keys are
      distinct, at most one element is selected. */
  lemma {:induction false} DistinctBySelectsAtMostOne<T, K>(s: seq<T>, key: T -> K, sel: T -> bool, v: K)
    requires DistinctBy(s, key)
    requires forall x :: sel(x) ==> key(x) == v
    ensures Count(s, sel) <= 1
  {
    if s != [] {
      assert DistinctBy(s[1..], key);
      DistinctBySelectsAtMostOne(s[1..], key, sel, v);
      if sel(s[0]) {
        forall i | 0 <= i < |s[1..]|
          ensures !sel(s[1..][i])
        {
          assert key(s[0]) != key(s[i + 1]);
        }
        CountZero(s[1..], sel);
      }
    }
  }
}
