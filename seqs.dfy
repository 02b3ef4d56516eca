/**
 * Sequence idioms the services use on Python lists: list comprehensions with a
 * condition (Filter), projections (MapSeq), `next(... , None)` (FirstIndex),
 * de-duplication through a set (Dedup) and `list.sort(key=...)` (SortByKey).
 */
module Seqs {
  import opened PyValue

  /** The message an in-memory entity returns together with its table afterwards. */
  datatype Reply<T> = Reply(message: string, items: seq<T>)

  /** `[x for x in s if p(x)]` */
  function Filter<T>(s: seq<T>, p: T -> bool): seq<T>
    decreases |s|
  {
    if s == [] then []
    else Filter(s[..|s| - 1], p) + (if p(s[|s| - 1]) then [s[|s| - 1]] else [])
  }

  /** `[f(x) for x in s]` */
  function MapSeq<T, U>(s: seq<T>, f: T -> U): seq<U>
    decreases |s|
  {
    if s == [] then [] else MapSeq(s[..|s| - 1], f) + [f(s[|s| - 1])]
  }

  /** `a` is `b` with some elements left out, order kept. */
  predicate IsSubseq<T(==)>(a: seq<T>, b: seq<T>)
    decreases |b|
  {
    if b == [] then a == []
    else
      (a != [] && a[|a| - 1] == b[|b| - 1] && IsSubseq(a[..|a| - 1], b[..|b| - 1]))
      || IsSubseq(a, b[..|b| - 1])
  }

  lemma FilterSnoc<T>(s: seq<T>, x: T, p: T -> bool)
    ensures Filter(s + [x], p) == Filter(s, p) + (if p(x) then [x] else [])
  {
    assert (s + [x])[..|s|] == s;
  }

  lemma MapSnoc<T, U>(s: seq<T>, x: T, f: T -> U)
    ensures MapSeq(s + [x], f) == MapSeq(s, f) + [f(x)]
  {
    assert (s + [x])[..|s|] == s;
  }

  lemma {:induction false} MapIndex<T, U>(s: seq<T>, f: T -> U)
    ensures |MapSeq(s, f)| == |s|
    ensures forall i :: 0 <= i < |s| ==> MapSeq(s, f)[i] == f(s[i])
    decreases |s|
  {
    if s != [] {
      MapIndex(s[..|s| - 1], f);
    }
  }

  /** A projection of a concatenation is the concatenation of the projections. */
  lemma {:induction false} MapConcat<T, U>(s: seq<T>, t: seq<T>, f: T -> U)
    ensures MapSeq(s + t, f) == MapSeq(s, f) + MapSeq(t, f)
    decreases |t|
  {
    if t != [] {
      var init := t[..|t| - 1];
      MapConcat(s, init, f);
      assert (s + t)[..|s + t| - 1] == s + init;
      assert (s + t)[|s + t| - 1] == t[|t| - 1];
      assert MapSeq(s + t, f) == MapSeq(s + init, f) + [f(t[|t| - 1])];
      assert MapSeq(t, f) == MapSeq(init, f) + [f(t[|t| - 1])];
    } else {
      assert s + t == s;
    }
  }

  /** Projecting two permutations of each other gives permutations of each other. */
  lemma {:induction false} MapMultiset<T, U>(s: seq<T>, t: seq<T>, f: T -> U)
    requires multiset(s) == multiset(t)
    ensures multiset(MapSeq(s, f)) == multiset(MapSeq(t, f))
    decreases |s|
  {
    if s == [] {
      assert |t| == |multiset(t)| == 0;
    } else {
      var init, x := s[..|s| - 1], s[|s| - 1];
      assert s == init + [x];
      var front, back := Locate(t, x);
      MapSplit(t, front, x, back, f);
      MultisetCancel(multiset(init), multiset(front + back), x);
      MapMultiset(init, front + back, f);
      MapSnoc(init, x, f);
    }
  }

  /** An element of a list splits it around one of its occurrences. */
  lemma Locate<T>(t: seq<T>, x: T) returns (front: seq<T>, back: seq<T>)
    requires x in multiset(t)
    ensures t == front + ([x] + back)
  {
    var k :| 0 <= k < |t| && t[k] == x;
    front, back := t[..k], t[k + 1..];
    assert t == front + ([x] + back);
  }

  lemma MultisetCancel<T>(a: multiset<T>, b: multiset<T>, x: T)
    requires a + multiset{x} == b + multiset{x}
    ensures a == b
  {
    assert a == (a + multiset{x}) - multiset{x};
  }

  /** Taking an element out of a list takes its image out of the projection. */
  lemma MapSplit<T, U>(t: seq<T>, front: seq<T>, x: T, back: seq<T>, f: T -> U)
    requires t == front + ([x] + back)
    ensures multiset(t) == multiset(front + back) + multiset{x}
    ensures multiset(MapSeq(t, f)) == multiset(MapSeq(front + back, f)) + multiset{f(x)}
  {
    MultisetAround(front, x, back);
    MapAround(front, x, back, f);
    MapConcat(front, back, f);
    MultisetAround(MapSeq(front, f), f(x), MapSeq(back, f));
  }

  lemma MapAround<T, U>(front: seq<T>, x: T, back: seq<T>, f: T -> U)
    ensures MapSeq(front + ([x] + back), f) == MapSeq(front, f) + ([f(x)] + MapSeq(back, f))
  {
    MapConcat(front, [x] + back, f);
    MapConcat([x], back, f);
    MapSnoc([], x, f);
    assert [] + [x] == [x];
  }

  lemma MultisetAround<T>(front: seq<T>, x: T, back: seq<T>)
    ensures multiset(front + ([x] + back)) == multiset(front + back) + multiset{x}
  {
  }

  /** A filtered list is an ordered subsequence holding exactly the elements that pass. */
  lemma FilterProperties<T>(s: seq<T>, p: T -> bool)
    ensures IsSubseq(Filter(s, p), s)
    ensures forall x :: x in Filter(s, p) <==> x in s && p(x)
    ensures |Filter(s, p)| <= |s|
  {
    FilterSubseq(s, p);
    FilterMembers(s, p);
  }

  lemma {:induction false} FilterSubseq<T>(s: seq<T>, p: T -> bool)
    ensures IsSubseq(Filter(s, p), s)
    ensures |Filter(s, p)| <= |s|
    decreases |s|
  {
    if s != [] {
      var init, last := s[..|s| - 1], s[|s| - 1];
      FilterSubseq(init, p);
      var f := Filter(s, p);
      var g := Filter(init, p);
      assert s[..|s| - 1] == init;
      if p(last) {
        assert f == g + [last];
        assert f[..|f| - 1] == g;
        assert f[|f| - 1] == last;
        assert IsSubseq(f, s);
      } else {
        assert f == g;
        assert IsSubseq(f, s);
      }
    }
  }

  lemma {:induction false} FilterMembers<T>(s: seq<T>, p: T -> bool)
    ensures forall x :: x in Filter(s, p) <==> x in s && p(x)
    decreases |s|
  {
    if s != [] {
      var init, last := s[..|s| - 1], s[|s| - 1];
      FilterMembers(init, p);
      assert s == init + [last];
      assert Filter(s, p) == Filter(init, p) + (if p(last) then [last] else []);
    }
  }

  /** When every element passes, the filter returns the whole list. */
  lemma {:induction false} FilterAll<T>(s: seq<T>, p: T -> bool)
    requires forall i :: 0 <= i < |s| ==> p(s[i])
    ensures Filter(s, p) == s
    decreases |s|
  {
    if s != [] {
      FilterAll(s[..|s| - 1], p);
    }
  }

  /** When no element passes, the filter is empty. */
  lemma {:induction false} FilterNone<T>(s: seq<T>, p: T -> bool)
    requires forall i :: 0 <= i < |s| ==> !p(s[i])
    ensures Filter(s, p) == []
    decreases |s|
  {
    if s != [] {
      FilterNone(s[..|s| - 1], p);
    }
  }

  /** An empty filter means no element passes. */
  lemma FilterEmpty<T>(s: seq<T>, p: T -> bool)
    requires Filter(s, p) == []
    ensures forall i :: 0 <= i < |s| ==> !p(s[i])
  {
    FilterMembers(s, p);
    forall i | 0 <= i < |s| ensures !p(s[i]) {
      assert s[i] in s;
    }
  }

  /** Filters with the same verdict on every element agree. */
  lemma {:induction false} FilterSame<T>(s: seq<T>, p: T -> bool, q: T -> bool)
    requires forall i :: 0 <= i < |s| ==> p(s[i]) == q(s[i])
    ensures Filter(s, p) == Filter(s, q)
    decreases |s|
  {
    if s != [] {
      FilterSame(s[..|s| - 1], p, q);
    }
  }

  /** Filtering by a conjunction is filtering twice. */
  lemma {:induction false} FilterAnd<T>(s: seq<T>, p: T -> bool, q: T -> bool, pq: T -> bool)
    requires forall x :: pq(x) == (p(x) && q(x))
    ensures Filter(s, pq) == Filter(Filter(s, p), q)
    decreases |s|
  {
    if s != [] {
      var init, last := s[..|s| - 1], s[|s| - 1];
      FilterAnd(init, p, q, pq);
      assert Filter(s, pq) == Filter(init, pq) + (if pq(last) then [last] else []);
      assert Filter(s, p) == Filter(init, p) + (if p(last) then [last] else []);
      assert pq(last) == (p(last) && q(last));
      if p(last) {
        FilterSnoc(Filter(init, p), last, q);
        assert Filter(Filter(s, p), q) == Filter(Filter(init, p), q) + (if q(last) then [last] else []);
      } else {
        assert Filter(s, p) == Filter(init, p);
        assert Filter(s, pq) == Filter(init, pq);
      }
    }
  }

  /** `next((i for i, x in enumerate(s) if p(x)), None)` */
  function FirstIndex<T>(s: seq<T>, p: T -> bool): (r: Option<nat>)
    ensures r.Some? ==> r.value < |s| && p(s[r.value])
    ensures r.Some? ==> forall j :: 0 <= j < r.value ==> !p(s[j])
    ensures r.None? <==> forall j :: 0 <= j < |s| ==> !p(s[j])
  {
    if s == [] then None
    else if p(s[0]) then Some(0)
    else match FirstIndex(s[1..], p)
      case None => None
      case Some(k) => Some(k + 1)
  }

  /** The first match found by a scan that stopped at `i`. */
  lemma FirstIndexAt<T>(s: seq<T>, p: T -> bool, i: nat)
    requires i < |s| && p(s[i])
    requires forall j :: 0 <= j < i ==> !p(s[j])
    ensures FirstIndex(s, p) == Some(i)
  {
  }

  /** Predicates with the same verdict on every element find the same first match. */
  lemma FirstIndexSame<T>(s: seq<T>, p: T -> bool, q: T -> bool)
    requires forall i :: 0 <= i < |s| ==> p(s[i]) == q(s[i])
    ensures FirstIndex(s, p) == FirstIndex(s, q)
  {
  }

  /** Replacing the first match by another match leaves the first match where it was. */
  lemma FirstIndexUpdate<T>(s: seq<T>, p: T -> bool, k: nat, x: T)
    requires FirstIndex(s, p) == Some(k)
    requires p(x)
    ensures FirstIndex(s[k := x], p) == Some(k)
  {
    var s' := s[k := x];
    assert forall j :: 0 <= j < k ==> s'[j] == s[j];
    assert p(s'[k]);
  }

  /** The scan `for x in s: if p(x): ...; break`: the index of the first element `p` accepts. */
  method FindFirst<T>(s: seq<T>, p: T -> bool) returns (found: Option<nat>)
    ensures found == FirstIndex(s, p)
  {
    var i := 0;
    while i < |s|
      invariant 0 <= i <= |s|
      invariant forall j :: 0 <= j < i ==> !p(s[j])
    {
      if p(s[i]) {
        FirstIndexAt(s, p, i);
        return Some(i);
      }
      i := i + 1;
    }
    found := None;
  }

  /** The elements of `s` in first-occurrence order, each once. */
  function Dedup<T(==)>(s: seq<T>): (r: seq<T>)
    ensures forall i :: 0 <= i < |s| ==> s[i] in r
    ensures forall i :: 0 <= i < |r| ==> r[i] in s
    ensures forall i, j :: 0 <= i < j < |r| ==> r[i] != r[j]
    decreases |s|
  {
    if s == [] then []
    else
      var init := Dedup(s[..|s| - 1]);
      if s[|s| - 1] in s[..|s| - 1] then init else init + [s[|s| - 1]]
  }

  /** `s.remove(x)`: the first occurrence, if any, is dropped. */
  function RemoveFirst<T(==)>(s: seq<T>, x: T): (r: seq<T>)
    ensures x in s ==> |r| == |s| - 1
    ensures x !in s ==> r == s
  {
    if s == [] then []
    else if s[0] == x then
      assert s == [s[0]] + s[1..];
      s[1..]
    else
      assert s == [s[0]] + s[1..];
      [s[0]] + RemoveFirst(s[1..], x)
  }

  /** `s.remove(x)` takes exactly one `x` away, when there is one. */
  lemma {:induction false} RemoveFirstMultiset<T>(s: seq<T>, x: T)
    ensures multiset(RemoveFirst(s, x)) == multiset(s) - multiset{x}
    decreases |s|
  {
    if s != [] {
      assert s == [s[0]] + s[1..];
      if s[0] != x {
        RemoveFirstMultiset(s[1..], x);
        assert RemoveFirst(s, x) == [s[0]] + RemoveFirst(s[1..], x);
      }
    }
  }

  /** `s.remove(s[k])` removes index k when no earlier element equals `s[k]`. */
  lemma {:induction false} RemoveFirstAt<T>(s: seq<T>, k: nat)
    requires k < |s|
    requires forall j :: 0 <= j < k ==> s[j] != s[k]
    ensures RemoveFirst(s, s[k]) == s[..k] + s[k + 1..]
    decreases k
  {
    if k == 0 {
      assert RemoveFirst(s, s[0]) == s[1..];
    } else {
      var t := s[1..];
      assert t[k - 1] == s[k];
      assert forall j :: 0 <= j < k - 1 ==> t[j] != t[k - 1] by {
        forall j | 0 <= j < k - 1 ensures t[j] != t[k - 1] {
          assert t[j] == s[j + 1];
        }
      }
      RemoveFirstAt(t, k - 1);
      assert s[0] != s[k];
      assert RemoveFirst(s, s[k]) == [s[0]] + RemoveFirst(t, s[k]);
      assert [s[0]] + (t[..k - 1] + t[k..]) == s[..k] + s[k + 1..];
    }
  }

  /** `s.pop(k)`: the others keep their order, one place earlier after `k`. */
  lemma PopAt<T>(s: seq<T>, k: nat)
    requires k < |s|
    ensures var r := s[..k] + s[k + 1..];
      |r| == |s| - 1 &&
      (forall j :: 0 <= j < k ==> r[j] == s[j]) &&
      (forall j :: k <= j < |r| ==> r[j] == s[j + 1]) &&
      multiset(r) + multiset{s[k]} == multiset(s)
  {
    assert s == s[..k] + ([s[k]] + s[k + 1..]);
    MultisetAround(s[..k], s[k], s[k + 1..]);
  }

  /** `[f(x) for x in s]` where `f` may raise: None where it does on some element. */
  function MapAll<A, B>(s: seq<A>, f: A -> Option<B>): Option<seq<B>>
    decreases |s|
  {
    if s == [] then Some([])
    else
      match (MapAll(s[..|s| - 1], f), f(s[|s| - 1]))
      case (Some(ys), Some(y)) => Some(ys + [y])
      case _ => None
  }

  /** The comprehension raises exactly when `f` raises on some element, and otherwise maps each in order. */
  lemma {:induction false} MapAllExact<A, B>(s: seq<A>, f: A -> Option<B>)
    ensures MapAll(s, f).Some? <==> forall j :: 0 <= j < |s| ==> f(s[j]).Some?
    ensures MapAll(s, f).Some? ==>
      |MapAll(s, f).value| == |s| && forall j :: 0 <= j < |s| ==> MapAll(s, f).value[j] == f(s[j]).value
    decreases |s|
  {
    if s != [] {
      var init := s[..|s| - 1];
      MapAllExact(init, f);
      assert forall j :: 0 <= j < |init| ==> init[j] == s[j];
    }
  }

  /** `[x for x in s if t(x)]` where the test `t` may raise: None where it does on some element. */
  function KeepWhere<T>(s: seq<T>, t: T -> Option<bool>): Option<seq<T>>
    decreases |s|
  {
    if s == [] then Some([])
    else
      var last := s[|s| - 1];
      match (KeepWhere(s[..|s| - 1], t), t(last))
      case (Some(kept), Some(hit)) => Some(kept + (if hit then [last] else []))
      case _ => None
  }

  /** The comprehension raises exactly when a test does, and otherwise is the filter by the test's verdict. */
  lemma {:induction false} KeepWhereExact<T>(s: seq<T>, t: T -> Option<bool>, p: T -> bool)
    requires forall x :: p(x) == (t(x) == Some(true))
    ensures KeepWhere(s, t).Some? <==> forall j :: 0 <= j < |s| ==> t(s[j]).Some?
    ensures KeepWhere(s, t).Some? ==> KeepWhere(s, t).value == Filter(s, p)
    decreases |s|
  {
    if s != [] {
      var init := s[..|s| - 1];
      KeepWhereExact(init, t, p);
      assert forall j :: 0 <= j < |init| ==> init[j] == s[j];
    }
  }

  // ------------------------------------------------------------- sorting

  /** An element with its sort key: a string compared first, then an int. */
  datatype Keyed<T> = Keyed(major: string, minor: int, item: T)

  /** Python's tuple comparison `(a.major, a.minor) <= (b.major, b.minor)`. */
  predicate KeyLe<T>(a: Keyed<T>, b: Keyed<T>) {
    LexLess(a.major, b.major) || (a.major == b.major && a.minor <= b.minor)
  }

  predicate SortedByKey<T>(s: seq<Keyed<T>>) {
    forall i :: 0 <= i < |s| - 1 ==> KeyLe(s[i], s[i + 1])
  }

  lemma KeyTotal<T>(a: Keyed<T>, b: Keyed<T>)
    ensures KeyLe(a, b) || KeyLe(b, a)
  {
    LexTrichotomy(a.major, b.major);
  }

  /** Insert after every element whose key is not greater, as a stable sort does. */
  function Insert<T>(s: seq<Keyed<T>>, x: Keyed<T>): (r: seq<Keyed<T>>)
    ensures |r| == |s| + 1
    ensures r[0] == x || (s != [] && r[0] == s[0])
    ensures multiset(r) == multiset(s) + multiset{x}
  {
    if s == [] then [x]
    else if !KeyLe(s[0], x) then [x] + s
    else
      assert s == [s[0]] + s[1..];
      [s[0]] + Insert(s[1..], x)
  }

  lemma {:induction false} InsertSorted<T>(s: seq<Keyed<T>>, x: Keyed<T>)
    requires SortedByKey(s)
    ensures SortedByKey(Insert(s, x))
  {
    if s != [] {
      if !KeyLe(s[0], x) {
        KeyTotal(s[0], x);
      } else {
        InsertSorted(s[1..], x);
        var t := Insert(s[1..], x);
        assert Insert(s, x) == [s[0]] + t;
      }
    }
  }

  /** `list.sort(key=...)`: the result is ordered by key and a permutation of the input. */
  method SortByKey<T>(s: seq<Keyed<T>>) returns (r: seq<Keyed<T>>)
    ensures SortedByKey(r)
    ensures multiset(r) == multiset(s)
  {
    r := [];
    var i := 0;
    while i < |s|
      invariant 0 <= i <= |s|
      invariant SortedByKey(r)
      invariant multiset(r) == multiset(s[..i])
    {
      InsertSorted(r, s[i]);
      r := Insert(r, s[i]);
      assert s[..i + 1] == s[..i] + [s[i]];
      i := i + 1;
    }
    assert s[..|s|] == s;
  }
}
