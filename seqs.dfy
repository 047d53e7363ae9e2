/** Sequence vocabulary shared by the models: optional values, error results,
    duplicate-freedom, first-seen deduplication (the `if x not in acc: acc.append(x)`
    idiom), flattening and Python's `list.remove`. */
module Seqs {

  /** Python's `None` or a value. */
  datatype Option<T> = None | Some(value: T)

  /** A value or the message of the exception that was raised instead. */
  datatype Result<T> = Ok(value: T) | Err(message: string)

  predicate NoDups<T(==)>(s: seq<T>) {
    forall i, j :: 0 <= i < j < |s| ==> s[i] != s[j]
  }

  function Min(a: int, b: int): int {
    if a <= b then a else b
  }

  lemma AppendAssoc<T>(a: seq<T>, b: seq<T>, c: seq<T>)
    ensures a + b + c == a + (b + c)
  {
  }

  lemma SliceSplit<T>(s: seq<T>, i: nat, j: nat)
    requires i <= j <= |s|
    ensures s[..j] == s[..i] + s[i..j]
  {
  }

  lemma SliceOfSlice<T>(s: seq<T>, a: nat, b: nat, c: nat)
    requires a <= |s| && b <= c <= |s| - a
    ensures s[a..][b..c] == s[a + b..a + c]
  {
  }

  /** The lists of `ss` concatenated in order. */
  function Concat<T>(ss: seq<seq<T>>): seq<T> {
    if ss == [] then [] else ss[0] + Concat(ss[1..])
  }

  lemma {:induction false} ConcatAppend<T>(a: seq<seq<T>>, b: seq<seq<T>>)
    ensures Concat(a + b) == Concat(a) + Concat(b)
  {
    if a == [] {
      assert a + b == b;
    } else {
      assert (a + b)[1..] == a[1..] + b;
      ConcatAppend(a[1..], b);
    }
  }

  lemma ConcatOne<T>(a: seq<seq<T>>, x: seq<T>)
    ensures Concat(a + [x]) == Concat(a) + x
  {
    ConcatAppend(a, [x]);
    assert Concat([x]) == x + Concat([]);
  }

  /** `[v for x in xs if (v := f(x)) is not None]`: the present results, in order. */
  function FilterMap<T, U>(f: T -> Option<U>, xs: seq<T>): seq<U>
    decreases |xs|
  {
    if xs == [] then []
    else
      FilterMap(f, xs[..|xs| - 1]) + (match f(xs[|xs| - 1]) case Some(v) => [v] case None => [])
  }

  lemma FilterMapAppend<T, U>(f: T -> Option<U>, xs: seq<T>, x: T)
    ensures FilterMap(f, xs + [x]) == FilterMap(f, xs) + (match f(x) case Some(v) => [v] case None => [])
  {
    assert (xs + [x])[..|xs|] == xs;
  }

  /** One more element of a prefix adds its result, if any. */
  lemma FilterMapPrefix<T, U>(f: T -> Option<U>, xs: seq<T>, i: nat)
    requires i < |xs|
    ensures FilterMap(f, xs[..i + 1]) == FilterMap(f, xs[..i]) + (match f(xs[i]) case Some(v) => [v] case None => [])
  {
    assert xs[..i + 1][..i] == xs[..i];
  }

  /** Every result comes from some element. */
  lemma {:induction false} FilterMapSource<T, U>(f: T -> Option<U>, xs: seq<T>, v: U) returns (i: nat)
    requires v in FilterMap(f, xs)
    ensures i < |xs| && f(xs[i]) == Some(v)
    decreases |xs|
  {
    var n := |xs| - 1;
    if v in FilterMap(f, xs[..n]) {
      i := FilterMapSource(f, xs[..n], v);
      assert xs[..n][i] == xs[i];
    } else {
      i := n;
    }
  }

  /** Every present result of an element is kept. */
  lemma {:induction false} FilterMapKeeps<T, U>(f: T -> Option<U>, xs: seq<T>, i: nat)
    requires i < |xs| && f(xs[i]).Some?
    ensures f(xs[i]).value in FilterMap(f, xs)
    decreases |xs|
  {
    var n := |xs| - 1;
    if i < n {
      FilterMapKeeps(f, xs[..n], i);
      assert xs[..n][i] == xs[i];
    }
  }

  /** A value is in the result exactly when some element maps to it. */
  lemma FilterMapMembers<T, U>(f: T -> Option<U>, xs: seq<T>)
    ensures forall v :: v in FilterMap(f, xs) <==> exists i :: 0 <= i < |xs| && f(xs[i]) == Some(v)
  {
    forall v ensures v in FilterMap(f, xs) <==> exists i :: 0 <= i < |xs| && f(xs[i]) == Some(v) {
      if v in FilterMap(f, xs) {
        var i := FilterMapSource(f, xs, v);
      }
      if exists i :: 0 <= i < |xs| && f(xs[i]) == Some(v) {
        var i :| 0 <= i < |xs| && f(xs[i]) == Some(v);
        FilterMapKeeps(f, xs, i);
      }
    }
  }

  /** The list `acc` after running `for x in xs: if x not in acc: acc.append(x)`. */
  function AppendNew<T(==)>(acc: seq<T>, xs: seq<T>): seq<T>
    decreases |xs|
  {
    if xs == [] then acc
    else
      var a := AppendNew(acc, xs[..|xs| - 1]);
      if xs[|xs| - 1] in a then a else a + [xs[|xs| - 1]]
  }

  lemma AppendNewSnoc<T>(acc: seq<T>, xs: seq<T>, x: T)
    ensures AppendNew(acc, xs + [x]) ==
            (if x in AppendNew(acc, xs) then AppendNew(acc, xs) else AppendNew(acc, xs) + [x])
  {
    assert (xs + [x])[..|xs|] == xs;
  }

  /** First-seen deduplication: the distinct elements of `xs` in order of first occurrence
      (also what pandas' `unique()` returns). */
  function Dedup<T(==)>(xs: seq<T>): seq<T> {
    AppendNew([], xs)
  }

  /** AppendNew keeps what was there, adds exactly the elements of `xs`, and adds no duplicate. */
  lemma {:induction false} AppendNewFacts<T>(acc: seq<T>, xs: seq<T>)
    ensures acc <= AppendNew(acc, xs)
    ensures forall x :: x in AppendNew(acc, xs) <==> x in acc || x in xs
    ensures NoDups(acc) ==> NoDups(AppendNew(acc, xs))
    decreases |xs|
  {
    if xs != [] {
      var init := xs[..|xs| - 1];
      assert xs == init + [xs[|xs| - 1]];
      AppendNewFacts(acc, init);
    }
  }

  /** The position of the first occurrence of `x` in `s`. */
  function FirstIndex<T(==)>(s: seq<T>, x: T): (k: nat)
    requires x in s
    ensures k < |s| && s[k] == x
    ensures forall j :: 0 <= j < k ==> s[j] != x
  {
    if s[0] == x then 0 else 1 + FirstIndex(s[1..], x)
  }

  lemma {:induction false} FirstIndexExtend<T>(s: seq<T>, y: T, x: T)
    requires x in s
    ensures FirstIndex(s + [y], x) == FirstIndex(s, x)
  {
    if s[0] != x {
      assert (s + [y])[1..] == s[1..] + [y];
      FirstIndexExtend(s[1..], y, x);
    }
  }

  /** Dedup lists every element of `xs` exactly once and in order of first occurrence. */
  lemma DedupFirstSeen<T>(xs: seq<T>)
    ensures NoDups(Dedup(xs))
    ensures forall x :: x in Dedup(xs) <==> x in xs
    ensures forall i, j :: 0 <= i < j < |Dedup(xs)| ==>
              FirstIndex(xs, Dedup(xs)[i]) < FirstIndex(xs, Dedup(xs)[j])
  {
    AppendNewFacts([], xs);
    DedupOrder(xs);
  }

  lemma {:induction false} DedupOrder<T>(xs: seq<T>)
    ensures forall x :: x in Dedup(xs) ==> x in xs
    ensures forall i, j :: 0 <= i < j < |Dedup(xs)| ==>
              FirstIndex(xs, Dedup(xs)[i]) < FirstIndex(xs, Dedup(xs)[j])
    decreases |xs|
  {
    if xs != [] {
      var init, last := xs[..|xs| - 1], xs[|xs| - 1];
      assert xs == init + [last];
      DedupOrder(init);
      AppendNewFacts([], init);
      var d, d' := Dedup(init), Dedup(xs);
      assert d' == if last in d then d else d + [last];
      forall i, j | 0 <= i < j < |d'|
        ensures FirstIndex(xs, d'[i]) < FirstIndex(xs, d'[j])
      {
        assert d'[i] == d[i] && d[i] in d;
        FirstIndexExtend(init, last, d[i]);
        if j < |d| {
          assert d'[j] == d[j] && d[j] in d;
          FirstIndexExtend(init, last, d[j]);
        } else {
          assert last !in init;
          assert FirstIndex(xs, last) == |init|;
        }
      }
    }
  }

  lemma {:induction false} DedupOfNoDups<T>(xs: seq<T>)
    requires NoDups(xs)
    ensures Dedup(xs) == xs
    decreases |xs|
  {
    if xs != [] {
      var init := xs[..|xs| - 1];
      assert xs == init + [xs[|xs| - 1]];
      DedupOfNoDups(init);
      assert xs[|xs| - 1] !in init;
    }
  }

  /** Deduplicating twice is deduplicating once. */
  lemma DedupIdempotent<T>(xs: seq<T>)
    ensures Dedup(Dedup(xs)) == Dedup(xs)
  {
    DedupFirstSeen(xs);
    DedupOfNoDups(Dedup(xs));
  }

  /** Python's `list.remove(x)` for an `x` in the list: drops its first occurrence. */
  function RemoveFirst<T(==)>(s: seq<T>, x: T): (r: seq<T>)
    requires x in s
    ensures r == s[..FirstIndex(s, x)] + s[FirstIndex(s, x) + 1..]
  {
    if s[0] == x then s[1..] else [s[0]] + RemoveFirst(s[1..], x)
  }

  /** Python's `list(set(xs))`: every element of `xs` once, in an order the model leaves open. */
  method ListOfSet<T(==)>(xs: seq<T>) returns (r: seq<T>)
    ensures NoDups(r)
    ensures forall x :: x in r <==> x in xs
  {
    var rest := set x | x in xs;
    r := [];
    while rest != {}
      invariant NoDups(r)
      invariant forall x :: x in r ==> x !in rest
      invariant forall x :: x in xs <==> x in r || x in rest
      decreases |rest|
    {
      var x :| x in rest;
      r := r + [x];
      rest := rest - {x};
    }
  }

  function Elements<T>(s: seq<T>): set<T> {
    set x | x in s
  }

  lemma {:induction false} NoDupsCard<T>(s: seq<T>)
    requires NoDups(s)
    ensures |Elements(s)| == |s|
    decreases |s|
  {
    if s != [] {
      var n := |s| - 1;
      assert NoDups(s[..n]);
      NoDupsCard(s[..n]);
      assert s == s[..n] + [s[n]];
      assert Elements(s) == Elements(s[..n]) + {s[n]};
      assert s[n] !in Elements(s[..n]);
    }
  }

  /** Two duplicate-free lists with the same elements have the same length. */
  lemma NoDupsSameLength<T>(a: seq<T>, b: seq<T>)
    requires NoDups(a) && NoDups(b)
    requires forall x :: x in a <==> x in b
    ensures |a| == |b|
  {
    NoDupsCard(a);
    NoDupsCard(b);
    assert Elements(a) == Elements(b);
  }

  /** `[x for x in s if p(x)]`. */
  function Filter<T>(p: T -> bool, s: seq<T>): (r: seq<T>)
    ensures |r| <= |s|
  {
    if s == [] then [] else (if p(s[0]) then [s[0]] else []) + Filter(p, s[1..])
  }

  /** The filter keeps each element satisfying `p` as often as it occurs, and no other. */
  lemma {:induction false} FilterMultiset<T>(p: T -> bool, s: seq<T>)
    ensures forall x :: multiset(Filter(p, s))[x] == if p(x) then multiset(s)[x] else 0
    decreases |s|
  {
    if s != [] {
      FilterMultiset(p, s[1..]);
      assert s == [s[0]] + s[1..];
    }
  }

  lemma FilterMembers<T>(p: T -> bool, s: seq<T>)
    ensures forall x :: x in Filter(p, s) <==> x in s && p(x)
  {
    FilterMultiset(p, s);
    forall x ensures x in Filter(p, s) <==> x in s && p(x) {
      assert x in Filter(p, s) <==> x in multiset(Filter(p, s));
      assert x in s <==> x in multiset(s);
    }
  }

  lemma {:induction false} FilterAll<T>(p: T -> bool, s: seq<T>)
    requires forall x :: x in s ==> p(x)
    ensures Filter(p, s) == s
    decreases |s|
  {
    if s != [] {
      assert s[0] in s;
      FilterAll(p, s[1..]);
      assert s == [s[0]] + s[1..];
    }
  }

  /** Filtering a concatenation filters each part. */
  lemma {:induction false} FilterAppend<T>(p: T -> bool, a: seq<T>, b: seq<T>)
    ensures Filter(p, a + b) == Filter(p, a) + Filter(p, b)
    decreases |a|
  {
    if a != [] {
      assert (a + b)[0] == a[0] && (a + b)[1..] == a[1..] + b;
      FilterAppend(p, a[1..], b);
      var h: seq<T> := if p(a[0]) then [a[0]] else [];
      assert Filter(p, a + b) == h + Filter(p, a[1..] + b);
      assert Filter(p, a) == h + Filter(p, a[1..]);
      AppendAssoc(h, Filter(p, a[1..]), Filter(p, b));
    } else {
      assert a + b == b;
    }
  }

  /** Dropping the first occurrence of an element the filter drops anyway changes nothing. */
  lemma {:induction false} FilterRemoveFirst<T>(p: T -> bool, s: seq<T>, x: T)
    requires x in s && !p(x)
    ensures Filter(p, RemoveFirst(s, x)) == Filter(p, s)
    decreases |s|
  {
    if s[0] != x {
      assert x in s[1..];
      FilterRemoveFirst(p, s[1..], x);
      var r := RemoveFirst(s, x);
      assert r == [s[0]] + RemoveFirst(s[1..], x);
      assert r[1..] == RemoveFirst(s[1..], x);
    }
  }
}
