/** An insertion-ordered, duplicate-free collection: the `LinkedHashSet`
    the fusion step collects candidates in, kept as a sequence. */
module OrderedSet {

  /** No element occurs twice. */
  predicate NoDuplicates<T(==,!new)>(s: seq<T>) {
    forall i, j :: 0 <= i < j < |s| ==> s[i] != s[j]
  }

  /** Position of the first occurrence of `x` in `xs`. */
  function FirstIndex<T(==,!new)>(xs: seq<T>, x: T): (r: nat)
    requires x in xs
    ensures r < |xs| && xs[r] == x && x !in xs[..r]
  {
    if xs[0] == x then 0
    else
      var i := FirstIndex(xs[1..], x);
      assert xs[..i + 1] == [xs[0]] + xs[1..][..i];
      i + 1
  }

  /** Extending a sequence does not move the first occurrence of an element
      already present. */
  lemma {:induction false} FirstIndexPrefix<T(!new)>(xs: seq<T>, ys: seq<T>, x: T)
    requires x in xs
    ensures FirstIndex(xs + ys, x) == FirstIndex(xs, x)
  {
    if xs[0] != x {
      assert (xs + ys)[1..] == xs[1..] + ys;
      FirstIndexPrefix(xs[1..], ys, x);
    }
  }

  /** `r` lists each distinct element of `xs` once, ordered by where it
      first occurs in `xs`: what inserting `xs` one by one into an empty
      linked hash set leaves. */
  ghost predicate InFirstOccurrenceOrder<T(!new)>(r: seq<T>, xs: seq<T>) {
    && NoDuplicates(r)
    && (forall y :: y in r <==> y in xs)
    && (forall i, j :: 0 <= i < j < |r| ==> FirstIndex(xs, r[i]) < FirstIndex(xs, r[j]))
  }

  /** `set.add(x)`: appends `x` unless it is already present. */
  function Add<T(==,!new)>(s: seq<T>, x: T): (r: seq<T>)
    requires NoDuplicates(s)
    ensures NoDuplicates(r)
    ensures forall y :: y in r <==> y in s || y == x
    ensures |s| <= |r| && r[..|s|] == s
  {
    if x in s then s else s + [x]
  }

  /** `set.addAll(xs)`: adds the elements of `xs` in order. */
  function AddAll<T(==,!new)>(s: seq<T>, xs: seq<T>): (r: seq<T>)
    requires NoDuplicates(s)
    ensures NoDuplicates(r)
    ensures forall y :: y in r <==> y in s || y in xs
    ensures |s| <= |r| && r[..|s|] == s
  {
    if |xs| == 0 then s else Add(AddAll(s, xs[..|xs| - 1]), xs[|xs| - 1])
  }

  /** Adding two batches one after the other is adding their concatenation. */
  lemma {:induction false} AddAllConcat<T(!new)>(s: seq<T>, a: seq<T>, b: seq<T>)
    requires NoDuplicates(s)
    ensures AddAll(AddAll(s, a), b) == AddAll(s, a + b)
  {
    if |b| == 0 {
      assert a + b == a;
    } else {
      var init := b[..|b| - 1];
      assert (a + b)[..|a + b| - 1] == a + init;
      AddAllConcat(s, a, init);
    }
  }

  /** Extending `a` keeps the first occurrence of everything already in it. */
  lemma FirstIndicesKept<T(!new)>(a: seq<T>, x: T)
    ensures forall y :: y in a ==> FirstIndex(a + [x], y) == FirstIndex(a, y)
  {
    forall y | y in a
      ensures FirstIndex(a + [x], y) == FirstIndex(a, y)
    {
      FirstIndexPrefix(a, [x], y);
    }
  }

  /** Adding an element already present keeps the order. */
  lemma AddOrderPresent<T(!new)>(r: seq<T>, a: seq<T>, x: T)
    requires InFirstOccurrenceOrder(r, a) && x in r
    ensures InFirstOccurrenceOrder(Add(r, x), a + [x])
  {
    FirstIndicesKept(a, x);
    assert Add(r, x) == r;
    assert forall i :: 0 <= i < |r| ==> r[i] in a;
  }

  /** Adding a new element puts it last, after everything of `a`. */
  lemma AddOrderNew<T(!new)>(r: seq<T>, a: seq<T>, x: T)
    requires InFirstOccurrenceOrder(r, a) && x !in r
    ensures InFirstOccurrenceOrder(Add(r, x), a + [x])
  {
    FirstIndicesKept(a, x);
    var r' := r + [x];
    assert Add(r, x) == r';
    assert x !in a;
    assert FirstIndex(a + [x], x) == |a|;
    forall i, j | 0 <= i < j < |r'|
      ensures FirstIndex(a + [x], r'[i]) < FirstIndex(a + [x], r'[j])
    {
      assert r'[i] == r[i] && r[i] in a;
      if j < |r| {
        assert r'[j] == r[j] && r[j] in a;
      }
    }
  }

  /** Adding one more element keeps a set in first-occurrence order of the
      extended sequence. */
  lemma AddOrder<T(!new)>(r: seq<T>, a: seq<T>, x: T)
    requires InFirstOccurrenceOrder(r, a)
    ensures InFirstOccurrenceOrder(Add(r, x), a + [x])
  {
    if x in r {
      AddOrderPresent(r, a, x);
    } else {
      AddOrderNew(r, a, x);
    }
  }

  /** Filling an empty linked hash set from `xs` gives the distinct
      elements of `xs` in first-occurrence order. */
  lemma {:induction false} AddAllFromEmpty<T(!new)>(xs: seq<T>)
    ensures InFirstOccurrenceOrder(AddAll([], xs), xs)
  {
    if |xs| > 0 {
      var init, x := xs[..|xs| - 1], xs[|xs| - 1];
      assert init + [x] == xs;
      AddAllFromEmpty(init);
      AddOrder(AddAll([], init), init, x);
      assert AddAll([], xs) == Add(AddAll([], init), x);
    }
  }

  /** In `r`, no element outside `a` precedes an element of `a`. */
  ghost predicate ElementsOfFirst<T(!new)>(r: seq<T>, a: seq<T>) {
    forall i, j :: 0 <= i < j < |r| && r[j] in a ==> r[i] in a
  }

  /** In first-occurrence order of `a + b`, elements of `a` come before
      all the others. */
  lemma PrefixComesFirst<T(!new)>(r: seq<T>, a: seq<T>, b: seq<T>)
    requires InFirstOccurrenceOrder(r, a + b)
    ensures ElementsOfFirst(r, a)
  {
    forall i, j | 0 <= i < j < |r| && r[j] in a
      ensures r[i] in a
    {
      FirstIndexPrefix(a, b, r[j]);
      var k := FirstIndex(a + b, r[i]);
      assert k < FirstIndex(a + b, r[j]);
      assert a[k] == r[i];
    }
  }

  /** A single element, however often repeated, leaves a one-element set. */
  lemma {:induction false} AddAllSame<T(!new)>(xs: seq<T>, x: T)
    requires |xs| > 0
    requires forall i :: 0 <= i < |xs| ==> xs[i] == x
    ensures AddAll([], xs) == [x]
  {
    if |xs| > 1 {
      AddAllSame(xs[..|xs| - 1], x);
    }
  }
}
