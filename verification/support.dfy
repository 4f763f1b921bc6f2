/** Small shared vocabulary: an optional value, distinct sequences, and the
    order in which a Python `for` loop visits the members of a set. */
module Support {

  /** Python's `None` or a present value. */
  datatype Option<+T> = None | Some(value: T)

  function Min(a: int, b: int): int
  {
    if a <= b then a else b
  }

  /** The members of a sequence, as a set. */
  function Elems<T>(xs: seq<T>): set<T>
  {
    set x | x in xs
  }

  /** No value occurs twice. */
  predicate Distinct<T(==)>(xs: seq<T>)
  {
    forall i, j :: 0 <= i < j < |xs| ==> xs[i] != xs[j]
  }

  /** `xs` lists every member of `s` exactly once. */
  predicate Enumerates<T(==)>(xs: seq<T>, s: set<T>)
  {
    Distinct(xs) && Elems(xs) == s
  }

  /** A distinct sequence has as many members as it has positions. */
  lemma {:induction false} DistinctCard<T>(xs: seq<T>)
    requires Distinct(xs)
    ensures |Elems(xs)| == |xs|
  {
    if |xs| > 0 {
      var init := xs[..|xs| - 1];
      var last := xs[|xs| - 1];
      assert Distinct(init);
      DistinctCard(init);
      assert Elems(xs) == Elems(init) + {last};
      assert last !in Elems(init);
    }
  }

  /** A prefix of an enumeration of `s` is a distinct part of `s`, of the
      requested size when `s` is large enough. */
  lemma PrefixOfEnumeration<T>(xs: seq<T>, s: set<T>, n: nat)
    requires Enumerates(xs, s)
    ensures Distinct(xs[..Min(n, |xs|)])
    ensures Elems(xs[..Min(n, |xs|)]) <= s
    ensures |xs| == |s|
    ensures |xs[..Min(n, |xs|)]| == Min(n, |s|)
  {
    DistinctCard(xs);
  }

  /** The only enumeration of the empty set is the empty sequence. */
  lemma EnumerationOfEmpty<T>(xs: seq<T>)
    requires Enumerates(xs, {})
    ensures xs == []
  {
    DistinctCard(xs);
  }

  /** A subset is no larger than its superset. */
  lemma SubsetCard<T>(a: set<T>, b: set<T>)
    requires a <= b
    ensures |a| <= |b|
  {
    assert b == a + (b - a);
  }

  /** A subset missing a member of its superset is smaller. */
  lemma StrictSubsetCard<T>(a: set<T>, b: set<T>, x: T)
    requires a <= b && x in b && x !in a
    ensures |a| < |b|
  {
    SubsetCard(a + {x}, b);
  }

  /** One enumeration of each set, chosen arbitrarily: it exists only to show
      that the set orders below are not an empty type. */
  ghost function Elements(s: set<string>): (xs: seq<string>)
    ensures Enumerates(xs, s)
    decreases |s|
  {
    if s == {} then []
    else
      var x :| x in s;
      var rest := Elements(s - {x});
      assert Elems([x] + rest) == {x} + Elems(rest);
      [x] + rest
  }

  /** The order in which the interpreter walks a set of strings: unspecified,
      but visiting every member exactly once. It is modelled as a function of
      the set's members, although CPython's order also depends on how the set
      was built; each set in the model is walked only once. */
  type SetOrder = order: set<string> -> seq<string> | forall s :: Enumerates(order(s), s)
    ghost witness (s: set<string>) => Elements(s)

  /** The one piece of interpreter behaviour the batch result depends on:
      the order in which sets are walked. */
  datatype Runtime = Runtime(order: SetOrder)

  /** `list(s)[:n]`: the first `n` members of `s` in the interpreter's order. */
  function FirstOf(order: SetOrder, s: set<string>, n: nat): (r: seq<string>)
    ensures Distinct(r)
    ensures Elems(r) <= s
    ensures |r| <= n
  {
    PrefixOfEnumeration(order(s), s, n);
    order(s)[..Min(n, |order(s)|)]
  }

  /** The cut keeps `n` members when there are that many, and all of them
      otherwise. */
  lemma FirstOfSize(order: SetOrder, s: set<string>, n: nat)
    ensures |FirstOf(order, s, n)| == Min(n, |s|)
    ensures |s| <= n ==> Elems(FirstOf(order, s, n)) == s
  {
    PrefixOfEnumeration(order(s), s, n);
  }
}
