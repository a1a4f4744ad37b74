/**
 * The two Python list operations the core relies on, with their exceptions
 * made explicit: `list.index(x)` and `list.remove(x)` both raise
 * `ValueError` when `x` is absent, written here as `None`.
 */
module PyList {
  import opened Wrappers

  /** `xs.index(x)`: the position of the first occurrence of `x`. */
  function IndexOf<T(==)>(xs: seq<T>, x: T): (r: Option<nat>)
    ensures r.Some? <==> x in xs
    ensures r.Some? ==> r.value < |xs| && xs[r.value] == x
    ensures r.Some? ==> forall j :: 0 <= j < r.value ==> xs[j] != x
  {
    if xs == [] then None
    else if xs[0] == x then Some(0)
    else match IndexOf(xs[1..], x)
      case None => None
      case Some(i) => Some(i + 1)
  }

  /**
   * The list `xs.remove(x)` leaves behind, defined element by element:
   * the scan keeps every entry up to the first `x` and drops that one.
   */
  function RemoveFirst<T(==)>(xs: seq<T>, x: T): (r: Option<seq<T>>)
    ensures r.Some? <==> x in xs
    ensures r.Some? ==> |r.value| == |xs| - 1
  {
    if xs == [] then None
    else if xs[0] == x then Some(xs[1..])
    else match RemoveFirst(xs[1..], x)
      case None => None
      case Some(rest) => Some([xs[0]] + rest)
  }

  /** Exactly one copy of `x` goes and every other entry stays. */
  lemma {:induction false} RemoveFirstMultiset<T>(xs: seq<T>, x: T)
    requires x in xs
    ensures RemoveFirst(xs, x).Some?
    ensures multiset(RemoveFirst(xs, x).value) == multiset(xs) - multiset{x}
  {
    assert xs == [xs[0]] + xs[1..];
    if xs[0] != x {
      RemoveFirstMultiset(xs[1..], x);
    }
  }

  /** Removing the first `x` is splicing out the index `xs.index(x)` finds. */
  lemma {:induction false} RemoveFirstIsSplice<T>(xs: seq<T>, x: T)
    requires x in xs
    ensures IndexOf(xs, x).Some? && RemoveFirst(xs, x).Some?
    ensures RemoveFirst(xs, x).value == xs[..IndexOf(xs, x).value] + xs[IndexOf(xs, x).value + 1..]
  {
    if xs[0] == x {
      assert xs[..0] + xs[1..] == xs[1..];
    } else {
      var tail := xs[1..];
      RemoveFirstIsSplice(tail, x);
      var i := IndexOf(tail, x).value;
      var rest := RemoveFirst(tail, x).value;
      assert IndexOf(xs, x) == Some(i + 1);
      assert RemoveFirst(xs, x) == Some([xs[0]] + rest);
      assert rest == tail[..i] + tail[i + 1..];
      SpliceCons(xs, i);
    }
  }

  /** Splicing position i out of the tail, then putting the head back. */
  lemma SpliceCons<T>(xs: seq<T>, i: nat)
    requires i + 1 < |xs|
    ensures [xs[0]] + (xs[1..][..i] + xs[1..][i + 1..]) == xs[..i + 1] + xs[i + 2..]
  {
    assert [xs[0]] + xs[1..][..i] == xs[..i + 1];
    assert xs[1..][i + 1..] == xs[i + 2..];
  }

  /**
   * Entries before the removed one keep their positions; entries after it
   * move one place to the front, so the relative order is that of `xs`.
   */
  lemma RemoveFirstAt<T>(xs: seq<T>, x: T, j: nat)
    requires x in xs
    requires j < |xs| - 1
    ensures RemoveFirst(xs, x).Some? && IndexOf(xs, x).Some?
    ensures RemoveFirst(xs, x).value[j] ==
            if j < IndexOf(xs, x).value then xs[j] else xs[j + 1]
  {
    RemoveFirstIsSplice(xs, x);
  }

  /** Only the first occurrence goes: a later `x` is still in the result. */
  lemma LaterOccurrencesRemain<T>(xs: seq<T>, x: T, j: nat)
    requires x in xs
    requires j < |xs| && xs[j] == x && IndexOf(xs, x).value < j
    ensures RemoveFirst(xs, x).Some? && x in RemoveFirst(xs, x).value
  {
    RemoveFirstAt(xs, x, j - 1);
  }

  /** `xs.remove(x)`: scans for the first `x` and splices it out. */
  method Remove<T(==)>(xs: seq<T>, x: T) returns (r: Option<seq<T>>)
    ensures r == RemoveFirst(xs, x)
  {
    var i := 0;
    while i < |xs| && xs[i] != x
      invariant 0 <= i <= |xs|
      invariant forall j :: 0 <= j < i ==> xs[j] != x
    {
      i := i + 1;
    }
    if i == |xs| {
      r := None;
    } else {
      RemoveFirstIsSplice(xs, x);
      r := Some(xs[..i] + xs[i + 1..]);
    }
  }
}
