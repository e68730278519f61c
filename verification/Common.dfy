/** Small value types and sequence facts shared by the other modules. */
module Common {

  const MAX_INT64: int := 0x7fff_ffff_ffff_ffff

  datatype Option<+T> = None | Some(value: T)

  datatype Result<+T, +E> = Ok(value: T) | Err(error: E)

  predicate Distinct<T(==)>(s: seq<T>) {
    forall i, j | 0 <= i < j < |s| :: s[i] != s[j]
  }

  ghost function Elems<T>(s: seq<T>): set<T> {
    set x | x in s
  }

  /** `s` with only the elements of `keep`, in the same order. */
  ghost function Filter<T(!new)>(s: seq<T>, keep: set<T>): (r: seq<T>)
    ensures forall x :: x in r <==> x in s && x in keep
    ensures Distinct(s) ==> Distinct(r)
  {
    if s == [] then []
    else
      var rest := Filter(s[..|s| - 1], keep);
      if s[|s| - 1] in keep then rest + [s[|s| - 1]] else rest
  }

  /** A list without repetition has as many elements as its set of elements. */
  lemma {:induction false} DistinctCount<T>(s: seq<T>)
    requires Distinct(s)
    ensures |Elems(s)| == |s|
  {
    if s != [] {
      var last := |s| - 1;
      DistinctCount(s[..last]);
      assert Elems(s) == Elems(s[..last]) + {s[last]};
    }
  }

  /** A distinct list drawn from a finite set and as long as the set lists all of it. */
  lemma DistinctCovers<T>(s: seq<T>, all: set<T>)
    requires Distinct(s) && Elems(s) <= all && |s| == |all|
    ensures Elems(s) == all
  {
    DistinctCount(s);
    SubsetOfEqualSize(Elems(s), all);
  }

  lemma SubsetOfEqualSize<T>(a: set<T>, b: set<T>)
    requires a <= b && |a| == |b|
    ensures a == b
  {
    assert b == a + (b - a);
    assert |b| == |a| + |b - a|;
  }

  lemma ElemsAppend<T>(s: seq<T>, x: T)
    ensures Elems(s + [x]) == Elems(s) + {x}
  {
  }

  lemma SmallerLeaves<T>(a: set<T>, b: set<T>)
    requires a <= b && |a| != |b|
    ensures b - a != {}
  {
    assert b == a + (b - a);
  }

  lemma SubsetSize<T>(a: set<T>, b: set<T>)
    requires a <= b
    ensures |a| <= |b|
  {
    assert b == a + (b - a);
  }

  lemma AppendMoves<T>(a: seq<T>, b: seq<T>, c: seq<T>)
    ensures a + (b + c) == a + b + c
  {
  }

  lemma LastApart<T>(a: seq<T>, b: seq<T>)
    requires b != []
    ensures var init, last := b[..|b| - 1], b[|b| - 1];
            b == init + [last] && a + b == (a + init) + [last]
  {
  }

  /** The step at which a growing sequence gets its `k`-th element. */
  lemma {:induction false} StepOf<T>(h: nat -> seq<T>, n: nat, k: nat) returns (i: nat)
    requires h(0) == [] && k < |h(n)| && forall j: nat | j < n :: h(j) <= h(j + 1)
    ensures i < n && |h(i)| <= k < |h(i + 1)| && h(i + 1) <= h(n)
  {
    if k < |h(n - 1)| {
      i := StepOf(h, n - 1, k);
      assert h(n - 1) <= h(n - 1 + 1);
    } else {
      i := n - 1;
    }
  }

  // ---------------------------------------------------------------- products

  lemma ProductOrder(a: int, b: int, w: int)
    requires a <= b && w >= 0
    ensures a * w <= b * w
  {
    assert b * w == a * w + (b - a) * w;
  }

  /** Two multiples less than one unit apart are the same. */
  lemma MultipleBetween(a: int, b: int, w: int)
    requires w > 0 && -w < a * w - b * w < w
    ensures a == b
  {
    assert (b + 1) * w == b * w + w && (a + 1) * w == a * w + w;
    if a > b {
      ProductOrder(b + 1, a, w);
    } else if a < b {
      ProductOrder(a + 1, b, w);
    }
  }

  lemma MultipleHasNoRest(q: int, w: int)
    requires w > 0
    ensures (q * w) % w == 0 && (q * w) / w == q
  {
    var x := q * w;
    assert x == w * (x / w) + x % w && w * (x / w) == (x / w) * w;
    MultipleBetween(q, x / w, w);
  }
}
