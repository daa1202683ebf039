/** Sparse vectors: a sequence of (dimension, weight) elements kept in
    ascending order of dimension. Weights are `f64` in the library and `real`
    here; `sqrt` is a parameter standing for `f64::sqrt`. */
module Vectors {
  import opened Results

  datatype Element = Element(index: nat, value: real)

  datatype Vector = Vector(elements: seq<Element>)

  /** The ways a vector operation panics. */
  datatype Panic =
    | DuplicateIndex(index: nat)                    // `assert_ne!` in `insert`
    | IndexOutOfBounds(position: nat, length: nat)  // slice indexing in `dot`

  /** The representation invariant that `insert` maintains. */
  ghost predicate StrictlyAscending(es: seq<Element>) {
    forall i, j | 0 <= i < j < |es| :: es[i].index < es[j].index
  }

  /** The weaker order that `upsert` maintains: duplicates are allowed. */
  ghost predicate Ascending(es: seq<Element>) {
    forall i, j | 0 <= i < j < |es| :: es[i].index <= es[j].index
  }

  ghost predicate HasIndex(es: seq<Element>, index: nat) {
    exists k | 0 <= k < |es| :: es[k].index == index
  }

  /** The characteristics `f64::sqrt` is relied on for: the non-negative root. */
  ghost predicate IsSqrt(sqrt: real -> real) {
    forall x: real | 0.0 <= x :: 0.0 <= sqrt(x) && sqrt(x) * sqrt(x) == x
  }

  /** `Vector::new`. */
  function Empty(): (v: Vector)
    ensures |v.elements| == 0 && StrictlyAscending(v.elements)
  {
    Vector([])
  }

  /** `Vector::from`: value `k` becomes the element at dimension `k`. */
  method From(values: seq<real>) returns (v: Vector)
    ensures |v.elements| == |values|
    ensures forall k | 0 <= k < |values| :: v.elements[k].index == k && v.elements[k].value == values[k]
    ensures StrictlyAscending(v.elements)
  {
    var es: seq<Element> := [];
    for k := 0 to |values|
      invariant |es| == k
      invariant forall i | 0 <= i < k :: es[i] == Element(i, values[i])
    {
      es := es + [Element(k, values[k])];
    }
    v := Vector(es);
  }

  /** `iter().position(|e| e.index >= index)`, with "none" as the length. */
  function Position(es: seq<Element>, index: nat): (p: nat)
    ensures p <= |es|
    ensures forall k | 0 <= k < p :: es[k].index < index
    ensures p < |es| ==> index <= es[p].index
  {
    if |es| == 0 || index <= es[0].index then 0 else 1 + Position(es[1..], index)
  }

  /** The sequence with `e` placed at position `p`. */
  function Splice(es: seq<Element>, p: nat, e: Element): (r: seq<Element>)
    requires p <= |es|
    ensures |r| == |es| + 1
    ensures multiset(r) == multiset(es) + multiset{e}
  {
    assert es == es[..p] + es[p..];
    es[..p] + [e] + es[p..]
  }

  /** `Vector::insert`: sorted insertion that panics when the dimension is
      already present. */
  function Insert(v: Vector, index: nat, value: real): (r: Result<Vector, Panic>)
    ensures Ascending(v.elements) ==> (r.Err? <==> HasIndex(v.elements, index))
    ensures r.Ok? ==> |r.value.elements| == |v.elements| + 1
    ensures r.Ok? ==> multiset(r.value.elements) == multiset(v.elements) + multiset{Element(index, value)}
    ensures StrictlyAscending(v.elements) && r.Ok? ==> StrictlyAscending(r.value.elements)
  {
    var es := v.elements;
    var p := Position(es, index);
    if p < |es| then
      if es[p].index == index then
        Err(DuplicateIndex(index))
      else
        Ok(Vector(Splice(es, p, Element(index, value))))
    else
      assert Splice(es, p, Element(index, value)) == es + [Element(index, value)];
      Ok(Vector(es + [Element(index, value)]))
  }

  /** `Vector::upsert`: sorted insertion that never fails and never merges. */
  function Upsert(v: Vector, index: nat, value: real): (r: Vector)
    ensures var p := Position(v.elements, index);
      r.elements == v.elements[..p] + [Element(index, value)] + v.elements[p..]
    ensures |r.elements| == |v.elements| + 1
    ensures multiset(r.elements) == multiset(v.elements) + multiset{Element(index, value)}
    ensures Ascending(v.elements) ==> Ascending(r.elements)
  {
    var es := v.elements;
    var p := Position(es, index);
    if p < |es| then
      Vector(Splice(es, p, Element(index, value)))
    else
      assert Splice(es, p, Element(index, value)) == es + [Element(index, value)];
      Vector(es + [Element(index, value)])
  }

  /** A sequence whose multiset gained one element has the old members and
      that element, and no others. */
  lemma AddedMembers(a: seq<Element>, b: seq<Element>, e: Element)
    requires multiset(b) == multiset(a) + multiset{e}
    ensures forall x :: x in b <==> x in a || x == e
  {
    assert forall x :: x in b <==> x in multiset(b);
    assert forall x :: x in a <==> x in multiset(a);
  }

  /** On a dimension already present, `upsert` places the new element first
      among the equal dimensions and keeps the old one: values are not merged. */
  lemma UpsertDuplicateGoesFirst(v: Vector, index: nat, value: real)
    requires Ascending(v.elements) && HasIndex(v.elements, index)
    ensures var p, r := Position(v.elements, index), Upsert(v, index, value).elements;
      && p + 1 < |r|
      && (forall k | 0 <= k < p :: r[k].index < index)
      && r[p] == Element(index, value)
      && r[p + 1] == v.elements[p]
      && v.elements[p].index == index
  {
    var es, p := v.elements, Position(v.elements, index);
    var k :| 0 <= k < |es| && es[k].index == index;
    assert p <= k;
  }

  /** A strictly ascending sequence is determined by its elements: the
      order in which they were inserted does not show. */
  lemma {:induction false} AscendingUnique(a: seq<Element>, b: seq<Element>)
    requires StrictlyAscending(a) && StrictlyAscending(b)
    requires forall e :: e in a <==> e in b
    ensures a == b
    decreases |a|
  {
    assert 0 < |a| ==> a[0] in a;
    assert 0 < |b| ==> b[0] in b;
    if |a| > 0 && |b| > 0 {
      HeadLeast(a, b[0]);
      HeadLeast(b, a[0]);
      forall e
        ensures e in a[1..] <==> e in b[1..]
      {
        if e in a[1..] {
          var k :| 0 <= k < |a[1..]| && a[1..][k] == e;
          assert e == a[k + 1] && e in b && e != b[0];
        }
        if e in b[1..] {
          var k :| 0 <= k < |b[1..]| && b[1..][k] == e;
          assert e == b[k + 1] && e in a && e != a[0];
        }
      }
      TailAscending(a);
      TailAscending(b);
      AscendingUnique(a[1..], b[1..]);
      assert a == [a[0]] + a[1..] && b == [b[0]] + b[1..];
    }
  }

  /** The head of a strictly ascending sequence has the least index of its
      elements, and is the only element with that index. */
  lemma HeadLeast(es: seq<Element>, e: Element)
    requires 0 < |es| && StrictlyAscending(es) && e in es
    ensures es[0].index <= e.index
    ensures e.index == es[0].index ==> e == es[0]
  {
    var k :| 0 <= k < |es| && es[k] == e;
  }

  lemma TailAscending(es: seq<Element>)
    requires 0 < |es| && StrictlyAscending(es)
    ensures StrictlyAscending(es[1..])
  {
    forall i, j | 0 <= i < j < |es| - 1
      ensures es[1..][i].index < es[1..][j].index
    {
      assert es[1..][i] == es[i + 1] && es[1..][j] == es[j + 1];
    }
  }

  // ---- magnitude -------------------------------------------------------------

  /** The sum of squared weights accumulated by `magnitude`. */
  function SumSquares(es: seq<Element>): real {
    if |es| == 0 then 0.0 else es[0].value * es[0].value + SumSquares(es[1..])
  }

  /** The square of a weight is never negative, and positive unless the
      weight is zero. */
  lemma Square(x: real)
    ensures 0.0 <= x * x
    ensures x != 0.0 ==> 0.0 < x * x
  {
    if x < 0.0 {
      var y := -x;
      assert 0.0 < y * y;
      assert x * x == y * y;
    } else if x > 0.0 {
      assert 0.0 < x * x;
    }
  }

  lemma {:induction false} SumSquaresNonNegative(es: seq<Element>)
    ensures 0.0 <= SumSquares(es)
  {
    if |es| > 0 {
      SumSquaresNonNegative(es[1..]);
      Square(es[0].value);
    }
  }

  /** One non-zero weight makes the sum of squares positive. */
  lemma {:induction false} SumSquaresPositive(es: seq<Element>, k: nat)
    requires k < |es| && es[k].value != 0.0
    ensures 0.0 < SumSquares(es)
  {
    var x := es[0].value;
    Square(x);
    if k == 0 {
      SumSquaresNonNegative(es[1..]);
      calc {
        SumSquares(es);
      ==
        x * x + SumSquares(es[1..]);
      >=
        x * x;
      >
        0.0;
      }
    } else {
      assert es[1..][k - 1] == es[k];
      SumSquaresPositive(es[1..], k - 1);
    }
  }

  lemma {:induction false} SumSquaresOfZeros(es: seq<Element>)
    requires forall k | 0 <= k < |es| :: es[k].value == 0.0
    ensures SumSquares(es) == 0.0
  {
    if |es| > 0 {
      assert forall k | 0 <= k < |es| - 1 :: es[1..][k] == es[k + 1];
      SumSquaresOfZeros(es[1..]);
    }
  }

  /** The sum of squares is non-negative, and zero exactly when every weight
      is zero. */
  lemma SumSquaresZero(es: seq<Element>)
    ensures 0.0 <= SumSquares(es)
    ensures SumSquares(es) == 0.0 <==> forall k | 0 <= k < |es| :: es[k].value == 0.0
  {
    SumSquaresNonNegative(es);
    if forall k | 0 <= k < |es| :: es[k].value == 0.0 {
      SumSquaresOfZeros(es);
    } else {
      var k :| 0 <= k < |es| && es[k].value != 0.0;
      SumSquaresPositive(es, k);
    }
  }

  /** `Vector::magnitude`: the Euclidean norm; zero exactly when every weight
      is zero, in particular for the empty vector. */
  function Magnitude(v: Vector, sqrt: real -> real): (m: real)
    requires IsSqrt(sqrt)
    ensures 0.0 <= m && m * m == SumSquares(v.elements)
    ensures m == 0.0 <==> forall k | 0 <= k < |v.elements| :: v.elements[k].value == 0.0
  {
    SumSquaresZero(v.elements);
    var m := sqrt(SumSquares(v.elements));
    assert m != 0.0 ==> SumSquares(v.elements) != 0.0 by {
      if m != 0.0 {
        Square(m);
        calc {
          SumSquares(v.elements);
        ==
          m * m;
        >
          0.0;
        }
      }
    }
    m
  }

  // ---- dot product -----------------------------------------------------------

  /** The contribution of one pair of elements: their product when their
      dimensions agree. */
  function Match(x: Element, y: Element): real {
    if x.index == y.index then x.value * y.value else 0.0
  }

  function RowSum(x: Element, ys: seq<Element>): real {
    if |ys| == 0 then 0.0 else Match(x, ys[0]) + RowSum(x, ys[1..])
  }

  /** The dot product as a double sum over all pairs of elements: the sum of
      the products of the weights whose dimensions agree. */
  function PairSum(xs: seq<Element>, ys: seq<Element>): real {
    if |xs| == 0 then 0.0 else RowSum(xs[0], ys) + PairSum(xs[1..], ys)
  }

  lemma {:induction false} RowSumBelow(x: Element, ys: seq<Element>)
    requires forall k | 0 <= k < |ys| :: x.index < ys[k].index
    ensures RowSum(x, ys) == 0.0
  {
    if |ys| > 0 {
      RowSumBelow(x, ys[1..]);
    }
  }

  lemma {:induction false} PairSumNoRight(xs: seq<Element>)
    ensures PairSum(xs, []) == 0.0
  {
    if |xs| > 0 {
      PairSumNoRight(xs[1..]);
    }
  }

  /** A right-hand element below every left-hand dimension contributes nothing. */
  lemma {:induction false} DropRightHead(xs: seq<Element>, ys: seq<Element>)
    requires 0 < |ys|
    requires forall k | 0 <= k < |xs| :: ys[0].index < xs[k].index
    ensures PairSum(xs, ys) == PairSum(xs, ys[1..])
  {
    if |xs| > 0 {
      DropRightHead(xs[1..], ys);
    }
  }

  /** The merge-join steps: skip the smaller head, or take the product of
      equal heads. */
  lemma SkipLeft(xs: seq<Element>, ys: seq<Element>)
    requires 0 < |xs| && 0 < |ys| && StrictlyAscending(ys)
    requires xs[0].index < ys[0].index
    ensures PairSum(xs, ys) == PairSum(xs[1..], ys)
  {
    RowSumBelow(xs[0], ys);
  }

  lemma SkipRight(xs: seq<Element>, ys: seq<Element>)
    requires 0 < |xs| && 0 < |ys| && StrictlyAscending(xs)
    requires ys[0].index < xs[0].index
    ensures PairSum(xs, ys) == PairSum(xs, ys[1..])
  {
    DropRightHead(xs, ys);
  }

  lemma TakeBoth(xs: seq<Element>, ys: seq<Element>)
    requires 0 < |xs| && 0 < |ys| && StrictlyAscending(xs) && StrictlyAscending(ys)
    requires xs[0].index == ys[0].index
    ensures PairSum(xs, ys) == xs[0].value * ys[0].value + PairSum(xs[1..], ys[1..])
  {
    RowAtHead(xs[0], ys);
    TailAboveHead(xs, ys);
  }

  /** An element at the head's index meets only the head. */
  lemma RowAtHead(x: Element, ys: seq<Element>)
    requires 0 < |ys| && StrictlyAscending(ys) && x.index == ys[0].index
    ensures RowSum(x, ys) == x.value * ys[0].value
  {
    HeadBelowTail(ys);
    RowSumBelow(x, ys[1..]);
  }

  /** The left tail lies above a shared head, so it meets the right tail only. */
  lemma TailAboveHead(xs: seq<Element>, ys: seq<Element>)
    requires 0 < |xs| && 0 < |ys| && StrictlyAscending(xs)
    requires xs[0].index == ys[0].index
    ensures PairSum(xs[1..], ys) == PairSum(xs[1..], ys[1..])
  {
    HeadBelowTail(xs);
    DropRightHead(xs[1..], ys);
  }

  /** In a strictly ascending sequence the head's index is below every
      index of the tail. */
  lemma HeadBelowTail(es: seq<Element>)
    requires 0 < |es| && StrictlyAscending(es)
    ensures forall k | 0 <= k < |es| - 1 :: es[0].index < es[1..][k].index
  {
    forall k | 0 <= k < |es| - 1
      ensures es[0].index < es[1..][k].index
    {
      assert es[1..][k] == es[k + 1];
    }
  }

  /** `Vector::dot` corrected: the merge-join that reads each cursor's index
      from the vector it advances through. */
  method Dot(a: Vector, b: Vector) returns (product: real)
    requires StrictlyAscending(a.elements) && StrictlyAscending(b.elements)
    ensures product == PairSum(a.elements, b.elements)
  {
    var xs, ys := a.elements, b.elements;
    var i, j := 0, 0;
    product := 0.0;
    while i < |xs| && j < |ys|
      invariant 0 <= i <= |xs| && 0 <= j <= |ys|
      invariant product + PairSum(xs[i..], ys[j..]) == PairSum(xs, ys)
      decreases |xs| - i + |ys| - j
    {
      var aidx, bidx := xs[i].index, ys[j].index;
      if aidx < bidx {
        SkipLeft(xs[i..], ys[j..]);
        assert xs[i..][1..] == xs[i + 1..];
        i := i + 1;
      } else if aidx > bidx {
        SkipRight(xs[i..], ys[j..]);
        assert ys[j..][1..] == ys[j + 1..];
        j := j + 1;
      } else {
        TakeBoth(xs[i..], ys[j..]);
        assert xs[i..][1..] == xs[i + 1..] && ys[j..][1..] == ys[j + 1..];
        product := product + xs[i].value * ys[j].value;
        i, j := i + 1, j + 1;
      }
    }
    if j == |ys| {
      PairSumNoRight(xs[i..]);
    }
  }

  lemma {:induction false} PairSumConsRight(xs: seq<Element>, y: Element, ys: seq<Element>)
    ensures PairSum(xs, [y] + ys) == RowSum(y, xs) + PairSum(xs, ys)
  {
    if |xs| > 0 {
      assert ([y] + ys)[1..] == ys;
      PairSumConsRight(xs[1..], y, ys);
    }
  }

  /** The dot product is commutative. */
  lemma {:induction false} PairSumCommutes(xs: seq<Element>, ys: seq<Element>)
    ensures PairSum(xs, ys) == PairSum(ys, xs)
  {
    if |ys| == 0 {
      PairSumNoRight(xs);
    } else {
      assert ys == [ys[0]] + ys[1..];
      PairSumConsRight(xs, ys[0], ys[1..]);
      PairSumCommutes(xs, ys[1..]);
    }
  }

  /** The sum of pairwise products of two equally long sequences. */
  function Pointwise(xs: seq<Element>, ys: seq<Element>): real
    requires |xs| == |ys|
  {
    if |xs| == 0 then 0.0 else xs[0].value * ys[0].value + Pointwise(xs[1..], ys[1..])
  }

  ghost predicate SameIndices(xs: seq<Element>, ys: seq<Element>) {
    |xs| == |ys| && forall k | 0 <= k < |xs| :: xs[k].index == ys[k].index
  }

  /** For two vectors over the same dimensions, the dot product is the sum of
      pairwise products. */
  lemma {:induction false} SameIndicesDot(xs: seq<Element>, ys: seq<Element>)
    requires StrictlyAscending(xs) && StrictlyAscending(ys) && SameIndices(xs, ys)
    ensures PairSum(xs, ys) == Pointwise(xs, ys)
  {
    if |xs| > 0 {
      TakeBoth(xs, ys);
      SameIndicesDot(xs[1..], ys[1..]);
    }
  }

  /** A vector's dot product with itself is its sum of squares. */
  lemma {:induction false} SelfDot(xs: seq<Element>)
    requires StrictlyAscending(xs)
    ensures PairSum(xs, xs) == SumSquares(xs)
  {
    SameIndicesDot(xs, xs);
    PointwiseSelf(xs);
  }

  lemma {:induction false} PointwiseSelf(xs: seq<Element>)
    ensures Pointwise(xs, xs) == SumSquares(xs)
  {
    if |xs| > 0 {
      PointwiseSelf(xs[1..]);
    }
  }

  // ---- similarity ------------------------------------------------------------

  /** `Vector::similarity`: the dot product divided by the receiver's magnitude
      only, and zero when that magnitude is zero. */
  method Similarity(a: Vector, b: Vector, sqrt: real -> real) returns (r: real)
    requires IsSqrt(sqrt)
    requires StrictlyAscending(a.elements) && StrictlyAscending(b.elements)
    ensures Magnitude(a, sqrt) == 0.0 ==> r == 0.0
    ensures Magnitude(a, sqrt) != 0.0 ==> r * Magnitude(a, sqrt) == PairSum(a.elements, b.elements)
    ensures |a.elements| == 0 || |b.elements| == 0 ==> r == 0.0
    ensures a == b ==> r == Magnitude(a, sqrt)
  {
    var magnitude := Magnitude(a, sqrt);
    if magnitude == 0.0 {
      r := 0.0;
    } else {
      var product := Dot(a, b);
      r := product / magnitude;
      if |b.elements| == 0 {
        PairSumNoRight(a.elements);
      }
      if a == b {
        SelfDot(a.elements);
        assert product == magnitude * magnitude;
      }
    }
  }

  // ---- the dot product as written --------------------------------------------

  /** The loop of `Vector::dot` exactly as written: the right-hand dimension is
      read at the LEFT cursor `i`, while the right cursor `j` only selects the
      weight. Reading past the end of the right vector panics. */
  function DotLoopAsWritten(xs: seq<Element>, ys: seq<Element>, i: nat, j: nat, product: real): (r: Result<real, Panic>)
    requires i <= |xs| && j <= |ys|
    ensures r.Err? ==> |ys| < |xs|
    decreases |xs| - i, |ys| - j
  {
    if i < |xs| && j < |ys| then
      if |ys| <= i then
        Err(IndexOutOfBounds(i, |ys|))
      else
        var aidx, bidx := xs[i].index, ys[i].index;
        if aidx < bidx then DotLoopAsWritten(xs, ys, i + 1, j, product)
        else if aidx > bidx then DotLoopAsWritten(xs, ys, i, j + 1, product)
        else DotLoopAsWritten(xs, ys, i + 1, j + 1, product + xs[i].value * ys[j].value)
    else
      Ok(product)
  }

  /** `Vector::dot` as written. It can panic only when the right-hand vector is
      the shorter one. */
  function DotAsWritten(a: Vector, b: Vector): (r: Result<real, Panic>)
    ensures r.Err? ==> |b.elements| < |a.elements|
  {
    DotLoopAsWritten(a.elements, b.elements, 0, 0, 0.0)
  }

  /** While both cursors move together the slip is invisible. */
  lemma {:induction false} DotLoopSameIndices(xs: seq<Element>, ys: seq<Element>, i: nat, product: real)
    requires StrictlyAscending(xs) && StrictlyAscending(ys) && SameIndices(xs, ys)
    requires i <= |xs|
    ensures DotLoopAsWritten(xs, ys, i, i, product) == Ok(product + PairSum(xs[i..], ys[i..]))
    decreases |xs| - i
  {
    if i < |xs| {
      var rest := product + xs[i].value * ys[i].value;
      assert DotLoopAsWritten(xs, ys, i, i, product) == DotLoopAsWritten(xs, ys, i + 1, i + 1, rest);
      TakeBoth(xs[i..], ys[i..]);
      assert xs[i..][0] == xs[i] && ys[i..][0] == ys[i];
      assert xs[i..][1..] == xs[i + 1..] && ys[i..][1..] == ys[i + 1..];
      DotLoopSameIndices(xs, ys, i + 1, rest);
      assert PairSum(xs[i..], ys[i..]) == xs[i].value * ys[i].value + PairSum(xs[i + 1..], ys[i + 1..]);
    }
  }

  /** On vectors over the same dimensions (as `Vector::from` makes them) the
      written loop computes the true dot product. */
  lemma DotAsWrittenSameIndices(a: Vector, b: Vector)
    requires StrictlyAscending(a.elements) && StrictlyAscending(b.elements)
    requires SameIndices(a.elements, b.elements)
    ensures DotAsWritten(a, b) == Ok(PairSum(a.elements, b.elements))
  {
    DotLoopSameIndices(a.elements, b.elements, 0, 0.0);
  }

  /** Two one-element vectors over different dimensions have dot product zero. */
  lemma DotAsWrittenDisjointSingletons(p: nat, x: real, q: nat, y: real)
    requires p != q
    ensures DotAsWritten(Vector([Element(p, x)]), Vector([Element(q, y)])) == Ok(0.0)
    ensures PairSum([Element(p, x)], [Element(q, y)]) == 0.0
  {
    var xs, ys := [Element(p, x)], [Element(q, y)];
    if p < q {
      assert DotLoopAsWritten(xs, ys, 0, 0, 0.0) == DotLoopAsWritten(xs, ys, 1, 0, 0.0);
    } else {
      assert DotLoopAsWritten(xs, ys, 0, 0, 0.0) == DotLoopAsWritten(xs, ys, 0, 1, 0.0);
    }
    assert RowSum(xs[0], ys) == 0.0 by { assert RowSum(xs[0], ys[1..]) == 0.0; }
  }

  /** `[(0, a), (1, b)] . [(5, c)]` panics: after skipping dimension 0 the loop
      reads the right vector at position 1. */
  lemma DotAsWrittenPanics(a: real, b: real, c: real)
    ensures DotAsWritten(Vector([Element(0, a), Element(1, b)]), Vector([Element(5, c)]))
            == Err(IndexOutOfBounds(1, 1))
  {
    var xs, ys := [Element(0, a), Element(1, b)], [Element(5, c)];
    assert DotLoopAsWritten(xs, ys, 0, 0, 0.0) == DotLoopAsWritten(xs, ys, 1, 0, 0.0);
  }

  /** `[(0, 1), (1, 1)] . [(1, 1), (2, 1)]` has a matching dimension 1, yet the
      written loop never compares it and returns 0. */
  lemma DotAsWrittenMissesMatch()
    ensures var a, b := Vector([Element(0, 1.0), Element(1, 1.0)]), Vector([Element(1, 1.0), Element(2, 1.0)]);
      && DotAsWritten(a, b) == Ok(0.0)
      && PairSum(a.elements, b.elements) == 1.0
  {
    var xs, ys := [Element(0, 1.0), Element(1, 1.0)], [Element(1, 1.0), Element(2, 1.0)];
    assert DotLoopAsWritten(xs, ys, 0, 0, 0.0) == DotLoopAsWritten(xs, ys, 1, 0, 0.0);
    assert DotLoopAsWritten(xs, ys, 1, 0, 0.0) == DotLoopAsWritten(xs, ys, 2, 0, 0.0);
    assert PairSum(xs, ys) == 1.0 by {
      assert RowSum(xs[0], ys) == 0.0;
      assert RowSum(xs[1], ys) == 1.0;
      assert PairSum(xs[1..], ys) == RowSum(xs[1], ys) + PairSum(xs[2..], ys);
    }
  }

  // ---- similarity as written -------------------------------------------------

  /** `Vector::similarity` as written, over `dot` as written: zero when the
      receiver's magnitude is zero, otherwise the written dot product divided
      by that magnitude, failing where `dot` panics. It accepts any vector,
      including one where `upsert` repeated an index. */
  function SimilarityAsWritten(a: Vector, b: Vector, sqrt: real -> real): (r: Result<real, Panic>)
    requires IsSqrt(sqrt)
    ensures Magnitude(a, sqrt) == 0.0 ==> r == Ok(0.0)
    ensures r.Err? ==> Magnitude(a, sqrt) != 0.0 && |b.elements| < |a.elements|
  {
    var magnitude := Magnitude(a, sqrt);
    if magnitude == 0.0 then Ok(0.0)
    else
      match DotAsWritten(a, b)
      case Ok(product) => Ok(product / magnitude)
      case Err(e) => Err(e)
  }

  /** On vectors with the same index sequence, such as those `from` builds,
      `similarity` as written does not fail and gives what `Similarity`
      gives: zero for a zero magnitude, otherwise the dot product over the
      receiver's magnitude. */
  lemma SimilarityAsWrittenSameIndices(a: Vector, b: Vector, sqrt: real -> real)
    requires IsSqrt(sqrt)
    requires StrictlyAscending(a.elements) && StrictlyAscending(b.elements)
    requires SameIndices(a.elements, b.elements)
    ensures SimilarityAsWritten(a, b, sqrt).Ok?
    ensures Magnitude(a, sqrt) == 0.0 ==> SimilarityAsWritten(a, b, sqrt).value == 0.0
    ensures Magnitude(a, sqrt) != 0.0 ==>
      SimilarityAsWritten(a, b, sqrt).value * Magnitude(a, sqrt) == PairSum(a.elements, b.elements)
  {
    DotAsWrittenSameIndices(a, b);
  }

  /** `[(0, 1), (1, 1)]` compared with `[(5, 1)]` panics in `similarity`: the
      receiver's magnitude is not zero, so `dot` as written runs and reads
      past the end of the right vector. */
  lemma SimilarityAsWrittenPanics(sqrt: real -> real)
    requires IsSqrt(sqrt)
    ensures SimilarityAsWritten(Vector([Element(0, 1.0), Element(1, 1.0)]), Vector([Element(5, 1.0)]), sqrt)
            == Err(IndexOutOfBounds(1, 1))
  {
    var a := Vector([Element(0, 1.0), Element(1, 1.0)]);
    assert a.elements[0].value != 0.0;
    DotAsWrittenPanics(1.0, 1.0, 1.0);
  }
}
