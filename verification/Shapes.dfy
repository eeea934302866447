/** What the product of a shape means: it counts the index tuples of an ndarray, which C order
    numbers through without a gap. */
module Shapes {
  import opened Core
  import opened Model

  lemma ProductOfFew(n: int)
    ensures Product([]) == 1 && Product([n]) == n
  {
    assert [n][..0] == [];
  }

  /** The product of a shape is taken in any grouping. */
  lemma {:induction false} ProductSplits(s: seq<int>, t: seq<int>)
    ensures Product(s + t) == Product(s) * Product(t)
    decreases |t|
  {
    if t == [] {
      assert s + t == s;
    } else {
      var init, last := t[..|t| - 1], t[|t| - 1];
      assert (s + t)[..|s + t| - 1] == s + init;
      ProductSplits(s, init);
      Regrouped(Product(s), Product(init), last);
    }
  }

  lemma Regrouped(x: int, y: int, z: int)
    ensures x * y * z == x * (y * z)
  {
  }

  predicate InRange(shape: seq<nat>, index: seq<int>) {
    |index| == |shape| && forall i :: 0 <= i < |shape| ==> 0 <= index[i] < shape[i]
  }

  /** The position of an element in C order: the last index runs fastest. */
  function Rank(shape: seq<nat>, index: seq<int>): int
    requires |index| == |shape|
  {
    if shape == [] then 0
    else
      var n := |shape| - 1;
      Rank(shape[..n], index[..n]) * shape[n] + index[n]
  }

  /** The index tuple at a position. */
  function Unrank(shape: seq<nat>, k: int): seq<int> {
    if shape == [] then []
    else
      var n := |shape| - 1;
      var d := if shape[n] == 0 then 1 else shape[n];
      Unrank(shape[..n], k / d) + [k % d]
  }

  lemma {:induction false} RankFits(shape: seq<nat>, index: seq<int>)
    requires InRange(shape, index)
    ensures 0 <= Rank(shape, index) < Product(shape)
    ensures Unrank(shape, Rank(shape, index)) == index
  {
    if shape != [] {
      var n := |shape| - 1;
      var init, d := shape[..n], shape[n];
      RankFits(init, index[..n]);
      var r := Rank(init, index[..n]);
      RowFits(r, Product(init), index[n], d);
      DivideBack(r, d, index[n]);
      assert index[..n] + [index[n]] == index;
    }
  }

  lemma {:induction false} UnrankFits(shape: seq<nat>, k: int)
    requires 0 <= k < Product(shape)
    ensures InRange(shape, Unrank(shape, k)) && Rank(shape, Unrank(shape, k)) == k
  {
    if shape != [] {
      var n := |shape| - 1;
      var init, d := shape[..n], shape[n];
      assert d != 0;
      RowOf(k, Product(init), d);
      UnrankFits(init, k / d);
      var index := Unrank(shape, k);
      assert index[..n] == Unrank(init, k / d);
    }
  }

  lemma RowFits(r: int, rows: int, i: int, d: nat)
    requires 0 <= r < rows && 0 <= i < d
    ensures 0 <= r * d + i < rows * d
  {
    var left := rows - 1 - r;
    MulNonNeg(left, d);
    MulNonNeg(r, d);
    assert rows * d == left * d + r * d + d;
  }

  lemma RowOf(k: int, rows: int, d: nat)
    requires d > 0 && 0 <= k < rows * d
    ensures 0 <= k / d < rows && k / d * d + k % d == k
  {
    var over := k / d - rows;
    assert over * d + rows * d == k - k % d;
    if over >= 0 {
      MulNonNeg(over, d);
      assert false;
    }
  }

  lemma DivideBack(r: int, d: nat, i: int)
    requires 0 <= r && 0 <= i < d
    ensures (r * d + i) / d == r && (r * d + i) % d == i
  {
    var x := r * d + i;
    var k := x / d - r;
    assert k * d == i - x % d;
    MultipleIsFar(k, d);
  }

  // ----- counting -----

  function Below(n: nat): (s: set<int>)
    ensures |s| == n && forall k :: k in s <==> 0 <= k < n
  {
    if n == 0 then {} else Below(n - 1) + {n - 1}
  }

  /** A numbering that can be undone keeps the size. */
  lemma {:induction false} OneToOne(xs: set<seq<int>>, ranks: set<int>, rank: seq<int> -> int, unrank: int -> seq<int>)
    requires forall x :: x in xs ==> rank(x) in ranks && unrank(rank(x)) == x
    requires forall k :: k in ranks ==> unrank(k) in xs && rank(unrank(k)) == k
    ensures |xs| == |ranks|
  {
    if xs == {} {
      assert forall k :: k in ranks ==> unrank(k) in xs;
      assert ranks == {};
    } else {
      var x :| x in xs;
      OneToOne(xs - {x}, ranks - {rank(x)}, rank, unrank);
    }
  }

  /** An ndarray has exactly Product(shape) elements, one per index tuple in range. */
  lemma ProductCountsElements(shape: seq<nat>, indices: set<seq<int>>)
    requires forall index: seq<int> :: index in indices <==>
      |index| == |shape| && forall i :: 0 <= i < |shape| ==> 0 <= index[i] < shape[i]
    ensures |indices| == Product(shape)
  {
    ProductNonNeg(shape);
    var rank := (index: seq<int>) => if |index| == |shape| then Rank(shape, index) else 0;
    var unrank := (k: int) => Unrank(shape, k);
    var ranks := Below(Product(shape));
    forall index | index in indices ensures rank(index) in ranks && unrank(rank(index)) == index {
      RankFits(shape, index);
    }
    forall k | k in ranks ensures unrank(k) in indices && rank(unrank(k)) == k {
      UnrankFits(shape, k);
    }
    OneToOne(indices, ranks, rank, unrank);
  }
}
