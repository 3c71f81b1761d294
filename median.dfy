/** The part of numpy the calibration relies on: `np.nanmedian` over one
    column of y-coordinates. A missing value (NaN) is `None`; the median of
    the values that are present is the middle element of their ascending
    arrangement, or the mean of the two middle elements when their number is
    even. */
module NanMedian {
  import opened Wrappers

  predicate IsSorted(s: seq<real>) {
    forall i, j :: 0 <= i < j < |s| ==> s[i] <= s[j]
  }

  /** Inserts `x` before the first element of `s` that is not below it. */
  function Insert(x: real, s: seq<real>): (r: seq<real>)
    ensures multiset(r) == multiset(s) + multiset{x}
  {
    if s == [] || x <= s[0] then [x] + s
    else
      assert s == [s[0]] + s[1..];
      [s[0]] + Insert(x, s[1..])
  }

  /** Inserting into an ascending sequence keeps it ascending. */
  lemma {:induction false} InsertSorted(x: real, s: seq<real>)
    requires IsSorted(s)
    ensures IsSorted(Insert(x, s))
    ensures Insert(x, s)[0] == x || Insert(x, s)[0] == s[0]
  {
    if s != [] && s[0] < x {
      SortedTail(s);
      InsertSorted(x, s[1..]);
      assert |s| > 1 ==> s[0] <= s[1];
    }
  }

  /** The ascending arrangement of `s`. */
  function Sort(s: seq<real>): (r: seq<real>)
    ensures IsSorted(r)
    ensures multiset(r) == multiset(s)
  {
    if s == [] then []
    else
      assert s == [s[0]] + s[1..];
      var t := Sort(s[1..]);
      InsertSorted(s[0], t);
      Insert(s[0], t)
  }

  lemma {:induction false} SameHead(a: seq<real>, b: seq<real>)
    requires IsSorted(a) && IsSorted(b) && |a| > 0 && |b| > 0
    requires multiset(a) == multiset(b)
    ensures a[0] == b[0]
  {
    assert a[0] in multiset(b);
    assert b[0] in multiset(a);
    var i :| 0 <= i < |b| && b[i] == a[0];
    var j :| 0 <= j < |a| && a[j] == b[0];
    assert b[0] <= b[i] && a[0] <= a[j];
  }

  lemma {:induction false} SameTail(a: seq<real>, b: seq<real>)
    requires |a| > 0 && |b| > 0 && a[0] == b[0]
    requires multiset(a) == multiset(b)
    ensures multiset(a[1..]) == multiset(b[1..])
  {
    assert a == [a[0]] + a[1..];
    assert b == [b[0]] + b[1..];
    assert multiset(a[1..]) == multiset(a) - multiset{a[0]};
  }

  lemma {:induction false} SortedTail(a: seq<real>)
    requires IsSorted(a) && |a| > 0
    ensures IsSorted(a[1..])
  {
  }

  /** A multiset has exactly one ascending arrangement. */
  lemma {:induction false} SortedUnique(a: seq<real>, b: seq<real>)
    requires IsSorted(a) && IsSorted(b)
    requires multiset(a) == multiset(b)
    ensures a == b
    decreases |a|
  {
    assert |a| == |multiset(a)| == |multiset(b)| == |b|;
    if a != [] {
      SameHead(a, b);
      SameTail(a, b);
      SortedTail(a);
      SortedTail(b);
      SortedUnique(a[1..], b[1..]);
      assert a == [a[0]] + a[1..];
      assert b == [b[0]] + b[1..];
    }
  }

  /** The middle of an ascending sequence, as numpy takes it. */
  function Middle(t: seq<real>): real
    requires |t| > 0
  {
    var n := |t|;
    if n % 2 == 1 then t[n / 2] else Mean(t[n / 2 - 1], t[n / 2])
  }

  function Mean(a: real, b: real): real {
    (a + b) / 2.0
  }

  /** The median of a non-empty collection of reals: it lies between the
      smallest and the largest of them. */
  function Median(s: seq<real>): (m: real)
    requires |s| > 0
    ensures exists i :: 0 <= i < |s| && s[i] <= m
    ensures exists i :: 0 <= i < |s| && m <= s[i]
  {
    var t := Sort(s);
    assert |t| == |multiset(t)| == |s|;
    MiddleBetween(t);
    Middle(t)
  }

  /** The middle of an ascending sequence lies between two of its elements. */
  lemma {:induction false} MiddleBetween(t: seq<real>)
    requires IsSorted(t) && |t| > 0
    ensures t[(|t| - 1) / 2] <= Middle(t) <= t[|t| / 2]
    ensures t[(|t| - 1) / 2] in multiset(t) && t[|t| / 2] in multiset(t)
  {
  }

  /** The median depends only on the multiset of values, not on their order:
      numpy's row order (by frame index) and the order of `labeled_frames`
      give the same median. */
  lemma {:induction false} MedianOfPermutation(s1: seq<real>, s2: seq<real>)
    requires |s1| > 0
    requires multiset(s1) == multiset(s2)
    ensures |s2| > 0
    ensures Median(s1) == Median(s2)
  {
    assert |s2| == |multiset(s2)| == |s1|;
    SortedUnique(Sort(s1), Sort(s2));
  }

  /** `f` applied to every value. */
  function Apply(f: real -> real, s: seq<real>): (r: seq<real>)
    ensures |r| == |s|
    ensures forall i :: 0 <= i < |s| ==> r[i] == f(s[i])
  {
    if s == [] then [] else [f(s[0])] + Apply(f, s[1..])
  }

  /** `f` preserves and reflects order. */
  ghost predicate Increasing(f: real -> real) {
    forall a, b :: a <= b <==> f(a) <= f(b)
  }

  /** `f` maps the mean of two values to the mean of their images. */
  ghost predicate KeepsMidpoints(f: real -> real) {
    forall a, b {:trigger f(Mean(a, b))} :: f(Mean(a, b)) == Mean(f(a), f(b))
  }

  lemma {:induction false} InsertFront(x: real, t: seq<real>)
    requires IsSorted(t) && (t == [] || x <= t[0])
    ensures Insert(x, t) == [x] + t
  {
  }

  lemma {:induction false} InsertBehind(x: real, t: seq<real>)
    requires IsSorted(t) && t != [] && t[0] < x
    ensures IsSorted(t[1..])
    ensures Insert(x, t) == [t[0]] + Insert(x, t[1..])
  {
  }

  lemma {:induction false} ApplyCons(f: real -> real, a: real, t: seq<real>)
    ensures Apply(f, [a] + t) == [f(a)] + Apply(f, t)
  {
    assert ([a] + t)[1..] == t;
  }

  lemma {:induction false} InsertApplied(f: real -> real, x: real, t: seq<real>)
    requires Increasing(f) && IsSorted(t)
    ensures IsSorted(Apply(f, t))
    ensures Insert(f(x), Apply(f, t)) == Apply(f, Insert(x, t))
  {
    var u := Apply(f, t);
    assert IsSorted(u) by {
      forall i, j | 0 <= i < j < |u| ensures u[i] <= u[j] {
        assert t[i] <= t[j];
      }
    }
    if t == [] {
      InsertFront(x, t);
      InsertFront(f(x), u);
      ApplyCons(f, x, t);
    } else {
      assert t == [t[0]] + t[1..];
      ApplyCons(f, t[0], t[1..]);
      if x <= t[0] {
        InsertFront(x, t);
        InsertFront(f(x), u);
        ApplyCons(f, x, t);
      } else {
        InsertBehind(x, t);
        InsertBehind(f(x), u);
        InsertApplied(f, x, t[1..]);
        ApplyCons(f, t[0], Insert(x, t[1..]));
      }
    }
  }

  /** Sorting commutes with an increasing map. */
  lemma {:induction false} SortApplied(f: real -> real, s: seq<real>)
    requires Increasing(f)
    ensures Sort(Apply(f, s)) == Apply(f, Sort(s))
  {
    if s == [] {
      assert Apply(f, s) == [];
    } else {
      assert s == [s[0]] + s[1..];
      ApplyCons(f, s[0], s[1..]);
      SortApplied(f, s[1..]);
      InsertApplied(f, s[0], Sort(s[1..]));
    }
  }

  /** An increasing map that keeps midpoints carries the median along. */
  lemma {:induction false} MedianApplied(f: real -> real, s: seq<real>)
    requires Increasing(f) && KeepsMidpoints(f) && |s| > 0
    ensures Median(Apply(f, s)) == f(Median(s))
  {
    SortApplied(f, s);
    var t := Sort(s);
    assert |t| == |multiset(t)| == |s|;
    assert Median(s) == Middle(t);
    assert Median(Apply(f, s)) == Middle(Apply(f, t));
    MiddleApplied(f, t);
  }

  lemma {:induction false} MiddleApplied(f: real -> real, t: seq<real>)
    requires KeepsMidpoints(f) && |t| > 0
    ensures Middle(Apply(f, t)) == f(Middle(t))
  {
    var n := |t|;
    var u := Apply(f, t);
    if n % 2 == 0 {
      assert u[n / 2 - 1] == f(t[n / 2 - 1]) && u[n / 2] == f(t[n / 2]);
      assert f(Mean(t[n / 2 - 1], t[n / 2])) == Mean(f(t[n / 2 - 1]), f(t[n / 2]));
    } else {
      assert u[n / 2] == f(t[n / 2]);
    }
  }

  /** Multiplication by `c`, as a map. */
  function Times(c: real): real -> real {
    v => v * c
  }

  /** Every value multiplied by `c`. */
  function Scale(c: real, s: seq<real>): seq<real>
  {
    Apply(Times(c), s)
  }

  lemma ScalingIsIncreasing(c: real)
    requires c > 0.0
    ensures Increasing(Times(c)) && KeepsMidpoints(Times(c))
  {
    var f := Times(c);
    forall a, b ensures a <= b <==> f(a) <= f(b) {
      assert b * c - a * c == (b - a) * c;
    }
    forall a, b ensures f(Mean(a, b)) == Mean(f(a), f(b)) {
      assert a * c + b * c == (a + b) * c;
    }
  }

  /** Multiplying every value by a positive factor multiplies the median by
      that factor. */
  lemma {:induction false} MedianScaled(c: real, s: seq<real>)
    requires c > 0.0 && |s| > 0
    ensures Median(Scale(c, s)) == Times(c)(Median(s))
  {
    ScalingIsIncreasing(c);
    MedianApplied(Times(c), s);
  }

  /** The values of a column that are present, in column order; there are
      none exactly when every entry is missing. */
  function Present(col: seq<Option<real>>): (vs: seq<real>)
    ensures |vs| <= |col|
    ensures vs == [] <==> forall i :: 0 <= i < |col| ==> col[i].None?
  {
    if col == [] then []
    else
      var rest := Present(col[1..]);
      assert forall i :: 1 <= i < |col| ==> col[i] == col[1..][i - 1];
      (if col[0].Some? then [col[0].value] else []) + rest
  }

  /** `np.nanmedian` of one column: `None` (NaN) exactly when every entry is
      missing. */
  function NanMedianOf(col: seq<Option<real>>): (m: Option<real>)
    ensures m.None? <==> forall i :: 0 <= i < |col| ==> col[i].None?
  {
    var vs := Present(col);
    if vs == [] then None else Some(Median(vs))
  }
}
