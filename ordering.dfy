/** Order statistics used by the pricing simulator: the ascending sort that
    yields the 5-way median, the row minimum, and the stable sort that ranks
    the allocation totals. */
module Ordering {

  predicate Sorted(s: seq<real>) {
    forall i, j :: 0 <= i < j < |s| ==> s[i] <= s[j]
  }

  /** Inserts x before the first element that is not smaller than it. */
  function Insert(x: real, s: seq<real>): (r: seq<real>)
    ensures |r| == |s| + 1
    ensures multiset(r) == multiset(s) + multiset{x}
  {
    if s == [] || x <= s[0] then [x] + s
    else
      assert s == [s[0]] + s[1..];
      [s[0]] + Insert(x, s[1..])
  }

  /** Ascending sort (the row-wise np.sort of the simulator). */
  function Sort(s: seq<real>): (r: seq<real>)
    ensures |r| == |s|
    ensures multiset(r) == multiset(s)
  {
    if s == [] then []
    else
      assert s == [s[0]] + s[1..];
      Insert(s[0], Sort(s[1..]))
  }

  lemma {:induction false} InsertSorted(x: real, s: seq<real>)
    requires Sorted(s)
    ensures Sorted(Insert(x, s))
  {
    if s == [] || x <= s[0] {
    } else {
      InsertSorted(x, s[1..]);
      var r := Insert(x, s[1..]);
      forall j | 0 <= j < |r| ensures s[0] <= r[j] {
        assert r[j] in multiset(r);
        assert r[j] in multiset(s[1..]) || r[j] == x;
        if r[j] != x {
          var m :| 0 <= m < |s[1..]| && s[1..][m] == r[j];
          assert s[m + 1] == r[j];
        }
      }
    }
  }

  lemma {:induction false} SortSorted(s: seq<real>)
    ensures Sorted(Sort(s))
  {
    if s != [] {
      SortSorted(s[1..]);
      InsertSorted(s[0], Sort(s[1..]));
    }
  }

  lemma SortedHeadLeast(a: seq<real>, x: real)
    requires Sorted(a) && x in a
    ensures a[0] <= x
  {
  }

  /** Two ascending sequences holding the same values are equal. */
  lemma {:induction false} SortedUnique(a: seq<real>, b: seq<real>)
    requires Sorted(a) && Sorted(b)
    requires multiset(a) == multiset(b)
    ensures a == b
  {
    assert |a| == |multiset(a)| == |multiset(b)| == |b|;
    if a != [] {
      assert a[0] in multiset(b) && b[0] in multiset(a);
      SortedHeadLeast(b, a[0]);
      SortedHeadLeast(a, b[0]);
      var a', b' := a[1..], b[1..];
      assert multiset(a') == multiset(b') by {
        assert a[0] == b[0];
        assert a == [a[0]] + a';
        assert b == [b[0]] + b';
        assert multiset(a) == multiset{a[0]} + multiset(a');
        assert multiset(b) == multiset{a[0]} + multiset(b');
        assert multiset(a') == multiset(a) - multiset{a[0]};
        assert multiset(b') == multiset(b) - multiset{a[0]};
      }
      assert Sorted(a') && Sorted(b');
      SortedUnique(a', b');
      assert a == [a[0]] + a';
      assert b == [b[0]] + b';
    }
  }

  /** Sorting depends only on the values, not on their order. */
  lemma SortPermutationInvariant(u: seq<real>, v: seq<real>)
    requires multiset(u) == multiset(v)
    ensures Sort(u) == Sort(v)
  {
    SortSorted(u);
    SortSorted(v);
    SortedUnique(Sort(u), Sort(v));
  }

  // ---------------------------------------------------------------------------
  // Counting values on each side of a threshold

  function CountLe(s: seq<real>, m: real): nat {
    if s == [] then 0 else (if s[0] <= m then 1 else 0) + CountLe(s[1..], m)
  }

  function CountGe(s: seq<real>, m: real): nat {
    if s == [] then 0 else (if s[0] >= m then 1 else 0) + CountGe(s[1..], m)
  }

  lemma {:induction false} CountInsert(x: real, s: seq<real>, m: real)
    ensures CountLe(Insert(x, s), m) == CountLe([x] + s, m)
    ensures CountGe(Insert(x, s), m) == CountGe([x] + s, m)
  {
    if s == [] || x <= s[0] {
    } else {
      CountInsert(x, s[1..], m);
      assert ([x] + s)[1..] == s;
      assert ([x] + s[1..])[1..] == s[1..];
      assert ([s[0]] + Insert(x, s[1..]))[1..] == Insert(x, s[1..]);
    }
  }

  lemma {:induction false} CountSort(s: seq<real>, m: real)
    ensures CountLe(Sort(s), m) == CountLe(s, m)
    ensures CountGe(Sort(s), m) == CountGe(s, m)
  {
    if s != [] {
      CountSort(s[1..], m);
      CountInsert(s[0], Sort(s[1..]), m);
      assert ([s[0]] + Sort(s[1..]))[1..] == Sort(s[1..]);
    }
  }

  /** In an ascending sequence at least k+1 values are at most s[k]. */
  lemma {:induction false} CountLeSorted(s: seq<real>, k: nat)
    requires Sorted(s) && k < |s|
    ensures CountLe(s, s[k]) >= k + 1
  {
    if k > 0 {
      CountLeSorted(s[1..], k - 1);
    }
  }

  lemma {:induction false} CountGeAll(s: seq<real>, m: real)
    requires forall i :: 0 <= i < |s| ==> m <= s[i]
    ensures CountGe(s, m) == |s|
  {
    if s != [] {
      CountGeAll(s[1..], m);
    }
  }

  /** In an ascending sequence at least |s|-k values are at least s[k]. */
  lemma {:induction false} CountGeSorted(s: seq<real>, k: nat)
    requires Sorted(s) && k < |s|
    ensures CountGe(s, s[k]) >= |s| - k
  {
    if k > 0 {
      CountGeSorted(s[1..], k - 1);
    } else {
      CountGeAll(s, s[0]);
    }
  }

  // ---------------------------------------------------------------------------
  // Minimum

  /** The least value of a non-empty sequence. */
  function MinOf(s: seq<real>): (m: real)
    requires |s| > 0
    ensures m in s
    ensures forall i :: 0 <= i < |s| ==> m <= s[i]
  {
    if |s| == 1 then s[0]
    else
      var rest := MinOf(s[1..]);
      if s[0] <= rest then s[0] else rest
  }

  // ---------------------------------------------------------------------------
  // Stable ascending sort of labelled totals

  /** A total together with the position (1-based) of the column it sums. */
  datatype Labelled = Labelled(value: real, column: nat)

  /** The order of a stable ascending sort of values listed with increasing
      labels: by value, ties broken by the original column. */
  predicate Before(a: Labelled, b: Labelled) {
    a.value < b.value || (a.value == b.value && a.column < b.column)
  }

  predicate StablySorted(s: seq<Labelled>) {
    forall i, j :: 0 <= i < j < |s| ==> Before(s[i], s[j])
  }

  predicate ColumnsIncreasing(s: seq<Labelled>) {
    forall i, j :: 0 <= i < j < |s| ==> s[i].column < s[j].column
  }

  function InsertLabelled(x: Labelled, s: seq<Labelled>): (r: seq<Labelled>)
    ensures |r| == |s| + 1
    ensures multiset(r) == multiset(s) + multiset{x}
  {
    if s == [] || x.value <= s[0].value then [x] + s
    else
      assert s == [s[0]] + s[1..];
      [s[0]] + InsertLabelled(x, s[1..])
  }

  /** Python's sorted(..., key=value): an insertion sort that places each
      element before the equal values that followed it in the input. */
  function SortLabelled(s: seq<Labelled>): (r: seq<Labelled>)
    ensures |r| == |s|
    ensures multiset(r) == multiset(s)
  {
    if s == [] then []
    else
      assert s == [s[0]] + s[1..];
      InsertLabelled(s[0], SortLabelled(s[1..]))
  }

  lemma {:induction false} InsertLabelledSorted(x: Labelled, s: seq<Labelled>)
    requires StablySorted(s)
    requires forall i :: 0 <= i < |s| ==> x.column < s[i].column
    ensures StablySorted(InsertLabelled(x, s))
  {
    if s == [] || x.value <= s[0].value {
      var r := [x] + s;
      forall i, j | 0 <= i < j < |r| ensures Before(r[i], r[j]) {
        if i == 0 {
          assert r[j] == s[j - 1];
          if j > 1 { assert Before(s[0], s[j - 1]); }
        } else {
          assert Before(s[i - 1], s[j - 1]);
        }
      }
    } else {
      InsertLabelledSorted(x, s[1..]);
      var t := InsertLabelled(x, s[1..]);
      var r := [s[0]] + t;
      forall j | 0 <= j < |t| ensures Before(s[0], t[j]) {
        assert t[j] in multiset(t);
        if t[j] != x {
          assert t[j] in multiset(s[1..]);
          var m :| 0 <= m < |s[1..]| && s[1..][m] == t[j];
          assert Before(s[0], s[m + 1]);
        }
      }
      forall i, j | 0 <= i < j < |r| ensures Before(r[i], r[j]) {
        if i == 0 {
          assert r[j] == t[j - 1];
        } else {
          assert r[i] == t[i - 1] && r[j] == t[j - 1];
        }
      }
    }
  }

  lemma {:induction false} SortLabelledStable(s: seq<Labelled>)
    requires ColumnsIncreasing(s)
    ensures StablySorted(SortLabelled(s))
  {
    if s != [] {
      SortLabelledStable(s[1..]);
      var r := SortLabelled(s[1..]);
      forall i | 0 <= i < |r| ensures s[0].column < r[i].column {
        assert r[i] in multiset(r);
        assert r[i] in multiset(s[1..]);
        var m :| 0 <= m < |s[1..]| && s[1..][m] == r[i];
        assert s[m + 1] == r[i];
      }
      InsertLabelledSorted(s[0], r);
    }
  }
}
