/** The Python list operations the game loop relies on: `list.remove`, the
    copy-then-filter sweep, and the fact that a list of distinct objects stays
    distinct under both. */
module Lists {

  /** The elements at positions `i` and `j` of `s` differ. */
  ghost predicate Apart<T>(s: seq<T>, i: int, j: int)
  {
    0 <= i < |s| && 0 <= j < |s| && s[i] != s[j]
  }

  /** No element occurs twice. */
  ghost predicate Distinct<T>(s: seq<T>)
  {
    forall i, j :: 0 <= i < j < |s| ==> Apart(s, i, j)
  }

  /** `list.remove(x)`: drop the first element equal to `x`. Python raises
      ValueError when `x` is absent, so the model requires presence. The
      removals in the collision passes are guarded by a membership test;
      those in the sweeps are not, and `SweptStillHas` shows that the
      element is still there. */
  function RemoveFirst<T(==)>(s: seq<T>, x: T): (r: seq<T>)
    requires x in s
    ensures |r| == |s| - 1

  {
    assert s == [s[0]] + s[1..];
    if s[0] == x then s[1..]
    else [s[0]] + RemoveFirst(s[1..], x)
  }

  /** `list.remove(x)` takes exactly one `x` out of the list's elements. */
  lemma {:induction false} RemoveFirstMultiset<T>(s: seq<T>, x: T)
    requires x in s
    ensures multiset(RemoveFirst(s, x)) == multiset(s) - multiset{x}
  {
    assert s == [s[0]] + s[1..];
    if s[0] != x {
      RemoveFirstMultiset(s[1..], x);
    }
  }

  /** Removing the element at `k`, when nothing before `k` equals it, cuts
      exactly that position out and keeps the order of the rest. */
  lemma {:induction false} RemoveFirstAt<T>(s: seq<T>, k: nat)
    requires k < |s|
    requires forall j :: 0 <= j < k ==> s[j] != s[k]
    ensures RemoveFirst(s, s[k]) == s[..k] + s[k + 1..]
  {
    if k > 0 {
      var t := s[1..];
      assert t[k - 1] == s[k];
      RemoveFirstAt(t, k - 1);
      assert RemoveFirst(s, s[k]) == [s[0]] + RemoveFirst(t, s[k]);
      assert t[..k - 1] == s[1..k];
      assert t[k..] == s[k + 1..];
      assert [s[0]] + s[1..k] == s[..k];
    }
  }

  /** In a list of distinct elements, removing one element found after a
      prefix `a` gives back the prefix followed by what came after it. */
  lemma RemoveAfterPrefix<T>(a: seq<T>, x: T, b: seq<T>)
    requires x !in a
    ensures RemoveFirst(a + [x] + b, x) == a + b
  {
    var s := a + [x] + b;
    forall j | 0 <= j < |a| ensures s[j] != s[|a|] { assert s[j] == a[j]; }
    RemoveFirstAt(s, |a|);
    assert s[..|a|] == a;
    assert s[|a| + 1..] == b;
  }

  /** In a distinct list nothing before position `i` equals the element there. */
  lemma DistinctNotBefore<T>(s: seq<T>, i: nat)
    requires Distinct(s) && i < |s|
    ensures s[i] !in s[..i]
    ensures forall j :: 0 <= j < i ==> s[j] != s[i]
    ensures forall j :: i < j < |s| ==> s[j] != s[i]
  {
    forall j | 0 <= j < i ensures s[j] != s[i] { assert Apart(s, j, i); }
    forall j | i < j < |s| ensures s[j] != s[i] { assert Apart(s, i, j); }
    assert forall j :: 0 <= j < i ==> s[..i][j] == s[j];
  }

  /** A prefix of a distinct list is distinct. */
  lemma DistinctTake<T>(s: seq<T>, n: nat)
    requires Distinct(s) && n <= |s|
    ensures Distinct(s[..n])
  {
    forall i, j | 0 <= i < j < n ensures Apart(s[..n], i, j) { assert Apart(s, i, j); }
  }

  /** Cutting one position out of a distinct list leaves it distinct. */
  lemma DistinctWithout<T>(s: seq<T>, k: nat)
    requires Distinct(s) && k < |s|
    ensures Distinct(s[..k] + s[k + 1..])
  {
    var r := s[..k] + s[k + 1..];
    forall i, j | 0 <= i < j < |r| ensures Apart(r, i, j) {
      var i' := if i < k then i else i + 1;
      var j' := if j < k then j else j + 1;
      assert r[i] == s[i'] && r[j] == s[j'] && Apart(s, i', j');
    }
  }

  /** Two distinct lists with no element in common join into a distinct list. */
  lemma DistinctConcat<T>(a: seq<T>, b: seq<T>)
    requires Distinct(a) && Distinct(b)
    requires forall i, j :: 0 <= i < |a| && 0 <= j < |b| ==> a[i] != b[j]
    ensures Distinct(a + b)
  {
    var s := a + b;
    forall i, j | 0 <= i < j < |s| ensures Apart(s, i, j) {
      if j < |a| {
        assert s[i] == a[i] && s[j] == a[j] && Apart(a, i, j);
      } else if i >= |a| {
        assert s[i] == b[i - |a|] && s[j] == b[j - |a|] && Apart(b, i - |a|, j - |a|);
      } else {
        assert s[i] == a[i] && s[j] == b[j - |a|];
      }
    }
  }

  /** In a list without repeats, the element after `a` is taken out from
      right there, and what is left has no repeats either. */
  lemma TakeQueued<T>(a: seq<T>, x: T, b: seq<T>)
    requires Distinct(a + ([x] + b))
    ensures x in a + ([x] + b)
    ensures RemoveFirst(a + ([x] + b), x) == a + b && Distinct(a + b)
  {
    var s := a + ([x] + b);
    assert s == a + [x] + b;
    DistinctNotBefore(s, |a|);
    assert s[..|a|] == a;
    RemoveAfterPrefix(a, x, b);
    DistinctWithout(s, |a|);
    assert s[|a| + 1..] == b;
  }

  /** The suffix from position `i` is its first element followed by the
      suffix from `i + 1`. */
  lemma DropFirst<T>(s: seq<T>, i: nat)
    requires i < |s|
    ensures s[i..] == [s[i]] + s[i + 1..]
  {
  }

  /** Appending one element missing from a list without repeats keeps it
      without repeats. */
  lemma DistinctSnoc<T>(a: seq<T>, x: T)
    requires Distinct(a) && x !in a
    ensures Distinct(a + [x])
  {
    DistinctConcat(a, [x]);
  }

  /** Moving the element at `k` of `b` to the end of `a`, when the two
      lists have no repeats and nothing in common, keeps all three so. */
  lemma MoveDistinct<T>(a: seq<T>, b: seq<T>, k: nat)
    requires Distinct(a) && Distinct(b) && k < |b|
    requires forall i, j :: 0 <= i < |a| && 0 <= j < |b| ==> a[i] != b[j]
    ensures Distinct(a + [b[k]]) && Distinct(b[..k] + b[k + 1..])
    ensures var a', b' := a + [b[k]], b[..k] + b[k + 1..];
      forall i, j :: 0 <= i < |a'| && 0 <= j < |b'| ==> a'[i] != b'[j]
  {
    var a', b' := a + [b[k]], b[..k] + b[k + 1..];
    DistinctWithout(b, k);
    forall i, j | 0 <= i < j < |a'| ensures Apart(a', i, j) {
      assert a'[i] == a[i];
      if j < |a| {
        assert a'[j] == a[j] && Apart(a, i, j);
      }
    }
    forall i, j | 0 <= i < |a'| && 0 <= j < |b'| ensures a'[i] != b'[j] {
      var j' := if j < k then j else j + 1;
      assert b'[j] == b[j'];
      if i < |a| {
        assert a'[i] == a[i];
      } else if j' < k {
        assert a'[i] == b[k] && Apart(b, j', k);
      } else {
        assert a'[i] == b[k] && Apart(b, k, j');
      }
    }
  }

  /** Moving the element at `k` of `b` to the end of `a` keeps the two
      lists' elements together. */
  lemma MoveMultiset<T>(a: seq<T>, b: seq<T>, k: nat)
    requires k < |b|
    ensures multiset(b[..k] + b[k + 1..]) + multiset(a + [b[k]]) == multiset(b) + multiset(a)
  {
    assert b == b[..k] + [b[k]] + b[k + 1..];
  }

  /** The position of the first element of `s` in `marked`, or `|s|` when
      there is none: what a scan that stops at the first match finds. */
  function FirstIn<T>(s: seq<T>, marked: set<T>): (k: nat)
    ensures k <= |s|
    ensures k < |s| ==> s[k] in marked
    ensures forall j :: 0 <= j < k ==> s[j] !in marked
    decreases |s|
  {
    if s == [] then 0
    else if s[0] in marked then 0
    else 1 + FirstIn(s[1..], marked)
  }

  /** A scan that found its first match at `j` agrees with `FirstIn`. */
  lemma FirstInAt<T>(s: seq<T>, marked: set<T>, j: nat)
    requires j < |s| && s[j] in marked
    requires forall t :: 0 <= t < j ==> s[t] !in marked
    ensures FirstIn(s, marked) == j
  {
  }

  /** A scan that found no match agrees with `FirstIn`. */
  lemma FirstInNone<T>(s: seq<T>, marked: set<T>)
    requires forall t :: 0 <= t < |s| ==> s[t] !in marked
    ensures FirstIn(s, marked) == |s|
  {
  }

  /** The elements of `s` whose flag in `keep` is set, in their original
      order: for a list without repeats, the result of
      `for x in s[:]: ... if not keep: s.remove(x)` (see `SweptAll`). */
  function Select<T>(s: seq<T>, keep: seq<bool>): (r: seq<T>)
    requires |keep| == |s|
    ensures |r| <= |s|
  {
    if s == [] then []
    else
      var n := |s| - 1;
      Select(s[..n], keep[..n]) + (if keep[n] then [s[n]] else [])
  }

  /** Filtering one more element appends it when its flag is set. */
  lemma SelectSnoc<T>(s: seq<T>, keep: seq<bool>, x: T, b: bool)
    requires |keep| == |s|
    ensures Select(s + [x], keep + [b]) == Select(s, keep) + (if b then [x] else [])
  {
    assert (s + [x])[..|s|] == s;
    assert (keep + [b])[..|s|] == keep;
  }

  /** One step of `for x in s[:]: ... if not keep: s.remove(x)` over a
      list: when the first `i` elements have been filtered and the
      rest not yet, removing element `i` (or keeping it) gives the list with
      the first `i + 1` elements filtered. */
  lemma SelectStep<T>(s: seq<T>, i: nat, keep: seq<bool>, b: bool)
    requires |keep| == i < |s| && s[i] !in s[..i]
    ensures var current := Select(s[..i], keep) + s[i..];
      var next := Select(s[..i + 1], keep + [b]) + s[i + 1..];
      && s[i] in current
      && (b ==> next == current)
      && (!b ==> next == RemoveFirst(current, s[i]))
  {
    var x := s[i];
    var front := Select(s[..i], keep);
    assert front + s[i..] == front + [x] + s[i + 1..] by {
      assert s[i..] == [x] + s[i + 1..];
    }
    assert Select(s[..i + 1], keep + [b]) == front + (if b then [x] else []) by {
      assert s[..i + 1] == s[..i] + [x];
      SelectSnoc(s[..i], keep, x, b);
    }
    if !b {
      SelectDrop(front, x, s[i + 1..], s[..i], keep);
    }
  }

  /** The removal half of `SelectStep`. */
  lemma SelectDrop<T>(front: seq<T>, x: T, rest: seq<T>, done: seq<T>, keep: seq<bool>)
    requires |keep| == |done| && front == Select(done, keep) && x !in done
    ensures RemoveFirst(front + [x] + rest, x) == front + rest
  {
    assert x !in front by {
      if x in front {
        SelectFrom(done, keep, x);
      }
    }
    RemoveAfterPrefix(front, x, rest);
  }

  /** The list as `for x in s[:]: ... if not keep: s.remove(x)` leaves it
      after visiting the first `|keep|` elements, the flags saying which of
      them stayed. The branch for an element no longer in the list never
      runs (`SweptStillHas`); it only makes `remove`'s precondition
      visible. */
  ghost function Swept<T>(s: seq<T>, keep: seq<bool>): (r: seq<T>)
    requires |keep| <= |s|
    decreases |keep|
  {
    if keep == [] then s
    else
      var n := |keep| - 1;
      var before := Swept(s, keep[..n]);
      if keep[n] || s[n] !in before then before else RemoveFirst(before, s[n])
  }

  /** Every element not yet visited is still in the list, repeats counted. */
  lemma {:induction false} SweptKeepsRest<T>(s: seq<T>, keep: seq<bool>)
    requires |keep| <= |s|
    ensures multiset(s[|keep|..]) <= multiset(Swept(s, keep))
    decreases |keep|
  {
    if keep == [] {
      assert s[0..] == s;
    } else {
      var n := |keep| - 1;
      SweptKeepsRest(s, keep[..n]);
      var before := Swept(s, keep[..n]);
      assert s[n..] == [s[n]] + s[n + 1..];
      assert multiset(s[n + 1..]) == multiset(s[n..]) - multiset{s[n]};
      if !keep[n] {
        assert s[n] in multiset(before);
        RemoveFirstMultiset(before, s[n]);
      }
    }
  }

  /** So the sweep's unguarded `remove` always finds its element. */
  lemma SweptStillHas<T>(s: seq<T>, keep: seq<bool>)
    requires |keep| < |s|
    ensures s[|keep|] in Swept(s, keep)
  {
    SweptKeepsRest(s, keep);
    assert s[|keep|..] == [s[|keep|]] + s[|keep| + 1..];
    assert s[|keep|] in multiset(Swept(s, keep));
  }

  /** Each visit removes at most one element: after visiting `|keep|`
      elements, at most that many are gone. */
  lemma {:induction false} SweptLength<T>(s: seq<T>, keep: seq<bool>)
    requires |keep| <= |s|
    ensures |s| - |keep| <= |Swept(s, keep)| <= |s|
    decreases |keep|
  {
    if keep != [] {
      SweptLength(s, keep[..|keep| - 1]);
    }
  }

  /** Over a distinct list the pass so far has filtered the visited prefix
      and left the rest as it was. */
  lemma {:induction false} SweptIsSelect<T>(s: seq<T>, keep: seq<bool>)
    requires |keep| <= |s| && Distinct(s)
    ensures Swept(s, keep) == Select(s[..|keep|], keep) + s[|keep|..]
    decreases |keep|
  {
    if keep == [] {
      assert s[..0] == [];
    } else {
      var n := |keep| - 1;
      SweptIsSelect(s, keep[..n]);
      DistinctNotBefore(s, n);
      SelectStep(s, n, keep[..n], keep[n]);
      assert keep[..n] + [keep[n]] == keep;
    }
  }

  /** The element about to be visited is still in the list. */
  lemma SweptHas<T>(s: seq<T>, keep: seq<bool>)
    requires |keep| < |s| && Distinct(s)
    ensures s[|keep|] in Swept(s, keep)
  {
    SweptIsSelect(s, keep);
    assert s[|keep|..][0] == s[|keep|];
  }

  /** Once every element is visited the pass is the filter. */
  lemma SweptAll<T>(s: seq<T>, keep: seq<bool>)
    requires |keep| == |s| && Distinct(s)
    ensures Swept(s, keep) == Select(s, keep)
  {
    SweptIsSelect(s, keep);
    assert s[..|s|] == s;
  }

  /** Filtering only drops elements: what is kept is a sub-multiset. */
  lemma {:induction false} SelectSubMultiset<T>(s: seq<T>, keep: seq<bool>)
    requires |keep| == |s|
    ensures multiset(Select(s, keep)) <= multiset(s)
  {
    if s != [] {
      var n := |s| - 1;
      SelectSubMultiset(s[..n], keep[..n]);
      assert s == s[..n] + [s[n]];
    }
  }

  /** Filtering invents nothing: whatever is kept was in the input. */
  lemma {:induction false} SelectFrom<T>(s: seq<T>, keep: seq<bool>, x: T)
    requires |keep| == |s|
    requires x in Select(s, keep)
    ensures x in s
  {
    var n := |s| - 1;
    if x in Select(s[..n], keep[..n]) {
      SelectFrom(s[..n], keep[..n], x);
    }
  }

  /** Every selected element sits at a flagged position of the input. */
  lemma {:induction false} SelectOnlyFlagged<T>(s: seq<T>, keep: seq<bool>, i: nat)
    requires |keep| == |s|
    requires i < |Select(s, keep)|
    ensures exists j :: 0 <= j < |s| && keep[j] && s[j] == Select(s, keep)[i]
  {
    var n := |s| - 1;
    var front := Select(s[..n], keep[..n]);
    if i < |front| {
      SelectOnlyFlagged(s[..n], keep[..n], i);
      var j :| 0 <= j < n && keep[..n][j] && s[..n][j] == front[i];
      assert keep[j] && s[j] == Select(s, keep)[i];
    } else {
      assert keep[n] && s[n] == Select(s, keep)[i];
    }
  }

  /** A flagged element of the input is kept. */
  lemma {:induction false} SelectKeepsFlagged<T>(s: seq<T>, keep: seq<bool>, j: nat)
    requires |keep| == |s|
    requires j < |s| && keep[j]
    ensures s[j] in Select(s, keep)
  {
    var n := |s| - 1;
    if j < n {
      SelectKeepsFlagged(s[..n], keep[..n], j);
    }
  }

  /** Filtering a distinct list leaves it distinct. */
  lemma {:induction false} SelectDistinct<T>(s: seq<T>, keep: seq<bool>)
    requires |keep| == |s| && Distinct(s)
    ensures Distinct(Select(s, keep))
  {
    if s != [] {
      var n := |s| - 1;
      DistinctTake(s, n);
      SelectDistinct(s[..n], keep[..n]);
      if keep[n] {
        var front := Select(s[..n], keep[..n]);
        DistinctNotBefore(s, n);
        assert s[n] !in multiset(s[..n]);
        assert s[n] !in front by {
          SelectSubMultiset(s[..n], keep[..n]);
        }
        DistinctSnoc(front, s[n]);
      } else {
        assert Select(s, keep) == Select(s[..n], keep[..n]) + [] == Select(s[..n], keep[..n]);
      }
    }
  }
}
