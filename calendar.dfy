/** The market-day calendar is sorted by date before the day loop; it is
    not de-duplicated. */
module Calendar {
  import opened LedgerTypes

  ghost predicate Sorted(s: seq<Date>)
  {
    forall i, j :: 0 <= i < j < |s| ==> s[i] <= s[j]
  }

  /** A date no later than every element of a sorted sequence may be put in front. */
  lemma SortedCons(h: Date, t: seq<Date>)
    requires Sorted(t)
    requires forall k :: 0 <= k < |t| ==> h <= t[k]
    ensures Sorted([h] + t)
  {
    var r := [h] + t;
    forall i, j | 0 <= i < j < |r| ensures r[i] <= r[j] {
      if i > 0 { assert r[i] == t[i - 1] && r[j] == t[j - 1]; }
      else { assert r[j] == t[j - 1]; }
    }
  }

  /** The tail of a sorted sequence is sorted. */
  lemma SortedTail(s: seq<Date>)
    requires Sorted(s) && s != []
    ensures Sorted(s[1..])
  {
    forall i, j | 0 <= i < j < |s[1..]| ensures s[1..][i] <= s[1..][j] {
      assert s[1..][i] == s[i + 1] && s[1..][j] == s[j + 1];
    }
  }

  /** Inserts `x` before the first date of `s` larger than it. */
  function Insert(x: Date, s: seq<Date>): (r: seq<Date>)
    ensures |r| == |s| + 1
  {
    if s == [] then [x]
    else if x <= s[0] then [x] + s
    else [s[0]] + Insert(x, s[1..])
  }

  /** A lower bound of `s` and of `x` bounds the result of the insertion. */
  lemma {:induction false} InsertBounded(m: Date, x: Date, s: seq<Date>)
    requires m <= x
    requires forall k :: 0 <= k < |s| ==> m <= s[k]
    ensures forall k :: 0 <= k < |Insert(x, s)| ==> m <= Insert(x, s)[k]
  {
    if s != [] && x > s[0] {
      InsertBounded(m, x, s[1..]);
      var r := Insert(x, s);
      forall k | 0 <= k < |r| ensures m <= r[k] {
        if k > 0 { assert r[k] == Insert(x, s[1..])[k - 1]; }
      }
    }
  }

  /** Inserting into a sorted sequence keeps it sorted and adds exactly `x`. */
  lemma {:induction false} InsertSorts(x: Date, s: seq<Date>)
    requires Sorted(s)
    ensures Sorted(Insert(x, s))
    ensures multiset(Insert(x, s)) == multiset(s) + multiset{x}
  {
    if s == [] {
    } else if x <= s[0] {
      SortedCons(x, s);
    } else {
      assert s == [s[0]] + s[1..];
      SortedTail(s);
      InsertSorts(x, s[1..]);
      InsertBounded(s[0], x, s[1..]);
      SortedCons(s[0], Insert(x, s[1..]));
    }
  }

  /** The calendar in ascending date order, duplicates kept. */
  function SortDays(days: seq<Date>): (r: seq<Date>)
    ensures |r| == |days|
  {
    if days == [] then []
    else Insert(days[0], SortDays(days[1..]))
  }

  /** SortDays yields a sorted arrangement of exactly the given dates. */
  lemma {:induction false} SortDaysSorts(days: seq<Date>)
    ensures Sorted(SortDays(days))
    ensures multiset(SortDays(days)) == multiset(days)
  {
    if days != [] {
      assert days == [days[0]] + days[1..];
      SortDaysSorts(days[1..]);
      InsertSorts(days[0], SortDays(days[1..]));
    }
  }

  /** The head of a sorted sequence is its least date. */
  lemma HeadIsLeast(s: seq<Date>, y: Date)
    requires Sorted(s) && y in multiset(s)
    ensures s[0] <= y
  {
    var k :| 0 <= k < |s| && s[k] == y;
  }

  /** Two arrangements of the same dates that start alike continue with
      the same dates. */
  lemma TailPermutation(a: seq<Date>, b: seq<Date>)
    requires multiset(a) == multiset(b) && a != [] && b != [] && a[0] == b[0]
    ensures multiset(a[1..]) == multiset(b[1..])
  {
    assert a == [a[0]] + a[1..];
    assert b == [b[0]] + b[1..];
    assert multiset(a) == multiset{a[0]} + multiset(a[1..]);
    assert multiset(b) == multiset{b[0]} + multiset(b[1..]);
    assert multiset(a[1..]) == multiset(a) - multiset{a[0]};
    assert multiset(b[1..]) == multiset(b) - multiset{b[0]};
  }

  /** The first element of a non-empty arrangement is one of its dates. */
  lemma HeadIn(a: seq<Date>, b: seq<Date>)
    requires multiset(a) == multiset(b) && a != []
    ensures |b| == |a| && a[0] in multiset(b)
  {
    assert |a| == |multiset(a)| == |multiset(b)| == |b|;
    assert a[0] in multiset(a);
  }

  /** Two sorted arrangements of the same dates are equal, so any sorting
      algorithm yields exactly SortDays(days). */
  lemma {:induction false} SortedPermutationUnique(a: seq<Date>, b: seq<Date>)
    requires Sorted(a) && Sorted(b)
    requires multiset(a) == multiset(b)
    ensures a == b
  {
    if a == [] {
      assert |b| == |multiset(b)| == 0;
    } else {
      HeadIn(a, b);
      HeadIn(b, a);
      HeadIsLeast(a, b[0]);
      HeadIsLeast(b, a[0]);
      SortedTail(a);
      SortedTail(b);
      TailPermutation(a, b);
      SortedPermutationUnique(a[1..], b[1..]);
      assert a == [a[0]] + a[1..];
      assert b == [b[0]] + b[1..];
    }
  }

  /** Whatever order the calendar arrives in, the days processed are the
      unique ascending arrangement of it. */
  lemma SortDaysCanonical(days: seq<Date>, sorted: seq<Date>)
    requires Sorted(sorted) && multiset(sorted) == multiset(days)
    ensures SortDays(days) == sorted
  {
    SortDaysSorts(days);
    SortedPermutationUnique(SortDays(days), sorted);
  }
}
