/**
 * The dashboard's day streak: sort a copy of a user's history newest first,
 * then count consecutive entries exactly one day apart, stopping at the
 * first pair that is not.
 */
module Streaks {
  import opened History

  /** The day numbers of the entries, in the same order. */
  function Dates(s: seq<Entry>): (d: seq<int>)
    ensures |d| == |s|
    ensures forall i :: 0 <= i < |s| ==> d[i] == s[i].date
  {
    seq(|s|, i requires 0 <= i < |s| => s[i].date)
  }

  /** Day numbers that never increase from left to right. */
  ghost predicate NewestFirst(d: seq<int>)
  {
    forall i, j :: 0 <= i < j < |d| ==> d[i] >= d[j]
  }

  /** Places `e` in front of the first entry that is not newer than it. */
  function InsertByDate(e: Entry, s: seq<Entry>): (r: seq<Entry>)
    ensures |r| == |s| + 1
  {
    if s == [] || e.date >= s[0].date then [e] + s
    else [s[0]] + InsertByDate(e, s[1..])
  }

  /**
   * The copy `[...history].sort((a, b) => new Date(b.date) - new Date(a.date))`:
   * a stable sort, newest first.
   */
  function SortByDateDesc(history: seq<Entry>): (r: seq<Entry>)
    ensures |r| == |history|
  {
    if history == [] then [] else InsertByDate(history[0], SortByDateDesc(history[1..]))
  }

  /** Inserting adds exactly one entry. */
  lemma {:induction false} InsertByDatePermutes(e: Entry, s: seq<Entry>)
    ensures multiset(InsertByDate(e, s)) == multiset(s) + multiset{e}
  {
    if s != [] && e.date < s[0].date {
      InsertByDatePermutes(e, s[1..]);
      assert s == [s[0]] + s[1..];
    }
  }

  /** Taking dates distributes over concatenation. */
  lemma DatesConcat(a: seq<Entry>, b: seq<Entry>)
    ensures Dates(a + b) == Dates(a) + Dates(b)
  {
  }

  /** Inserting adds exactly one date. */
  lemma {:induction false} InsertByDateDates(e: Entry, s: seq<Entry>)
    ensures multiset(Dates(InsertByDate(e, s))) == multiset(Dates(s)) + multiset{e.date}
  {
    assert Dates([e]) == [e.date];
    if s == [] || e.date >= s[0].date {
      DatesConcat([e], s);
    } else {
      var rest := InsertByDate(e, s[1..]);
      InsertByDateDates(e, s[1..]);
      assert Dates([s[0]]) == [s[0].date];
      assert s == [s[0]] + s[1..];
      DatesConcat([s[0]], s[1..]);
      DatesConcat([s[0]], rest);
    }
  }

  /** An entry no older than any entry of a newest-first sequence can go in front of it. */
  lemma PrependNewest(x: Entry, t: seq<Entry>)
    requires NewestFirst(Dates(t))
    requires forall j :: 0 <= j < |t| ==> x.date >= t[j].date
    ensures NewestFirst(Dates([x] + t))
  {
    var r := [x] + t;
    forall i, j | 0 <= i < j < |r|
      ensures Dates(r)[i] >= Dates(r)[j]
    {
      if i > 0 {
        assert Dates(t)[i - 1] >= Dates(t)[j - 1];
      }
    }
  }

  /** Inserting keeps a newest-first sequence newest first. */
  lemma {:induction false} InsertByDateSorted(e: Entry, s: seq<Entry>)
    requires NewestFirst(Dates(s))
    ensures NewestFirst(Dates(InsertByDate(e, s)))
  {
    if s == [] || e.date >= s[0].date {
      PrependNewest(e, s);
    } else {
      var rest := InsertByDate(e, s[1..]);
      assert Dates(s[1..]) == Dates(s)[1..];
      InsertByDateSorted(e, s[1..]);
      InsertByDateDates(e, s[1..]);
      forall j | 0 <= j < |rest|
        ensures s[0].date >= rest[j].date
      {
        assert Dates(rest)[j] == rest[j].date;
        assert rest[j].date in multiset(Dates(rest));
        if rest[j].date != e.date {
          assert rest[j].date in Dates(s[1..]);
        }
      }
      PrependNewest(s[0], rest);
    }
  }

  /** The sorted copy holds the same entries. */
  lemma {:induction false} SortByDateDescPermutes(history: seq<Entry>)
    ensures multiset(SortByDateDesc(history)) == multiset(history)
  {
    if history != [] {
      SortByDateDescPermutes(history[1..]);
      InsertByDatePermutes(history[0], SortByDateDesc(history[1..]));
      assert history == [history[0]] + history[1..];
    }
  }

  /** The sorted copy holds the same dates. */
  lemma {:induction false} SortByDateDescDates(history: seq<Entry>)
    ensures multiset(Dates(SortByDateDesc(history))) == multiset(Dates(history))
  {
    if history != [] {
      SortByDateDescDates(history[1..]);
      InsertByDateDates(history[0], SortByDateDesc(history[1..]));
      assert Dates(history) == [history[0].date] + Dates(history[1..]);
    }
  }

  /** The sorted copy is newest first. */
  lemma {:induction false} SortByDateDescSorted(history: seq<Entry>)
    ensures NewestFirst(Dates(SortByDateDesc(history)))
  {
    if history != [] {
      SortByDateDescSorted(history[1..]);
      InsertByDateSorted(history[0], SortByDateDesc(history[1..]));
    }
  }

  function Abs(x: int): nat
  {
    if x < 0 then -x else x
  }

  /** How many steps of exactly one day follow position `i` of `d` before the first other step. */
  function RunFrom(d: seq<int>, i: nat): (n: nat)
    requires i < |d|
    ensures i + n < |d|
    decreases |d| - i
  {
    if i + 1 < |d| && Abs(d[i] - d[i + 1]) == 1 then 1 + RunFrom(d, i + 1) else 0
  }

  /** The streak the dashboard shows for a user's history. */
  function Streak(history: seq<Entry>): (s: nat)
    ensures |history| < 2 ==> s == |history|
    ensures |history| >= 2 ==> 1 <= s <= |history|
  {
    if |history| < 2 then |history| else 1 + RunFrom(Dates(SortByDateDesc(history)), 0)
  }

  /** `calculateStreak`: the scan over the sorted copy, with its early exit. */
  method CalculateStreak(history: seq<Entry>) returns (streak: nat)
    ensures streak == Streak(history)
    ensures |history| < 2 ==> streak == |history|
    ensures |history| >= 2 ==> 1 <= streak <= |history|
  {
    if |history| < 2 {
      return |history|;
    }
    var sorted := SortByDateDesc(history);
    ghost var days := Dates(sorted);
    streak := 1;
    var i := 1;
    while i < |sorted|
      invariant 1 <= i <= |sorted|
      invariant streak == i
      invariant RunFrom(days, 0) == (i - 1) + RunFrom(days, i - 1)
    {
      var diffDays := Abs(sorted[i - 1].date - sorted[i].date);
      if diffDays == 1 {
        streak := streak + 1;
      } else {
        break;
      }
      i := i + 1;
    }
  }

  /** Dropping the newest value keeps a sequence newest first. */
  lemma NewestFirstTail(a: seq<int>)
    requires NewestFirst(a) && a != []
    ensures NewestFirst(a[1..])
  {
    forall i, j | 0 <= i < j < |a| - 1
      ensures a[1..][i] >= a[1..][j]
    {
      assert a[1..][i] == a[i + 1] && a[1..][j] == a[j + 1];
    }
  }

  /** The first value of a newest-first sequence is its largest. */
  lemma NewestFirstHeadIsMax(a: seq<int>, x: int)
    requires NewestFirst(a) && x in a
    ensures x <= a[0]
  {
    var k :| 0 <= k < |a| && a[k] == x;
  }

  /** Two newest-first sequences holding the same day numbers are equal. */
  lemma {:induction false} NewestFirstUnique(a: seq<int>, b: seq<int>)
    requires NewestFirst(a) && NewestFirst(b)
    requires multiset(a) == multiset(b)
    ensures a == b
  {
    if a == [] {
      assert |b| == |multiset(b)| == 0;
    } else {
      assert |b| == |multiset(b)| == |multiset(a)| == |a|;
      assert a[0] in multiset(b) && b[0] in multiset(a);
      NewestFirstHeadIsMax(b, a[0]);
      NewestFirstHeadIsMax(a, b[0]);
      assert a[0] == b[0];
      assert a == [a[0]] + a[1..] && b == [b[0]] + b[1..];
      assert multiset(a[1..]) == multiset(a) - multiset{a[0]};
      assert multiset(b[1..]) == multiset(b) - multiset{b[0]};
      NewestFirstTail(a);
      NewestFirstTail(b);
      NewestFirstUnique(a[1..], b[1..]);
    }
  }

  /** The streak depends only on the entries' dates, not on the order the history lists them in. */
  lemma StreakIgnoresOrder(h1: seq<Entry>, h2: seq<Entry>)
    requires multiset(Dates(h1)) == multiset(Dates(h2))
    ensures Streak(h1) == Streak(h2)
  {
    assert |h1| == |multiset(Dates(h1))| == |multiset(Dates(h2))| == |h2|;
    SortByDateDescDates(h1);
    SortByDateDescDates(h2);
    SortByDateDescSorted(h1);
    SortByDateDescSorted(h2);
    NewestFirstUnique(Dates(SortByDateDesc(h1)), Dates(SortByDateDesc(h2)));
  }

  /** In newest-first order, a run from `i` walks down one day per step and ends at a step that is not one day. */
  lemma {:induction false} RunFromIsDescent(d: seq<int>, i: nat)
    requires NewestFirst(d) && i < |d|
    ensures forall j :: i <= j <= i + RunFrom(d, i) ==> d[j] == d[i] - (j - i)
    ensures i + RunFrom(d, i) + 1 < |d| ==> d[i + RunFrom(d, i) + 1] != d[i + RunFrom(d, i)] - 1
    decreases |d| - i
  {
    if i + 1 < |d| && Abs(d[i] - d[i + 1]) == 1 {
      RunFromIsDescent(d, i + 1);
    }
  }

  /**
   * Read on the dates sorted newest first: the streak is the length of the run
   * of consecutive days that starts at the newest date, and the next date
   * (if any) is not the day before the run's last one.
   */
  lemma StreakIsNewestRun(history: seq<Entry>)
    requires |history| >= 2
    ensures var d := Dates(SortByDateDesc(history));
            var k := Streak(history);
            && (forall j :: 0 <= j < k ==> d[j] == d[0] - j)
            && (k < |history| ==> d[k] != d[0] - k)
  {
    SortByDateDescSorted(history);
    RunFromIsDescent(Dates(SortByDateDesc(history)), 0);
  }

  /** The latest day on which the history has an entry. */
  function NewestDate(history: seq<Entry>): (m: int)
    requires |history| > 0
    ensures m in Dates(history)
    ensures forall i :: 0 <= i < |history| ==> history[i].date <= m
  {
    if |history| == 1 then history[0].date
    else
      var rest := NewestDate(history[1..]);
      assert Dates(history[1..]) == Dates(history)[1..];
      if history[0].date >= rest then history[0].date else rest
  }

  /** The first of the sorted dates is the newest date. */
  lemma SortedStartsAtNewest(history: seq<Entry>)
    requires |history| > 0
    ensures Dates(SortByDateDesc(history))[0] == NewestDate(history)
  {
    var d := Dates(SortByDateDesc(history));
    var m := NewestDate(history);
    SortByDateDescDates(history);
    SortByDateDescSorted(history);
    assert d[0] in multiset(Dates(history));
    assert m in multiset(d);
  }

  /**
   * In a newest-first sequence the second value is one less than the first
   * exactly when the first value occurs once and its predecessor occurs.
   */
  lemma OneDayStep(d: seq<int>)
    requires NewestFirst(d) && |d| >= 2
    ensures d[1] == d[0] - 1 <==> multiset(d)[d[0]] == 1 && d[0] - 1 in d
  {
    var m := d[0];
    assert d == [m] + d[1..];
    assert multiset(d)[m] == 1 + multiset(d[1..])[m];
    if d[1] == m - 1 {
      assert m !in d[1..];
    } else if d[1] == m {
      assert m in d[1..];
    } else {
      assert m - 1 !in d;
    }
  }

  /**
   * The streak goes past one day exactly when the newest day holds a single
   * entry and the day before it holds at least one: two entries on the newest
   * day, or a gap of more than a day, stop the count at 1.
   */
  lemma StreakBeyondOne(history: seq<Entry>)
    requires |history| >= 2
    ensures Streak(history) >= 2 <==>
            multiset(Dates(history))[NewestDate(history)] == 1 && NewestDate(history) - 1 in Dates(history)
  {
    var d := Dates(SortByDateDesc(history));
    SortByDateDescDates(history);
    SortByDateDescSorted(history);
    SortedStartsAtNewest(history);
    OneDayStep(d);
    assert d[0] >= d[1];
    assert (NewestDate(history) - 1 in d) == (NewestDate(history) - 1 in multiset(d));
    assert (NewestDate(history) - 1 in Dates(history)) == (NewestDate(history) - 1 in multiset(Dates(history)));
  }

  /** Two entries on consecutive days give a streak of 2, whichever is listed first. */
  lemma ConsecutiveDaysExample(e1: Entry, e2: Entry)
    requires e2.date == e1.date + 1
    ensures Streak([e1, e2]) == 2 && Streak([e2, e1]) == 2
  {
    assert [e1, e2][1..] == [e2] && [e2, e1][1..] == [e1];
    assert SortByDateDesc([e2]) == [e2];
    assert SortByDateDesc([e1]) == [e1];
    assert InsertByDate(e1, [e2]) == [e2] + InsertByDate(e1, []);
    assert SortByDateDesc([e1, e2]) == [e2, e1];
    assert SortByDateDesc([e2, e1]) == [e2, e1];
  }

  /**
   * A third entry two days after the second: the scan starts at that newest
   * entry, meets a two-day gap at once, and the streak is 1.
   */
  lemma GapAfterPairExample(e1: Entry, e2: Entry, e3: Entry)
    requires e2.date == e1.date + 1 && e3.date == e2.date + 2
    ensures Streak([e1, e2, e3]) == 1
  {
    assert [e1, e2, e3][1..] == [e2, e3] && [e2, e3][1..] == [e3];
    assert SortByDateDesc([e3]) == [e3];
    assert InsertByDate(e2, [e3]) == [e3] + InsertByDate(e2, []);
    assert SortByDateDesc([e2, e3]) == [e3, e2];
    assert [e3, e2][1..] == [e2];
    assert InsertByDate(e1, [e2]) == [e2] + InsertByDate(e1, []);
    assert InsertByDate(e1, [e3, e2]) == [e3] + InsertByDate(e1, [e2]);
    assert SortByDateDesc([e1, e2, e3]) == [e3, e2, e1];
  }
}
