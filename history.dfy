/**
 * The footprint history: one log of saved entries for every user, in the
 * order they were saved, and the per-user queries the dashboard runs on it.
 */
module History {
  import opened Footprint

  /** One saved footprint. `date` is a day number. */
  datatype Entry = Entry(userId: string, userName: string, emissions: real, date: int, details: Details)

  /** How many entries the activity feed shows. */
  const RecentCount: nat := 5

  /** The entries of `history` that belong to `userId`, in log order. */
  function UserHistory(history: seq<Entry>, userId: string): (r: seq<Entry>)
    ensures |r| <= |history|
    ensures forall i :: 0 <= i < |r| ==> r[i].userId == userId
    ensures forall e :: e in r <==> e in history && e.userId == userId
  {
    if history == [] then []
    else (if history[0].userId == userId then [history[0]] else []) + UserHistory(history[1..], userId)
  }

  /** Filtering a log made of two parts filters each part and keeps them in order. */
  lemma {:induction false} UserHistoryConcat(a: seq<Entry>, b: seq<Entry>, userId: string)
    ensures UserHistory(a + b, userId) == UserHistory(a, userId) + UserHistory(b, userId)
  {
    if a == [] {
      assert a + b == b;
    } else {
      assert (a + b)[1..] == a[1..] + b;
      UserHistoryConcat(a[1..], b, userId);
    }
  }

  /** Appending an entry for `userId` makes it the last entry of that user's history; other users' histories are unchanged. */
  lemma UserHistoryAppend(history: seq<Entry>, e: Entry, userId: string)
    ensures e.userId == userId ==> UserHistory(history + [e], userId) == UserHistory(history, userId) + [e]
    ensures e.userId != userId ==> UserHistory(history + [e], userId) == UserHistory(history, userId)
  {
    UserHistoryConcat(history, [e], userId);
    assert UserHistory([e], userId) == (if e.userId == userId then [e] else []) + UserHistory([], userId);
  }

  /** Entry `i` is the last entry of `userId` in the log. */
  predicate IsLastOf(history: seq<Entry>, userId: string, i: int)
  {
    0 <= i < |history| && history[i].userId == userId
    && forall j :: i < j < |history| ==> history[j].userId != userId
  }

  /** A log with no entry for `userId` gives that user an empty history. */
  lemma {:induction false} UserHistoryNone(history: seq<Entry>, userId: string)
    requires forall j :: 0 <= j < |history| ==> history[j].userId != userId
    ensures UserHistory(history, userId) == []
  {
    if history != [] {
      UserHistoryNone(history[1..], userId);
    }
  }

  /** A user's history ends with that user's last entry in the log. */
  lemma UserHistoryLast(history: seq<Entry>, userId: string, i: int)
    requires IsLastOf(history, userId, i)
    ensures UserHistory(history, userId) == UserHistory(history[..i], userId) + [history[i]]
  {
    var before, after := history[..i] + [history[i]], history[i + 1..];
    assert history == before + after;
    UserHistoryConcat(before, after, userId);
    UserHistoryAppend(history[..i], history[i], userId);
    UserHistoryNone(after, userId);
  }

  /** The elements of `s` in reverse order. */
  function Reverse(s: seq<Entry>): (r: seq<Entry>)
    ensures |r| == |s|
    ensures forall i :: 0 <= i < |s| ==> r[i] == s[|s| - 1 - i]
  {
    if s == [] then [] else Reverse(s[1..]) + [s[0]]
  }

  /** `feed` is the last five entries of `entries` (all of them if fewer), newest first. */
  predicate IsFeedOf(feed: seq<Entry>, entries: seq<Entry>)
  {
    && |feed| == (if |entries| < RecentCount then |entries| else RecentCount)
    && forall i :: 0 <= i < |feed| && i < |entries| ==> feed[i] == entries[|entries| - 1 - i]
  }

  /** `history.slice(-5).reverse()`: the last five entries (all of them if fewer), newest first. */
  function RecentActivity(history: seq<Entry>): (r: seq<Entry>)
    ensures |r| == if |history| < RecentCount then |history| else RecentCount
    ensures forall i :: 0 <= i < |r| ==> r[i] == history[|history| - 1 - i]
    ensures IsFeedOf(r, history)
  {
    var start := if |history| < RecentCount then 0 else |history| - RecentCount;
    Reverse(history[start..])
  }

  /**
   * A user's feed shows only their own entries. Their history is empty when
   * the log has no entry for them; otherwise it ends with, and the feed
   * starts with, their last entry in the log.
   */
  lemma UserHistoryEnds(history: seq<Entry>, userId: string)
    ensures forall e :: e in RecentActivity(UserHistory(history, userId)) ==> e in history && e.userId == userId
    ensures (forall i :: 0 <= i < |history| ==> history[i].userId != userId) ==> UserHistory(history, userId) == []
    ensures forall i :: IsLastOf(history, userId, i) ==>
              var mine := UserHistory(history, userId);
              |mine| > 0 && mine[|mine| - 1] == history[i]
              && |RecentActivity(mine)| > 0 && RecentActivity(mine)[0] == history[i]
  {
    if forall i :: 0 <= i < |history| ==> history[i].userId != userId {
      UserHistoryNone(history, userId);
    }
    forall i | IsLastOf(history, userId, i)
      ensures var mine := UserHistory(history, userId);
              |mine| > 0 && mine[|mine| - 1] == history[i]
              && |RecentActivity(mine)| > 0 && RecentActivity(mine)[0] == history[i]
    {
      UserHistoryLast(history, userId, i);
    }
  }
}
