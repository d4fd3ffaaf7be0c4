/**
 * What the dashboard derives from one user's history: the statistics cards
 * and the recent-activity feed.
 */
module Dashboard {
  import opened History
  import opened Streaks

  /** A JavaScript number produced by a division that may be by zero. */
  datatype Percent = Finite(value: real) | NotANumber | PositiveInfinity | NegativeInfinity

  /** The four statistics cards. */
  datatype Stats = Stats(current: real, reduction: Percent, trees: real, streak: nat)

  /** The statistics and the activity feed for one user. */
  datatype UserData = UserData(stats: Stats, recent: seq<Entry>)

  /**
   * `(first - current) / first * 100`: the relative change from the first
   * footprint to the current one, in percent. With `first == 0` JavaScript
   * gives NaN for `0 / 0` and an infinity of the numerator's sign otherwise.
   */
  function Reduction(first: real, current: real): (p: Percent)
    ensures p.Finite? <==> first != 0.0
    ensures p.Finite? ==> p.value * first == (first - current) * 100.0
    ensures first == 0.0 ==> (p == NotANumber <==> current == 0.0)
    ensures first == 0.0 ==> (p == PositiveInfinity <==> current < 0.0)
  {
    if first != 0.0 then Finite((first - current) / first * 100.0)
    else if current == 0.0 then NotANumber
    else if current < 0.0 then PositiveInfinity
    else NegativeInfinity
  }

  /** `calculateStats`: all zeros for an empty history, otherwise figures taken from the first and last entries. */
  function CalculateStats(history: seq<Entry>): (s: Stats)
    ensures |history| == 0 ==> s == Stats(0.0, Finite(0.0), 0.0, 0)
    ensures |history| > 0 ==> s.current == history[|history| - 1].emissions
    ensures |history| > 0 ==> s.trees * 21.0 == s.current * 12.0
    ensures |history| > 0 ==> s.reduction == Reduction(history[0].emissions, s.current)
    ensures s.streak == Streak(history)
  {
    if |history| == 0 then Stats(0.0, Finite(0.0), 0.0, 0)
    else
      var current := history[|history| - 1].emissions;
      Stats(current, Reduction(history[0].emissions, current), current * 12.0 / 21.0, Streak(history))
  }

  /**
   * `loadUserData`: the user's entries, filtered from the shared log, feed
   * both the statistics and the activity feed: every card is computed from
   * the user's own entries, and the feed is their last five, newest first.
   * A user with nothing saved sees zeros and an empty feed; otherwise the
   * current footprint and the head of the feed are the user's last entry in
   * the log.
   */
  function LoadUserData(history: seq<Entry>, userId: string): (d: UserData)
    ensures forall e :: e in d.recent ==> e in history && e.userId == userId
    ensures |d.recent| <= RecentCount
    ensures var mine := UserHistory(history, userId);
            && IsFeedOf(d.recent, mine)
            && d.stats.streak == Streak(mine)
            && (|mine| > 0 ==> d.stats.current == mine[|mine| - 1].emissions
                               && d.stats.reduction == Reduction(mine[0].emissions, d.stats.current))
            && d.stats.trees * 21.0 == d.stats.current * 12.0
    ensures (forall i :: 0 <= i < |history| ==> history[i].userId != userId) ==>
              d == UserData(Stats(0.0, Finite(0.0), 0.0, 0), [])
    ensures forall i :: IsLastOf(history, userId, i) ==>
              d.stats.current == history[i].emissions && |d.recent| > 0 && d.recent[0] == history[i]
  {
    var mine := UserHistory(history, userId);
    UserHistoryEnds(history, userId);
    UserData(CalculateStats(mine), RecentActivity(mine))
  }

  /** A single entry with a non-zero footprint shows no reduction and a streak of 1. */
  lemma SingleEntryStats(e: Entry)
    requires e.emissions != 0.0
    ensures CalculateStats([e]) == Stats(e.emissions, Finite(0.0), e.emissions * 12.0 / 21.0, 1)
  {
  }

  /**
   * When every footprint is positive (as every total computed from
   * non-negative quantities is), the reduction is a finite percentage below
   * 100, and it is positive exactly when the current footprint is below the first.
   */
  lemma ReductionOfPositiveHistory(history: seq<Entry>)
    requires |history| > 0
    requires forall i :: 0 <= i < |history| ==> history[i].emissions > 0.0
    ensures CalculateStats(history).reduction.Finite?
    ensures CalculateStats(history).reduction.value < 100.0
    ensures CalculateStats(history).reduction.value > 0.0 <==> history[|history| - 1].emissions < history[0].emissions
  {
    var first, current := history[0].emissions, history[|history| - 1].emissions;
    var p := Reduction(first, current);
    assert p.value * first == (first - current) * 100.0;
    assert p.value == (first - current) / first * 100.0;
    assert (first - current) / first == first / first - current / first;
    assert first / first == 1.0;
    assert current / first > 0.0;
    if p.value > 0.0 {
      assert p.value * first > 0.0;
    } else {
      assert p.value * first <= 0.0;
    }
  }

  /**
   * Right after an entry is saved for a user, that user's dashboard shows it
   * as the current footprint and at the top of the activity feed.
   */
  lemma SavedEntryIsShown(history: seq<Entry>, e: Entry)
    ensures var d := LoadUserData(history + [e], e.userId);
            d.stats.current == e.emissions && |d.recent| > 0 && d.recent[0] == e
  {
    UserHistoryAppend(history, e, e.userId);
  }
}
