/**
 * Weekday coverage of a lottery schedule (utils/cron.ts).
 *
 * A lottery's `periodDays` lists the weekdays (0 = Sunday .. 6 = Saturday)
 * on which a round is drawn. `isEveryDay` decides whether that list covers
 * the whole week, so that the scheduler can use an "every day" job instead
 * of a "specific days" job.
 */
module Cron {
  import opened Wrappers

  /** The seven weekday numbers a schedule has to mention to run every day. */
  const Weekdays: set<int> := {0, 1, 2, 3, 4, 5, 6}

  /** The distinct values occurring in a list of weekdays. */
  function Elems(days: seq<int>): (s: set<int>)
    ensures forall x :: x in s <==> x in days
  {
    set x | x in days
  }

  /**
   * The truthiness of `isEveryDay(periodDays)`: the list is defined,
   * non-empty, and includes each of 0, 1, 2, 3, 4, 5 and 6.
   */
  predicate IsEveryDay(periodDays: Option<seq<int>>)
  {
    && periodDays.Some?
    && |periodDays.value| != 0
    && 0 in periodDays.value
    && 1 in periodDays.value
    && 2 in periodDays.value
    && 3 in periodDays.value
    && 4 in periodDays.value
    && 5 in periodDays.value
    && 6 in periodDays.value
  }

  /** An undefined or empty list is never every day. */
  lemma UndefinedOrEmptyIsNotEveryDay()
    ensures !IsEveryDay(None)
    ensures !IsEveryDay(Some([]))
  {
  }

  /**
   * Reference definition: a defined list is every day exactly when every
   * weekday 0..6 occurs in it. The explicit length test is implied.
   */
  lemma IsEveryDayIffCoversWeek(days: seq<int>)
    ensures IsEveryDay(Some(days)) <==> (forall w :: 0 <= w < 7 ==> w in days)
    ensures IsEveryDay(Some(days)) <==> Weekdays <= Elems(days)
  {
    if forall w :: 0 <= w < 7 ==> w in days {
      assert 0 in days;
    }
    if IsEveryDay(Some(days)) {
      forall w | 0 <= w < 7 ensures w in days {
        assert w == 0 || w == 1 || w == 2 || w == 3 || w == 4 || w == 5 || w == 6;
      }
    }
  }

  /** Only the set of values matters: reordering or duplicating entries does not change the answer. */
  lemma IsEveryDayDependsOnlyOnValues(d1: seq<int>, d2: seq<int>)
    requires Elems(d1) == Elems(d2)
    ensures IsEveryDay(Some(d1)) == IsEveryDay(Some(d2))
  {
    IsEveryDayIffCoversWeek(d1);
    IsEveryDayIffCoversWeek(d2);
  }

  /** Monotonicity: any list containing all values of an every-day list, and possibly more, is every day. */
  lemma IsEveryDayMonotone(d1: seq<int>, d2: seq<int>)
    requires IsEveryDay(Some(d1))
    requires Elems(d1) <= Elems(d2)
    ensures IsEveryDay(Some(d2))
  {
    IsEveryDayIffCoversWeek(d1);
    IsEveryDayIffCoversWeek(d2);
  }

  /** A list has at least as many entries as distinct values. */
  lemma {:induction false} ElemsBound(days: seq<int>)
    ensures |Elems(days)| <= |days|
  {
    if days != [] {
      ElemsBound(days[1..]);
      assert Elems(days) == Elems(days[1..]) + {days[0]};
    }
  }

  /** An every-day list has at least seven entries; any shorter list is not every day. */
  lemma IsEveryDayNeedsSevenEntries(days: seq<int>)
    ensures IsEveryDay(Some(days)) ==> |days| >= 7
  {
    if IsEveryDay(Some(days)) {
      IsEveryDayIffCoversWeek(days);
      ElemsBound(days);
      assert |Weekdays| == 7;
      SubsetCardinality(Weekdays, Elems(days));
    }
  }

  lemma SubsetCardinality(a: set<int>, b: set<int>)
    requires a <= b
    ensures |a| <= |b|
  {
    assert b == a + (b - a);
  }
}
