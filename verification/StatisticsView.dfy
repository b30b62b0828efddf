/**
 * The statistics cards: the two session and task counters shown as they
 * are, and the focus time shown as hours and minutes. The cards are a
 * function of the statistics, so showing them never changes the store.
 */
module StatisticsView {
  import opened Types
  import opened JsNumber

  /** The hours shown: `Math.round(totalWorkMinutes / 60)`, the nearest whole hour, halves up. */
  function FocusHours(total: int): (h: int)
    ensures 120 * h - 60 <= 2 * total < 120 * h + 60
  {
    RoundDiv60(total)
  }

  /** The minutes shown: `totalWorkMinutes % 60`. */
  function FocusMinutes(total: int): (m: int)
    ensures total >= 0 ==> 0 <= m < 60
    ensures (total - m) % 60 == 0
  {
    JsRem60(total)
  }

  datatype Cards = Cards(tasksCompleted: int, pomodorosCompleted: int, hours: int, minutes: int)

  /** What the three cards show. */
  function Shown(st: Statistics): (c: Cards)
    ensures c.tasksCompleted == st.tasksCompleted && c.pomodorosCompleted == st.pomodorosCompleted
    ensures c.hours == FocusHours(st.totalWorkMinutes) && c.minutes == FocusMinutes(st.totalWorkMinutes)
    ensures st.totalWorkMinutes >= 0 ==> 0 <= c.minutes < 60 && c.hours >= 0
  {
    Cards(st.tasksCompleted, st.pomodorosCompleted, FocusHours(st.totalWorkMinutes), FocusMinutes(st.totalWorkMinutes))
  }

  /**
   * Hours and minutes add back up to the total only when less than half an
   * hour is left over; from half an hour on, the hours are rounded up while
   * the minutes are still shown, and the display reads an hour too much.
   */
  lemma {:induction false} FocusTimeAsShown(total: int)
    requires total >= 0
    ensures total % 60 < 30 <==> FocusHours(total) * 60 + FocusMinutes(total) == total
    ensures total % 60 >= 30 <==> FocusHours(total) * 60 + FocusMinutes(total) == total + 60
  {
    var q, r := total / 60, total % 60;
    assert total == 60 * q + r;
    assert FocusMinutes(total) == r;
    if r < 30 {
      assert FocusHours(total) == q;
    } else {
      assert FocusHours(total) == q + 1;
    }
  }

  /** Ninety minutes are shown as "2h 30m". */
  lemma NinetyMinutesShownAsTwoAndAHalfHours()
    ensures FocusHours(90) == 2 && FocusMinutes(90) == 30
  {
  }

  /** The hours the display evidently means: whole hours, `Math.floor(totalWorkMinutes / 60)`. */
  function WholeFocusHours(total: int): (h: int)
    ensures 60 * h <= total < 60 * h + 60
  {
    FloorDiv(total, 60)
  }

  /** With whole hours, hours and minutes always add up to the total. */
  lemma WholeHoursAddUp(total: int)
    requires total >= 0
    ensures WholeFocusHours(total) * 60 + FocusMinutes(total) == total
    ensures 0 <= FocusMinutes(total) < 60
  {
    assert total == 60 * (total / 60) + total % 60;
  }
}
