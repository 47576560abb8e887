/** The three due-date sections of the task list: which section a task
    belongs to, given the whole number of days from now until it is due, and
    the header title of each section. */
module Buckets {
  import opened Wrappers
  import opened SwiftInt

  /** The number of sections the list always has. */
  const SECTION_COUNT: nat := 3

  /** The section a task belongs to: 0 (Now) when it is due in at most two
      days, including every overdue task; 1 (Soon) when it is due in three to
      five days; 2 (Upcoming) when it is due later, or when the calendar could
      not compute a day count. */
  function SectionIndex(days: Option<int>): (r: nat)
    ensures r < SECTION_COUNT
    ensures days.None? ==> r == 2
    ensures days.Some? ==> (r == 0 <==> days.value <= 2)
    ensures days.Some? ==> (r == 1 <==> 3 <= days.value <= 5)
    ensures days.Some? ==> (r == 2 <==> days.value > 5)
  {
    match days
    case None => 2
    case Some(d) => if d <= 2 then 0 else if d <= 5 then 1 else 2
  }

  /** A task due later never lands in an earlier section. */
  lemma SectionIndexMonotone(d1: int, d2: int)
    requires d1 <= d2
    ensures SectionIndex(Some(d1)) <= SectionIndex(Some(d2))
  {
  }

  /** The section index exactly as the switch is written over 64-bit Int:
      its first case is `-Int.max ... 2`, which leaves out `Int.min`, so that
      value falls to the default case, Upcoming. */
  function SectionIndexAsWritten(days: Option<Int64>): (r: nat)
    ensures r < SECTION_COUNT
    ensures days.None? ==> r == 2
    ensures days.Some? ==> (r == 0 <==> -INT_MAX <= days.value <= 2)
    ensures days.Some? ==> (r == 1 <==> 3 <= days.value <= 5)
  {
    match days
    case None => 2
    case Some(d) =>
      if -INT_MAX <= d <= 2 then 0
      else if 3 <= d <= 5 then 1
      else 2
  }

  /** On every Int but `Int.min` the switch as written agrees with `SectionIndex`. */
  lemma SectionIndexAsWrittenAgrees(days: Option<Int64>)
    requires days != Some(INT_MIN)
    ensures SectionIndexAsWritten(days) == SectionIndex(if days.Some? then Some(days.value as int) else None)
  {
  }

  /** A day count of `Int.min` lies far in the past, yet the switch as written
      files it under Upcoming rather than Now. */
  lemma SectionIndexAsWrittenAtIntMin()
    ensures SectionIndexAsWritten(Some(INT_MIN)) == 2
    ensures SectionIndex(Some(INT_MIN)) == 0
  {
  }

  /** The header title of a section, or None for any other index, where the
      table view's data source stops with a fatal error. */
  function SectionTitle(section: int): (r: Option<string>)
    ensures r.Some? <==> 0 <= section < SECTION_COUNT
  {
    if section == 0 then Some("Now")
    else if section == 1 then Some("Soon")
    else if section == 2 then Some("Upcoming")
    else None
  }

  /** The section a header title belongs to. */
  function TitleSection(title: string): Option<nat>
  {
    if title == "Now" then Some(0)
    else if title == "Soon" then Some(1)
    else if title == "Upcoming" then Some(2)
    else None
  }

  /** Titles and sections correspond one to one: every section's title leads
      back to that section, and every title that leads to a section is its title. */
  lemma SectionTitleRoundTrip(section: int, title: string)
    ensures SectionTitle(section) == Some(title) <==> (TitleSection(title) == Some(section) && 0 <= section)
  {
    assert "Now" != "Soon" && "Now" != "Upcoming" && "Soon" != "Upcoming" by {
      assert "Now"[0] != "Soon"[0] && "Now"[0] != "Upcoming"[0] && "Soon"[0] != "Upcoming"[0];
    }
  }

  /** The section every task is put in has a title. */
  lemma EverySectionIndexHasTitle(days: Option<int>)
    ensures SectionTitle(SectionIndex(days)).Some?
  {
  }
}
