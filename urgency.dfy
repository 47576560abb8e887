/** The urgency signal shown by the navigation bar and the status bar: a
    function of how many tasks the fetch returned. */
module Urgency {
  import opened Wrappers

  datatype Level = Normal | Warning | Critical

  /** The urgency of a task count: up to three tasks is normal, four to nine
      is a warning, ten or more is critical. */
  function UrgencyLevel(count: nat): (u: Level)
    ensures u == Normal <==> count <= 3
    ensures u == Warning <==> 4 <= count <= 9
    ensures u == Critical <==> count >= 10
  {
    if count <= 3 then Normal else if count <= 9 then Warning else Critical
  }

  function Rank(u: Level): nat
  {
    match u
    case Normal => 0
    case Warning => 1
    case Critical => 2
  }

  /** More tasks never lower the urgency. */
  lemma UrgencyMonotone(c1: nat, c2: nat)
    requires c1 <= c2
    ensures Rank(UrgencyLevel(c1)) <= Rank(UrgencyLevel(c2))
  {
  }

  /** A colour with alpha 1, given by its red, green and blue components in 255ths. */
  datatype Rgb = Rgb(red: nat, green: nat, blue: nat)

  /** What `updateNavigationBar` leaves on the bar: a bar tint colour (None
      for the system default), and whether the title and the bar button items
      are drawn in white (false for the system default). */
  datatype BarAppearance = BarAppearance(barTint: Option<Rgb>, whiteTitle: bool, whiteTint: bool)

  const ORANGE: Rgb := Rgb(235, 156, 77)
  const RED: Rgb := Rgb(248, 73, 68)

  /** The navigation bar for a task count, switched on the count as the source does. */
  function NavigationBar(count: nat): (r: BarAppearance)
    ensures r.barTint.None? <==> count <= 3
    ensures r.barTint == Some(RED) <==> count >= 10
    ensures r.whiteTitle == r.whiteTint == r.barTint.Some?
  {
    if count <= 3 then BarAppearance(None, false, false)
    else if count <= 9 then BarAppearance(Some(ORANGE), true, true)
    else BarAppearance(Some(RED), true, true)
  }

  /** The navigation bar shows the urgency level and nothing else: two counts
      give the same bar exactly when they have the same urgency, and the bar
      is tinted exactly when the urgency is not normal. */
  lemma NavigationBarShowsUrgency(c1: nat, c2: nat)
    ensures NavigationBar(c1) == NavigationBar(c2) <==> UrgencyLevel(c1) == UrgencyLevel(c2)
    ensures NavigationBar(c1).barTint.Some? <==> UrgencyLevel(c1) != Normal
    ensures NavigationBar(c1).whiteTitle <==> UrgencyLevel(c1) != Normal
  {
  }

  datatype StatusBarStyle = Default | LightContent

  /** The preferred status bar style; `count` is None when there is no
      fetched results controller yet. */
  function PreferredStatusBarStyle(count: Option<nat>): (s: StatusBarStyle)
    ensures s == Default <==> count.None? || count.value <= 3
  {
    match count
    case None => Default
    case Some(c) => if c <= 3 then Default else LightContent
  }

  /** The status bar is light exactly when the urgency is not normal, that
      is, exactly when the navigation bar is tinted and its title is white. */
  lemma StatusBarFollowsUrgency(count: nat)
    ensures PreferredStatusBarStyle(Some(count)) == LightContent <==> UrgencyLevel(count) != Normal
    ensures PreferredStatusBarStyle(Some(count)) == LightContent <==> NavigationBar(count).whiteTitle
  {
  }
}
