/**
 * The urgency colour an order is drawn in, from the time since it was placed
 * and the hour it was placed at. Both web servers and the desktop window use
 * the same thresholds but treat a timestamp that does not parse differently.
 */
module Urgency {
  import opened Wrappers
  import opened Records

  const Red: string := "#c62828"
  const Amber: string := "#f8bb53"
  const LightRed: string := "#f87171"
  const Green: string := "#5bc980"

  /** At least 24 hours old: red; at least 16: amber; otherwise by the hour it was placed. */
  function ColorFor(elapsed: int, hour: int): (c: string)
    ensures c == Red <==> elapsed >= 24 * SecondsPerHour
    ensures c == Amber <==> 16 * SecondsPerHour <= elapsed < 24 * SecondsPerHour
    ensures c == LightRed <==> elapsed < 16 * SecondsPerHour && hour < 12
    ensures c == Green <==> elapsed < 16 * SecondsPerHour && hour >= 12
  {
    if elapsed >= 24 * SecondsPerHour then Red
    else if elapsed >= 16 * SecondsPerHour then Amber
    else if hour < 12 then LightRed
    else Green
  }

  /** How pressing a colour is: red over amber over the two others. */
  function Rank(c: string): nat
  {
    if c == Red then 2 else if c == Amber then 1 else 0
  }

  /** An order never becomes less urgent as it gets older. */
  lemma UrgencyGrowsWithAge(e1: int, e2: int, hour: int)
    requires e1 <= e2
    ensures Rank(ColorFor(e1, hour)) <= Rank(ColorFor(e2, hour))
  {
  }

  /** `_color_for_order` of both servers: an unparsable timestamp gives green. */
  function ServerColor(datetime: Option<int>, now: int): (c: string)
    ensures datetime.None? ==> c == Green
    ensures datetime.Some? ==> c == ColorFor(now - datetime.value, HourOfDay(datetime.value))
  {
    match datetime
    case None => Green
    case Some(t) => ColorFor(now - t, HourOfDay(t))
  }

  /** The desktop window's colour: an unparsable timestamp counts as 0 hours at hour 0. */
  function CardColor(datetime: Option<int>, now: int): (c: string)
    ensures datetime.None? ==> c == LightRed
    ensures datetime.Some? ==> c == ColorFor(now - datetime.value, HourOfDay(datetime.value))
  {
    match datetime
    case None => ColorFor(0, 0)
    case Some(t) => ColorFor(now - t, HourOfDay(t))
  }

  /** The front ends agree on every parsed timestamp and disagree on every unparsable one. */
  lemma ColorVariants(datetime: Option<int>, now: int)
    ensures datetime.Some? <==> ServerColor(datetime, now) == CardColor(datetime, now)
  {
  }
}
