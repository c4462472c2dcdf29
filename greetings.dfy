/**
 * `generateGreeting`: "Good <part of day>, <name>! Current time: <timestamp>".
 * The local hour and the instant of the second clock read are parameters.
 */
module Greetings {
  import opened Wrappers
  import opened Timestamps

  /** The part of the day for a local hour; the initial "day" is overwritten on every branch. */
  function TimeOfDay(hour: int): (r: string)
    ensures r == "morning" <==> hour < 12
    ensures r == "afternoon" <==> 12 <= hour < 18
    ensures r == "evening" <==> 18 <= hour
    ensures r != "day"
  {
    if hour < 12 then "morning"
    else if hour < 18 then "afternoon"
    else "evening"
  }

  const TimeLabel: string := "! Current time: "

  /**
   * `generateGreeting(name)`: "Good ", the part of the day, ", ", the name
   * unchanged, "! Current time: " and the 23-character formatted timestamp,
   * in that order.
   */
  function GenerateGreeting(name: string, hour: int, now: DateTime): (g: string)
    requires Valid(now)
    ensures var b := TimeOfDay(hour);
      && |g| == 46 + |b| + |name|
      && g[..5] == "Good "
      && g[5..5 + |b|] == b
      && g[5 + |b|..7 + |b|] == ", "
      && g[7 + |b|..7 + |b| + |name|] == name
      && g[7 + |b| + |name|..|g| - 23] == TimeLabel
      && g[|g| - 23..] == FormatTimestamp(now)
  {
    Pieces("Good ", TimeOfDay(hour), ", ", name, TimeLabel, FormatTimestamp(now));
    "Good " + TimeOfDay(hour) + ", " + name + TimeLabel + FormatTimestamp(now)
  }

  lemma Pieces(p: string, b: string, c: string, n: string, l: string, t: string)
    ensures var g := p + b + c + n + l + t;
      && var i1, i2, i3, i4 := |p|, |p| + |b|, |p| + |b| + |c|, |p| + |b| + |c| + |n|;
      && |g| == i4 + |l| + |t|
      && g[..i1] == p && g[i1..i2] == b && g[i2..i3] == c && g[i3..i4] == n
      && g[i4..|g| - |t|] == l && g[|g| - |t|..] == t
  {
  }

  /** Name and instant can be read back from a greeting: the name exactly, the instant to the second. */
  lemma GreetingRecoversNameAndTime(name: string, hour: int, now: DateTime)
    requires Valid(now)
    ensures var g, b := GenerateGreeting(name, hour, now), TimeOfDay(hour);
      && |g| == 46 + |b| + |name|
      && g[7 + |b|..|g| - 39] == name
      && ParseFormatted(g[|g| - 23..]) == Some(now.(millisecond := 0))
  {
    FormatThenParse(now);
  }
}
