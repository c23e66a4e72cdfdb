/** The time labels of the conversations sidebar: how long a match has left
    before it expires two days after it was made, and how long ago the last
    message arrived. Times are milliseconds since the epoch; `now` is the
    clock reading. */
module Sidebar {
  import opened Wrappers
  import Text

  const HourMs := 60 * 60 * 1000
  const TwoDaysMs := 2 * 24 * HourMs

  /** Whole hours round down: `diff` lies within the hour that
      `diff / HourMs` counts, and so does `hours` within its day. */
  lemma HourBounds(diff: int)
    ensures HourMs == 3600000
    ensures (diff / HourMs) * 3600000 <= diff < (diff / HourMs) * 3600000 + 3600000
    ensures (diff / HourMs / 24) * 24 <= diff / HourMs < (diff / HourMs / 24) * 24 + 24
  {
  }

  /** Milliseconds until the match made at `matchedAt` expires. */
  function Remaining(matchedAt: int, now: int): int {
    matchedAt + TwoDaysMs - now
  }

  /** `getTimeRemaining`: "Expired", "{d}d {h}h left" or "{h}h left", with
      whole hours rounded down. */
  function TimeRemaining(matchedAt: int, now: int): (shown: string)
    ensures Remaining(matchedAt, now) <= 0 ==> shown == "Expired"
    ensures Remaining(matchedAt, now) > 0 ==>
      var hours := Remaining(matchedAt, now) / HourMs;
      shown == if hours / 24 > 0 then Text.NatToString(hours / 24) + ("d " + (Text.NatToString(hours % 24) + "h left"))
               else Text.NatToString(hours) + "h left"
  {
    var remaining := Remaining(matchedAt, now);
    if remaining <= 0 then "Expired"
    else
      var hours := remaining / HourMs;
      var days := hours / 24;
      HourBounds(remaining);
      if days > 0 then Text.IntToString(days) + ("d " + (Text.IntToString(hours % 24) + "h left"))
      else Text.IntToString(hours) + "h left"
  }

  /** A match is shown as expired exactly when no time is left. */
  lemma ExpiredIffNoTimeLeft(matchedAt: int, now: int)
    ensures TimeRemaining(matchedAt, now) == "Expired" <==> Remaining(matchedAt, now) <= 0
  {
    var shown := TimeRemaining(matchedAt, now);
    if Remaining(matchedAt, now) > 0 {
      assert shown[|shown| - 1] == 't';
    }
  }

  /** The days and hours shown add up to the whole hours left, which are
      within an hour of the exact time left; and a running match never shows
      more than two days. */
  lemma RemainingDecomposes(matchedAt: int, now: int)
    requires Remaining(matchedAt, now) > 0
    ensures var hours := Remaining(matchedAt, now) / HourMs;
      hours * HourMs <= Remaining(matchedAt, now) < (hours + 1) * HourMs &&
      (hours / 24) * 24 + hours % 24 == hours && 0 <= hours % 24 < 24
    ensures now >= matchedAt ==> Remaining(matchedAt, now) / HourMs / 24 <= 2
  {
  }

  /** The number a label starts with is the number of days (or of hours,
      under a day): `parseInt` reads it back. */
  lemma TimeRemainingReadsBack(matchedAt: int, now: int)
    requires Remaining(matchedAt, now) > 0
    ensures var hours := Remaining(matchedAt, now) / HourMs;
      Text.ParseInt(TimeRemaining(matchedAt, now)) == Some(if hours / 24 > 0 then hours / 24 else hours)
  {
    var hours := Remaining(matchedAt, now) / HourMs;
    var days := hours / 24;
    if days > 0 {
      Text.ParseIntOfNumeralPrefix(days, "d " + (Text.NatToString(hours % 24) + "h left"));
    } else {
      Text.ParseIntOfNumeralPrefix(hours, "h left");
    }
  }

  /** `formatTime`: "Just now" under an hour (and for times in the future),
      "{h}h ago" under a day, "Yesterday" for the second day, "{d}d ago"
      after that. */
  function FormatTime(date: int, now: int): (shown: string)
    ensures now - date < HourMs ==> shown == "Just now"
    ensures HourMs <= now - date < 24 * HourMs ==> shown == Text.NatToString((now - date) / HourMs) + "h ago"
    ensures 24 * HourMs <= now - date < 48 * HourMs ==> shown == "Yesterday"
    ensures now - date >= 48 * HourMs ==> shown == Text.NatToString((now - date) / HourMs / 24) + "d ago"
  {
    var diff := now - date;
    var hours := diff / HourMs;
    HourBounds(diff);
    if hours < 1 then "Just now"
    else if hours < 24 then Text.IntToString(hours) + "h ago"
    else
      var days := hours / 24;
      if days == 1 then "Yesterday" else Text.IntToString(days) + "d ago"
  }

  /** "Yesterday" means between one and two days ago, and nothing else. */
  lemma YesterdayIffSecondDay(date: int, now: int)
    ensures FormatTime(date, now) == "Yesterday" <==> 24 * HourMs <= now - date < 48 * HourMs
  {
    var shown := FormatTime(date, now);
    if now - date >= HourMs && !(24 * HourMs <= now - date < 48 * HourMs) {
      assert shown[|shown| - 1] == 'o';
    }
  }

  /** "Just now" means less than an hour ago, or a time in the future. */
  lemma JustNowIffUnderAnHour(date: int, now: int)
    ensures FormatTime(date, now) == "Just now" <==> now - date < HourMs
  {
    var shown := FormatTime(date, now);
    if HourMs <= now - date < 24 * HourMs || now - date >= 48 * HourMs {
      assert shown[|shown| - 1] == 'o';
    }
  }
}
