/** Which times are read and which new times are taken, said of their characters alone; and the lengths of stay, with
    their numbers. */
module TimeLaws {
  import opened Basics
  import opened Text
  import opened BookingTime

  /** Hours and minutes as numbers, spaces around them aside; None where they are no such digits or too large. */
  function ClockOf(hours: string, mins: string): Option<nat> {
    var (h, m) := (Trim(hours), Trim(mins));
    if (forall i :: 0 <= i < |h| ==> '0' <= h[i] <= '9') && (forall i :: 0 <= i < |m| ==> '0' <= m[i] <= '9')
    then if NumberOf(h) < 24 && NumberOf(m) < 60 then Some(NumberOf(h) * 60 + NumberOf(m)) else None
    else None
  }

  /** A time without a colon is not read. */
  lemma NoColonNoTime(time: string)
    requires ':' !in time
    ensures ParseTime(time) == None
  {
    NoColon(time);
  }

  /** A time is read from what stands before its first and its second colon. */
  lemma TimeReadExactly(hours: string, mins: string, rest: Option<string>)
    requires ':' !in hours && ':' !in mins
    ensures ParseTime(hours + ":" + mins + match rest case None => "" case Some(r) => ":" + r) == ClockOf(hours, mins)
  {
    var tail := match rest case None => "" case Some(r) => ":" + r;
    ColonSplit(hours, mins + tail);
    assert hours + ":" + mins + tail == hours + ":" + (mins + tail);
    match rest
    case None =>
      assert mins + tail == mins;
      NoColon(mins);
    case Some(r) =>
      ColonSplit(mins, r);
      assert mins + tail == mins + ":" + r;
  }

  /** Two digits that make a number below a bound. */
  predicate TwoDigitsBelow(s: string, bound: nat) {
    |s| == 2 && '0' <= s[0] <= '9' && '0' <= s[1] <= '9'
    && 10 * (s[0] as int - '0' as int) + (s[1] as int - '0' as int) < bound
  }

  /** A new time is taken exactly when, spaces around it aside, it is hours and minutes of the clock, with seconds or
      without; the seconds are set to zero. */
  lemma NewTimeTakenExactly(value: string)
    ensures var t := Trim(value);
            NormalizeTime(value)
            == if (|t| == 5 || (|t| == 8 && t[5] == ':' && TwoDigitsBelow(t[6..8], 60)))
                  && TwoDigitsBelow(t[0..2], 24) && t[2] == ':' && TwoDigitsBelow(t[3..5], 60)
               then Some(t[..5] + ":00") else None
  {
    var t := Trim(value);
    if |t| == 5 || |t| == 8 { ClockExactly(t[..5]); }
    if |t| == 5 { assert t[..5] == t; }
  }

  lemma ClockExactly(s: string)
    requires |s| == 5
    ensures IsClock(s) <==> TwoDigitsBelow(s[0..2], 24) && s[2] == ':' && TwoDigitsBelow(s[3..5], 60)
  {
  }

  // ----- Lengths of stay

  /** Missing, not finite and zero are two hours; the rest is rounded and brought within half an hour and twelve. */
  lemma LengthTakenExactly(length: Length)
    ensures var rounded := if length.Minutes? then (length.value + 0.5).Floor else 0;
            NormalizeDuration(length)
            == if !length.Minutes? || length.value == 0.0 then 120
               else if rounded < 30 then 30 else if rounded > 720 then 720 else rounded
  {
  }

  /** Stored minutes from half an hour on are read by every service, at most twelve hours of them. */
  lemma StoredLengthRead(reader: Reader, stored: int, remarks: Remarks)
    requires stored >= 30
    ensures Duration(reader, Some(stored), remarks) == Some(if stored > 720 then 720 else stored)
  {
  }

  /** Without them the blocks service reads the stated length, and two hours where none is stated. */
  lemma StatedLengthRead(stored: Option<int>, remarks: Remarks)
    requires stored == None || stored.value < 30
    ensures Duration(BlocksReader, stored, remarks)
            == Some(if remarks.stated == None || remarks.stated.value == 0 then 120
                    else if remarks.stated.value < 30 then 30
                    else if remarks.stated.value > 720 then 720 else remarks.stated.value)
  {
    if remarks.stated.Some? { RoundWhole(remarks.stated.value); }
  }

  /** The other two read the bracketed times, two hours where there are none, and throw where they cannot be read; they
      differ on a time bracketed twice. */
  lemma BracketedLengthRead(reader: Reader, stored: Option<int>, remarks: Remarks)
    requires (stored == None || stored.value < 30) && reader != BlocksReader
    ensures Duration(reader, stored, remarks)
            == match remarks.span
               case None => Some(120)
               case Some(None) => None
               case Some(Some(minutes)) =>
                 Some(if minutes == 0 && reader == BookingsReader then 120
                      else if minutes < 30 then 30 else if minutes > 720 then 720 else minutes)
  {
    if remarks.span.Some? && remarks.span.value.Some? { RoundWhole(remarks.span.value.value); }
  }

  /** From one time to another, past midnight if need be. */
  lemma BracketedTimesMean(from: string, to: string)
    ensures SpanMinutes(from, to)
            == if ParseTime(from) == None || ParseTime(to) == None then None
               else Some((ParseTime(to).value as int - ParseTime(from).value as int + 1440) % 1440)
  {
  }

  /** What the system writes into the remarks of a booking. */
  lemma RemarksWritten(start: nat, duration: nat)
    requires start < 1440 && 30 <= duration <= 720
    ensures SystemRemarks(start, duration) == Remarks(Some(Some(duration)), Some(duration))
  {
    SpanReadsBack(start, duration);
  }
}
