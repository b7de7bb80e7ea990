/** How bookings write down a time and a length of stay, and how each service reads them back. */
module BookingTime {
  import opened Basics
  import opened Text

  const DEFAULT_DURATION: nat := 120
  const CLEANUP: nat := 15
  const DAY: nat := 1440

  // ----- Clock times

  function UpToColon(s: string): string {
    if s == [] || s[0] == ':' then [] else [s[0]] + UpToColon(s[1..])
  }

  function AfterColon(s: string): Option<string> {
    if s == [] then None else if s[0] == ':' then Some(s[1..]) else AfterColon(s[1..])
  }

  /** Hours and minutes before the first and second colon; seconds are ignored, and so is surrounding space. */
  function ParseTime(time: string): (minutes: Option<nat>)
    ensures minutes.Some? ==> minutes.value < DAY
  {
    match AfterColon(time)
    case None => None
    case Some(rest) =>
      var hours, mins := Trim(UpToColon(time)), Trim(UpToColon(rest));
      if Digits(hours) && Digits(mins) && NumberOf(hours) <= 23 && NumberOf(mins) <= 59
      then Some(60 * NumberOf(hours) + NumberOf(mins))
      else None
  }

  function TimeLabel(minutes: nat): string {
    TwoDigits(minutes % DAY / 60) + ":" + TwoDigits(minutes % DAY % 60)
  }

  function FormatTime(minutes: nat): string { TimeLabel(minutes) + ":00" }

  lemma {:induction false} ColonSplit(before: string, after: string)
    requires ':' !in before
    ensures UpToColon(before + ":" + after) == before && AfterColon(before + ":" + after) == Some(after)
  {
    if before == [] {
      assert before + ":" + after == [':'] + after;
    } else {
      ColonSplit(before[1..], after);
      assert (before + ":" + after)[1..] == before[1..] + ":" + after;
    }
  }

  lemma {:induction false} NoColon(s: string)
    requires ':' !in s
    ensures UpToColon(s) == s && AfterColon(s) == None
  {
    if s != [] { NoColon(s[1..]); }
  }

  lemma TrimDigits(s: string)
    requires Digits(s)
    ensures Trim(s) == s
  {
  }

  lemma ClockReadsBack(hours: nat, mins: nat, tail: string)
    requires hours <= 23 && mins <= 59 && (tail == "" || tail == ":00")
    ensures ParseTime(TwoDigits(hours) + ":" + TwoDigits(mins) + tail) == Some(60 * hours + mins)
  {
    var h, m := TwoDigits(hours), TwoDigits(mins);
    ColonSplit(h, m + tail);
    assert h + ":" + m + tail == h + ":" + (m + tail);
    if tail == "" {
      assert m + tail == m;
      NoColon(m);
    } else {
      ColonSplit(m, "00");
      assert m + tail == m + ":" + "00";
    }
    TrimDigits(h);
    TrimDigits(m);
    TwoDigitsReadBack(hours);
    TwoDigitsReadBack(mins);
  }

  /** A stored time reads back as the minutes it was written from, within the day. */
  lemma StoredTimeReadsBack(minutes: nat)
    ensures ParseTime(FormatTime(minutes)) == Some(minutes % DAY)
  {
    ClockReadsBack(minutes % DAY / 60, minutes % DAY % 60, ":00");
  }

  /** So does the label shown to guests. */
  lemma TimeLabelReadsBack(minutes: nat)
    ensures ParseTime(TimeLabel(minutes)) == Some(minutes % DAY)
  {
    ClockReadsBack(minutes % DAY / 60, minutes % DAY % 60, "");
    assert TimeLabel(minutes) + "" == TimeLabel(minutes);
  }

  /** A time that was accepted is stored as the same minutes of the day. */
  lemma AcceptedTimeIsStored(time: string, minutes: nat)
    requires ParseTime(time) == Some(minutes)
    ensures ParseTime(FormatTime(minutes)) == Some(minutes)
  {
    assert minutes < DAY;
    SameDay(minutes);
    StoredTimeReadsBack(minutes);
  }

  lemma SameDay(minutes: nat)
    requires minutes < DAY
    ensures minutes % DAY == minutes
  {
  }

  lemma {:induction false} SplitStays(s: string, tail: string)
    requires AfterColon(s).Some?
    ensures UpToColon(s + tail) == UpToColon(s) && AfterColon(s + tail) == Some(AfterColon(s).value + tail)
  {
    assert (s + tail)[1..] == s[1..] + tail;
    if s[0] != ':' { SplitStays(s[1..], tail); }
  }

  lemma {:induction false} SplitAppears(s: string, tail: string)
    requires AfterColon(s).None?
    ensures UpToColon(s + ":" + tail) == UpToColon(s) && AfterColon(s + ":" + tail) == Some(tail)
  {
    if s == [] {
      assert s + ":" + tail == [':'] + tail;
    } else {
      SplitAppears(s[1..], tail);
      assert (s + ":" + tail)[1..] == s[1..] + ":" + tail;
    }
  }

  /** Adding seconds to a block's bounds does not move them. */
  lemma SecondsDoNotMoveTime(time: string)
    requires ParseTime(time).Some?
    ensures ParseTime(time + ":00") == ParseTime(time)
  {
    SplitStays(time, ":00");
    var rest := AfterColon(time).value;
    if AfterColon(rest).Some? {
      SplitStays(rest, ":00");
    } else {
      SplitAppears(rest, "00");
      assert rest + ":00" == rest + ":" + "00";
    }
  }

  predicate IsClock(s: string) {
    && |s| == 5 && IsDigit(s[0]) && IsDigit(s[1]) && s[2] == ':' && IsDigit(s[3]) && IsDigit(s[4])
    && (s[0] in "01" || (s[0] == '2' && s[1] <= '3')) && s[3] <= '5'
  }

  /** A requested time must be HH:MM or HH:MM:SS on the clock; the seconds are dropped. */
  function NormalizeTime(value: string): (time: Option<string>) {
    var t := Trim(value);
    if |t| == 5 && IsClock(t) then Some(t + ":00")
    else if |t| == 8 && IsClock(t[..5]) && t[5] == ':' && IsDigit(t[6]) && t[6] <= '5' && IsDigit(t[7])
      then Some(t[..5] + ":00")
    else None
  }

  lemma ClockDigits(s: string) returns (hours: nat, mins: nat)
    requires IsClock(s)
    ensures hours <= 23 && mins <= 59 && s == TwoDigits(hours) + ":" + TwoDigits(mins)
  {
    hours := 10 * (s[0] - '0') as nat + (s[1] - '0') as nat;
    mins := 10 * (s[3] - '0') as nat + (s[4] - '0') as nat;
  }

  /** A normalized time is always readable, and is stored the way a new booking's time is. */
  lemma NormalizedTimeIsCanonical(value: string)
    requires NormalizeTime(value).Some?
    ensures ParseTime(NormalizeTime(value).value).Some?
    ensures FormatTime(ParseTime(NormalizeTime(value).value).value) == NormalizeTime(value).value
  {
    var s := Trim(value)[..5];
    assert |Trim(value)| == 5 ==> s == Trim(value);
    assert NormalizeTime(value) == Some(s + ":00");
    var hours, mins := ClockDigits(s);
    ClockReadsBack(hours, mins, ":00");
    FormatOfClock(hours, mins);
  }

  lemma FormatOfClock(hours: nat, mins: nat)
    requires hours <= 23 && mins <= 59
    ensures FormatTime(60 * hours + mins) == TwoDigits(hours) + ":" + TwoDigits(mins) + ":00"
  {
    assert (60 * hours + mins) % DAY / 60 == hours && (60 * hours + mins) % DAY % 60 == mins;
  }

  // ----- Lengths of stay

  /** A requested length as a number that may be missing or not finite. */
  datatype Length = Missing | NotFinite | Minutes(value: real)

  function Round(x: real): int { (x + 0.5).Floor }

  function Clamp(minutes: int): (clamped: nat)
    ensures 30 <= clamped <= 720
    ensures 30 <= minutes <= 720 ==> clamped == minutes
  {
    if minutes < 30 then 30 else if minutes > 720 then 720 else minutes
  }

  /** Zero counts as missing: the default applies to it, not the lower bound. */
  function NormalizeDuration(length: Length): (minutes: nat)
    ensures 30 <= minutes <= 720
    ensures length == Missing || length == NotFinite || length == Minutes(0.0) ==> minutes == DEFAULT_DURATION
    ensures length.Minutes? && 30.0 <= length.value <= 720.0 ==>
              length.value - 0.5 < minutes as real <= length.value + 0.5
    ensures length.Minutes? && length.value != 0.0 && length.value < 30.0 ==> minutes == 30
    ensures length.Minutes? && length.value > 720.0 ==> minutes == 720
  {
    match length
    case Missing => DEFAULT_DURATION
    case NotFinite => DEFAULT_DURATION
    case Minutes(value) => if value == 0.0 then DEFAULT_DURATION else Clamp(Round(value))
  }

  function Whole(minutes: int): Length { Minutes(minutes as real) }

  /** From the first time to the second, past midnight if need be. */
  function Between(from: nat, to: nat): nat
    requires from < DAY
  {
    if to >= from then to - from else to + DAY - from
  }

  function SpanMinutes(from: string, to: string): Option<nat> {
    match (ParseTime(from), ParseTime(to))
    case (Some(a), Some(b)) => Some(Between(a, b))
    case _ => None
  }

  /** What the two patterns find in a booking's remarks: the minutes between a bracketed pair of times,
      None within where a reader would throw on them, and a stated length. */
  datatype Remarks = Remarks(span: Option<Option<nat>>, stated: Option<nat>)

  /** Three services read a length of stay. All use the stored minutes; they differ on old rows without them. */
  datatype Reader = BookingsReader | BlocksReader | RequestsReader

  /** None where the reader would throw. */
  function Duration(reader: Reader, stored: Option<int>, remarks: Remarks): (minutes: Option<nat>)
    ensures minutes.Some? ==> 30 <= minutes.value <= 720
  {
    if stored.Some? && stored.value >= 30 then Some(Clamp(stored.value))
    else
      match reader
      case BlocksReader =>
        Some(if remarks.stated.Some? then NormalizeDuration(Whole(remarks.stated.value)) else DEFAULT_DURATION)
      case _ =>
        if remarks.span.None? then Some(DEFAULT_DURATION)
        else
          match remarks.span.value
          case None => None
          case Some(minutes) =>
            Some(if reader.RequestsReader? then Clamp(minutes) else NormalizeDuration(Whole(minutes)))
  }

  /** The remarks every new booking starts with. */
  function SystemRemarks(start: nat, duration: nat): Remarks {
    Remarks(Some(SpanMinutes(TimeLabel(start), TimeLabel(start + duration))), Some(duration))
  }

  lemma RoundWhole(minutes: int)
    ensures Round(minutes as real) == minutes
  {
  }

  /** A stored length normalizes to itself. */
  lemma StoredLength(minutes: int)
    requires 30 <= minutes <= 720
    ensures NormalizeDuration(Whole(minutes)) == minutes
  {
  }

  /** The text alone keeps the length: were the stored minutes lost, every reader would still find them. */
  lemma RemarksKeepDuration(reader: Reader, start: nat, duration: nat, stored: Option<int>)
    requires start < DAY && 30 <= duration <= 720
    requires stored.None? || stored.value < 30 || stored.value == duration
    ensures Duration(reader, stored, SystemRemarks(start, duration)) == Some(duration)
  {
    SpanReadsBack(start, duration);
    RoundWhole(duration);
  }

  lemma SpanReadsBack(start: nat, duration: nat)
    requires start < DAY && 0 < duration < DAY
    ensures SpanMinutes(TimeLabel(start), TimeLabel(start + duration)) == Some(duration)
  {
    SameDay(start);
    TimeLabelReadsBack(start);
    TimeLabelReadsBack(start + duration);
    Wraps(start, duration);
  }

  lemma Wraps(start: nat, duration: nat)
    requires start < DAY && 0 < duration < DAY
    ensures Between(start, (start + duration) % DAY) == duration
  {
  }

  /** A row without usable stored minutes, as the oldest ones are. */
  predicate Unstored(stored: Option<int>) { stored.None? || stored.value < 30 }

  /** On any row the services for bookings and for requests agree, unless the remarks give one time twice. */
  lemma ReadersAgree(stored: Option<int>, remarks: Remarks)
    ensures Duration(BookingsReader, stored, remarks) == Duration(RequestsReader, stored, remarks)
            <==> !(Unstored(stored) && remarks.span == Some(Some(0)))
  {
  }

  /** The minutes a number found in the remarks is taken for; none, or zero, means the default. */
  function Told(minutes: Option<nat>): nat {
    if minutes.None? || minutes.value == 0 then DEFAULT_DURATION else Clamp(minutes.value)
  }

  /** The blocks service reads the stated length instead of the bracketed times. It agrees with the bookings
      service unless the minutes are missing and the two say different things, or the times cannot be read. */
  lemma BlocksReaderAgrees(stored: Option<int>, remarks: Remarks)
    ensures Duration(BookingsReader, stored, remarks) == Duration(BlocksReader, stored, remarks)
            <==> || !Unstored(stored)
                 || (remarks.span != Some(None)
                     && Told(if remarks.span.Some? then remarks.span.value else None) == Told(remarks.stated))
  {
    if remarks.span.Some? && remarks.span.value.Some? { RoundWhole(remarks.span.value.value); }
    if remarks.stated.Some? { RoundWhole(remarks.stated.value); }
  }

  // ----- Slots

  /** Half-open intervals of minutes that share a minute. */
  predicate Overlap(start: int, until: int, otherStart: int, otherUntil: int) {
    start < otherUntil && until > otherStart
  }
}
