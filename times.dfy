/**
 * Clock times and time slots as the booking engine handles them. Times are the
 * text the booking form sends ("HH:MM") and every comparison on them is
 * Python's string comparison; a slot is stored as "start-end".
 */
module Times {
  import opened Basics

  // ---------------------------------------------------------------------------
  // Python's ordering on str
  // ---------------------------------------------------------------------------

  /** Python's `a < b` on str: lexicographic by code point, a proper prefix being smaller. */
  predicate Less(a: string, b: string)
    decreases |a|
  {
    if |a| == 0 then |b| > 0
    else if |b| == 0 then false
    else if a[0] != b[0] then a[0] < b[0]
    else Less(a[1..], b[1..])
  }

  /** Python's `a <= b` on str. */
  predicate AtMost(a: string, b: string)
  {
    Less(a, b) || a == b
  }

  lemma {:induction false} LessIrreflexive(a: string)
    ensures !Less(a, a)
    decreases |a|
  {
    if |a| > 0 {
      LessIrreflexive(a[1..]);
    }
  }

  lemma {:induction false} LessAsymmetric(a: string, b: string)
    ensures Less(a, b) ==> !Less(b, a)
    decreases |a|
  {
    if |a| > 0 && |b| > 0 && a[0] == b[0] {
      LessAsymmetric(a[1..], b[1..]);
    }
  }

  lemma {:induction false} LessTransitive(a: string, b: string, c: string)
    requires Less(a, b) && Less(b, c)
    ensures Less(a, c)
    decreases |a|
  {
    if |a| > 0 && a[0] == b[0] && b[0] == c[0] {
      LessTransitive(a[1..], b[1..], c[1..]);
    }
  }

  /** Any two different strings are ordered one way or the other. */
  lemma {:induction false} LessTotal(a: string, b: string)
    requires a != b
    ensures Less(a, b) || Less(b, a)
    decreases |a|
  {
    if |a| > 0 && |b| > 0 && a[0] == b[0] {
      assert a == [a[0]] + a[1..] && b == [b[0]] + b[1..];
      LessTotal(a[1..], b[1..]);
    }
  }

  /** `a <= b` is exactly "not b < a", which is how the window check reads. */
  lemma AtMostIsNotGreater(a: string, b: string)
    ensures AtMost(a, b) <==> !Less(b, a)
  {
    LessIrreflexive(a);
    LessAsymmetric(a, b);
    if a != b {
      LessTotal(a, b);
    }
  }

  // ---------------------------------------------------------------------------
  // Well-formed "HH:MM" clock times
  // ---------------------------------------------------------------------------

  predicate IsDigit(c: char)
  {
    '0' <= c <= '9'
  }

  function DigitValue(c: char): (d: nat)
    requires IsDigit(c)
    ensures d < 10
  {
    c as int - '0' as int
  }

  /** A zero-padded 24-hour "HH:MM" time, as a browser's time input sends it. */
  predicate WellFormedClock(t: string)
  {
    && |t| == 5
    && IsDigit(t[0]) && IsDigit(t[1]) && t[2] == ':' && IsDigit(t[3]) && IsDigit(t[4])
    && 10 * DigitValue(t[0]) + DigitValue(t[1]) < 24
    && DigitValue(t[3]) < 6
  }

  /** Minutes since midnight of a well-formed time. */
  function Minutes(t: string): (m: nat)
    requires WellFormedClock(t)
    ensures m < 24 * 60
  {
    (10 * DigitValue(t[0]) + DigitValue(t[1])) * 60 + 10 * DigitValue(t[3]) + DigitValue(t[4])
  }

  /** On well-formed times, comparing the text agrees with comparing the minutes. */
  lemma ClockOrderAgrees(a: string, b: string)
    requires WellFormedClock(a) && WellFormedClock(b)
    ensures Less(a, b) <==> Minutes(a) < Minutes(b)
  {
    var a0, a1, a3, a4 := DigitValue(a[0]), DigitValue(a[1]), DigitValue(a[3]), DigitValue(a[4]);
    var b0, b1, b3, b4 := DigitValue(b[0]), DigitValue(b[1]), DigitValue(b[3]), DigitValue(b[4]);
    assert Minutes(a) == 600 * a0 + 60 * a1 + 10 * a3 + a4;
    assert Minutes(b) == 600 * b0 + 60 * b1 + 10 * b3 + b4;
    if a[0] != b[0] {
      assert Less(a, b) <==> a0 < b0;
    } else if a[1] != b[1] {
      assert Less(a, b) == Less(a[1..], b[1..]);
      assert Less(a, b) <==> a1 < b1;
    } else if a[3] != b[3] {
      assert Less(a, b) == Less(a[1..], b[1..]) == Less(a[2..], b[2..]);
      assert a[2..][0] == b[2..][0];
      assert a[2..][1..] == a[3..] && b[2..][1..] == b[3..];
      assert Less(a[2..], b[2..]) == Less(a[3..], b[3..]);
      assert Less(a, b) <==> a3 < b3;
    } else {
      assert Less(a, b) == Less(a[1..], b[1..]) == Less(a[2..], b[2..]);
      assert a[2..][0] == b[2..][0];
      assert a[2..][1..] == a[3..] && b[2..][1..] == b[3..];
      assert Less(a[2..], b[2..]) == Less(a[3..], b[3..]);
      assert a[3..][1..] == a[4..] && b[3..][1..] == b[4..];
      assert Less(a[3..], b[3..]) == Less(a[4..], b[4..]);
      if a[4] == b[4] {
        assert a[4..][1..] == [] && b[4..][1..] == [];
      }
      assert Less(a, b) <==> a4 < b4;
    }
  }

  // ---------------------------------------------------------------------------
  // Overlap of half-open slots
  // ---------------------------------------------------------------------------

  /** `times_overlap`: the half-open slots [aStart, aEnd) and [bStart, bEnd) intersect. */
  predicate Overlaps(aStart: string, aEnd: string, bStart: string, bEnd: string)
  {
    Less(aStart, bEnd) && Less(bStart, aEnd)
  }

  lemma OverlapsSymmetric(aStart: string, aEnd: string, bStart: string, bEnd: string)
    ensures Overlaps(aStart, aEnd, bStart, bEnd) == Overlaps(bStart, bEnd, aStart, aEnd)
  {
  }

  /** Slots that only touch at a boundary never overlap: [a, b) and [b, c). */
  lemma AdjacentSlotsDoNotOverlap(a: string, b: string, c: string)
    ensures !Overlaps(a, b, b, c)
    ensures !Overlaps(b, c, a, b)
  {
    LessIrreflexive(b);
  }

  /** A non-empty slot always overlaps itself. */
  lemma NonEmptySlotOverlapsItself(start: string, end: string)
    requires Less(start, end)
    ensures Overlaps(start, end, start, end)
  {
  }

  /** On well-formed times the text test is the usual interval test on minutes. */
  lemma OverlapsAsMinutes(aStart: string, aEnd: string, bStart: string, bEnd: string)
    requires WellFormedClock(aStart) && WellFormedClock(aEnd)
    requires WellFormedClock(bStart) && WellFormedClock(bEnd)
    ensures Overlaps(aStart, aEnd, bStart, bEnd)
            <==> Minutes(aStart) < Minutes(bEnd) && Minutes(bStart) < Minutes(aEnd)
  {
    ClockOrderAgrees(aStart, bEnd);
    ClockOrderAgrees(bStart, aEnd);
  }

  // ---------------------------------------------------------------------------
  // The operating window
  // ---------------------------------------------------------------------------

  const Opening: string := "09:00"
  const Closing: string := "17:00"

  datatype WindowVerdict = InWindow | EndNotAfterStart | OutsideOperatingHours

  /** The two checks a booking request passes before any conflict is looked at. */
  function CheckWindow(start: string, end: string): WindowVerdict
  {
    if AtMost(end, start) then EndNotAfterStart
    else if Less(start, Opening) || Less(Closing, end) then OutsideOperatingHours
    else InWindow
  }

  /** A slot is accepted exactly when it is non-empty and lies within 09:00 to 17:00. */
  lemma CheckWindowAccepts(start: string, end: string)
    ensures CheckWindow(start, end) == InWindow
            <==> Less(start, end) && !Less(start, Opening) && !Less(Closing, end)
  {
    AtMostIsNotGreater(end, start);
  }

  /** On well-formed times: accepted iff 09:00 <= start < end <= 17:00 in minutes. */
  lemma CheckWindowInMinutes(start: string, end: string)
    requires WellFormedClock(start) && WellFormedClock(end)
    ensures WellFormedClock(Opening) && WellFormedClock(Closing)
    ensures CheckWindow(start, end) == InWindow
            <==> 9 * 60 <= Minutes(start) < Minutes(end) <= 17 * 60
  {
    assert WellFormedClock(Opening) && Minutes(Opening) == 9 * 60;
    assert WellFormedClock(Closing) && Minutes(Closing) == 17 * 60;
    CheckWindowAccepts(start, end);
    ClockOrderAgrees(start, end);
    ClockOrderAgrees(start, Opening);
    ClockOrderAgrees(Closing, end);
  }

  // ---------------------------------------------------------------------------
  // Slot text: "start-end"
  // ---------------------------------------------------------------------------

  /** The slot text written for a new booking. */
  function JoinSlot(start: string, end: string): string
  {
    start + "-" + end
  }

  /** Index of the first '-' in `s`, if any. */
  function FirstDash(s: string): (r: Option<nat>)
    ensures r.Some? ==> r.value < |s| && s[r.value] == '-' && '-' !in s[..r.value]
    ensures r.None? ==> '-' !in s
  {
    if |s| == 0 then None
    else if s[0] == '-' then Some(0)
    else match FirstDash(s[1..])
      case None => None
      case Some(k) => assert s[..k + 1] == [s[0]] + s[1..][..k]; Some(k + 1)
  }

  /**
   * `start, end = slot.split('-')`: succeeds only when the text holds exactly one
   * '-'; any other count makes the unpacking raise.
   */
  function SplitSlot(s: string): Option<(string, string)>
  {
    match FirstDash(s)
    case None => None
    case Some(k) => if '-' in s[k + 1..] then None else Some((s[..k], s[k + 1..]))
  }

  /** Splitting a joined slot gives back its two times when neither holds a '-'. */
  lemma SplitJoin(start: string, end: string)
    requires '-' !in start && '-' !in end
    ensures SplitSlot(JoinSlot(start, end)) == Some((start, end))
  {
    var s := JoinSlot(start, end);
    assert s[|start|] == '-';
    var k := FirstDash(s).value;
    assert s[..k] == start;
    assert s[k + 1..] == end;
  }

  /** Conversely, whatever splits is the join of its two dash-free parts. */
  lemma JoinSplit(s: string)
    requires SplitSlot(s).Some?
    ensures '-' !in SplitSlot(s).value.0 && '-' !in SplitSlot(s).value.1
    ensures JoinSlot(SplitSlot(s).value.0, SplitSlot(s).value.1) == s
  {
    var k := FirstDash(s).value;
    assert s == s[..k] + "-" + s[k + 1..];
  }

  /** A slot with no dash at all, or with two, cannot be read back. */
  lemma SplitNeedsOneDash(a: string, b: string, c: string)
    ensures '-' !in a ==> SplitSlot(a).None?
    ensures SplitSlot(a + "-" + b + "-" + c).None?
  {
    var s := a + "-" + b + "-" + c;
    assert s[|a|] == '-' && s[|a| + 1 + |b|] == '-';
    var d := FirstDash(s);
    var k := d.value;
    assert s[k + 1..][|a| + |b| - k] == '-';
  }

  /** Two stored slots overlap when both can be read and their times overlap. */
  predicate SlotsOverlap(s1: string, s2: string)
  {
    match (SplitSlot(s1), SplitSlot(s2))
    case (Some(p), Some(q)) => Overlaps(p.0, p.1, q.0, q.1)
    case _ => false
  }

  lemma SlotsOverlapSymmetric(s1: string, s2: string)
    ensures SlotsOverlap(s1, s2) == SlotsOverlap(s2, s1)
  {
  }
}
