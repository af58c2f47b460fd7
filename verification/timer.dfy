/**
 The countdown shown during the exam (components/Timer.tsx): one tick of the
 effect body, the mm:ss display and the last-minute warning. The one-second
 scheduling itself is not modelled; a tick is one run of the effect.
 */
module Timer {
  import opened Text

  /** What one run of the effect does: the new second count and whether `onFinish` fired. */
  datatype TickResult = TickResult(seconds: int, finished: bool)

  /**
   One tick: an active timer above zero counts down by one; an active timer at
   zero fires `onFinish` and stays at zero; otherwise nothing happens.
   */
  function Tick(seconds: int, active: bool): (r: TickResult)
    ensures r.finished <==> active && seconds == 0
    ensures r.seconds <= seconds
    ensures seconds >= 0 ==> r.seconds >= 0
    ensures r.seconds != seconds <==> active && seconds > 0
    ensures r.seconds != seconds ==> r.seconds == seconds - 1
  {
    if active && seconds > 0 then TickResult(seconds - 1, false)
    else if seconds == 0 && active then TickResult(seconds, true)
    else TickResult(seconds, false)
  }

  /** The second count after `n` ticks of a timer that stays active. */
  function Countdown(seconds: int, n: nat): int
  {
    if n == 0 then seconds else Countdown(Tick(seconds, true).seconds, n - 1)
  }

  /** Whether `onFinish` fired during `n` ticks of a timer that stays active. */
  function FiredWithin(seconds: int, n: nat): bool
  {
    n > 0 && (Tick(seconds, true).finished || FiredWithin(Tick(seconds, true).seconds, n - 1))
  }

  /**
   Started at `seconds >= 0`, the timer reads `seconds - n` after `n` ticks,
   stops at zero, and fires only on a tick taken at zero.
   */
  lemma {:induction false} CountdownClosedForm(seconds: int, n: nat)
    requires seconds >= 0
    ensures Countdown(seconds, n) == if n <= seconds then seconds - n else 0
    ensures FiredWithin(seconds, n) <==> n > seconds
    decreases n
  {
    if n > 0 {
      CountdownClosedForm(Tick(seconds, true).seconds, n - 1);
    }
  }

  /** `isWarning`: the last minute. */
  predicate IsWarning(seconds: int)
  {
    seconds <= 60
  }

  /** Once the warning shows, no tick removes it. */
  lemma WarningPersists(seconds: int, active: bool)
    requires IsWarning(seconds)
    ensures IsWarning(Tick(seconds, active).seconds)
  {
  }

  /** `n.toString()` for any integer. */
  function IntToString(n: int): string
  {
    if n < 0 then "-" + NatToString(-n) else NatToString(n)
  }

  /** `s.padStart(2, '0')`. */
  function Pad2(s: string): string
  {
    if |s| == 0 then "00" else if |s| == 1 then "0" + s else s
  }

  /** `totalSeconds % 60` with JavaScript's remainder, which takes the sign of the dividend. */
  function JsRem60(t: int): int
  {
    if t >= 0 then t % 60 else -((-t) % 60)
  }

  /** The minutes field: `Math.floor(totalSeconds / 60)`, padded. */
  function MinutesField(t: int): string
  {
    Pad2(IntToString(t / 60))
  }

  /** The seconds field: `totalSeconds % 60`, padded. */
  function SecondsField(t: int): string
  {
    Pad2(IntToString(JsRem60(t)))
  }

  /**
   `formatTime`: the two fields joined by a colon. For a non-negative count the
   seconds field is always two digits, so the display ends in a colon and two
   digits; the digits on either side of that colon read back as the count, with
   the seconds below sixty, and below 100 minutes the display is exactly "mm:ss".
   */
  function FormatTime(t: int): (r: string)
    ensures t >= 0 ==>
      && |r| >= 5 && r[|r| - 3] == ':'
      && AllDigits(r[..|r| - 3]) && AllDigits(r[|r| - 2..])
      && ParseNat(r[|r| - 2..]) < 60
      && ParseNat(r[..|r| - 3]) * 60 + ParseNat(r[|r| - 2..]) == t
    ensures 0 <= t < 6000 ==> |r| == 5
  {
    var r := MinutesField(t) + ":" + SecondsField(t);
    if t < 0 then r
    else
      FormatTimeRoundTrip(t);
      assert r[..|r| - 3] == MinutesField(t);
      assert r[|r| - 2..] == SecondsField(t);
      r
  }

  lemma Pad2Digits(s: string)
    requires AllDigits(s)
    ensures AllDigits(Pad2(s)) && ParseNat(Pad2(s)) == ParseNat(s)
  {
    if |s| == 0 {
      assert ParseNat("00") == 0 by { assert "00"[..1] == "0"; assert "0"[..0] == []; }
    } else if |s| == 1 {
      ParseNatLeadingZero(s);
    }
  }

  /** The padded decimal field of `n` reads back as `n`. */
  lemma FieldRoundTrip(n: nat)
    ensures AllDigits(Pad2(NatToString(n))) && ParseNat(Pad2(NatToString(n))) == n
  {
    Pad2Digits(NatToString(n));
    ParseNatToString(n);
  }

  /**
   For a non-negative count both fields are digit strings (so the colon is the
   only separator), the seconds field is two digits reading below sixty, the
   minutes field is at least two digits (exactly two below 100 minutes), and
   reading them back gives minutes times sixty plus seconds equal to the count.
   */
  lemma FormatTimeRoundTrip(t: int)
    requires t >= 0
    ensures AllDigits(MinutesField(t)) && AllDigits(SecondsField(t))
    ensures |SecondsField(t)| == 2 && |MinutesField(t)| >= 2
    ensures t < 6000 ==> |MinutesField(t)| == 2
    ensures ParseNat(SecondsField(t)) < 60
    ensures ParseNat(MinutesField(t)) * 60 + ParseNat(SecondsField(t)) == t
  {
    FieldRoundTrip(t / 60);
    FieldRoundTrip(t % 60);
  }

  /** A two-digit string reads as its tens digit times ten plus its units digit. */
  lemma TwoDigitValue(m: string)
    requires |m| == 2 && AllDigits(m)
    ensures ParseNat(m) == DigitValue(m[0]) * 10 + DigitValue(m[1])
  {
    var h := m[..1];
    assert m[..|m| - 1] == h && h[..0] == [] && h[0] == m[0];
    assert ParseNat(h) == DigitValue(m[0]);
  }

  /**
   The red last-minute warning is on exactly while the display reads "01:00"
   or a time with "00" minutes.
   */
  lemma WarningMatchesDisplay(t: int)
    requires 0 <= t < 6000
    ensures IsWarning(t) <==> FormatTime(t)[..2] == "00" || FormatTime(t) == "01:00"
  {
    var r := FormatTime(t);
    var m, s := r[..2], r[3..];
    assert r == m + ":" + s;
    TwoDigitValue(m);
    TwoDigitValue(s);
    if IsWarning(t) {
      if t < 60 {
        assert m == "00";
      } else {
        assert s == "00" && m == "01";
      }
    }
  }
}
