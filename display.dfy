/** The two integer computations of the drawing step: the elapsed-time text
    with its overflow sentinel, and which of the two success images shows
    during the cooldown. */
module Display {
  import opened Timing

  /** Shown instead of the formatted time once that no longer fits in eight characters. */
  const Sentinel: string := "99:59:99"

  /** The largest time the display can show, in milliseconds. */
  const MaxShownMs: nat := 5_999_990

  /** Milliseconds per success image. */
  const SuccessCycle: int := 500

  function Min(a: int, b: int): int
  {
    if a <= b then a else b
  }

  /** The text drawn as the solving time: `formatTimeInterval(solvingTime)`,
      replaced by the sentinel when it is not eight characters long. The
      displayed value is the time's magnitude truncated to centiseconds and
      saturated at 99:59:99. */
  function ElapsedText(solvingTime: int): (t: string)
    ensures |t| == 8
    ensures ParseDisplay(t) == Some(Min(Abs(solvingTime) - Abs(solvingTime) % 10, MaxShownMs))
  {
    var text := FormatTimeInterval(solvingTime, 0);
    FormatLength(solvingTime, 0);
    TruncationBound(Abs(solvingTime));
    if |text| == 8 then
      FormatRoundTrip(solvingTime, 0);
      text
    else
      SentinelReadsBack();
      Sentinel
  }

  /** The contract of `ElapsedText` fixes the drawn text: it is the only
      text that reads back as that value. */
  lemma ElapsedTextDetermined(solvingTime: int, t: string)
    requires ParseDisplay(t) == Some(Min(Abs(solvingTime) - Abs(solvingTime) % 10, MaxShownMs))
    ensures t == ElapsedText(solvingTime)
  {
    ParseDisplayInjective(ElapsedText(solvingTime), t);
  }

  lemma TruncationBound(d: nat)
    ensures d < 6_000_000 ==> d - d % 10 <= MaxShownMs
    ensures d >= 6_000_000 ==> d - d % 10 > MaxShownMs
  {
    assert d - d % 10 == (d / 10) * 10;
  }

  lemma SentinelReadsBack()
    ensures ParseDisplay(Sentinel) == Some(MaxShownMs)
  {
    assert Sentinel[..2] == "99" && Sentinel[3..5] == "59" && Sentinel[6..] == "99";
    assert DecimalValue("9") == 9;
    assert DecimalValue("5") == 5;
    assert "99"[..1] == "9" && "59"[..1] == "5";
  }

  /** Whatever reads back is shaped `DD:DD:DD`. */
  lemma DigitsAtPlaces(t: string)
    requires ParseDisplay(t).Some?
    ensures |t| == 8 && t[2] == ':' && t[5] == ':'
    ensures forall k :: 0 <= k < 8 && k != 2 && k != 5 ==> IsDigit(t[k])
  {
    forall k | 0 <= k < 8 && k != 2 && k != 5 ensures IsDigit(t[k]) {
      if k < 2 {
        assert t[k] == t[..2][k];
      } else if k < 5 {
        assert t[k] == t[3..5][k - 3];
      } else {
        assert t[k] == t[6..][k - 6];
      }
    }
  }

  /** The success image index `max(0, floor((cooldown / 500) % 2))`, on an
      integral cooldown. */
  function SuccessImage(cooldown: int): (n: int)
    ensures 0 <= n < 2
  {
    if cooldown <= 0 then 0 else (cooldown / SuccessCycle) % 2
  }

  /** The two images alternate every 500 ms of cooldown. */
  lemma SuccessImageAlternates(cooldown: int)
    requires cooldown > 0
    ensures SuccessImage(cooldown + SuccessCycle) == 1 - SuccessImage(cooldown)
  {
    assert (cooldown + SuccessCycle) / SuccessCycle == cooldown / SuccessCycle + 1;
  }
}
