/** The timer read-out of a task card (components/TimerDisplay.tsx): the live
    total of a task at time `now`, and its `HH:MM:SS` rendering. The
    one-second re-render tick only re-evaluates these and changes no task. */
module TimerDisplay {
  import opened Types
  import opened JsString
  import opened Tasks

  /** `getCurrentTotalTime`: the closed segments, plus the open one when the
      timer runs with a truthy start stamp. */
  function CurrentTotalTime(t: Task, now: int): (r: int)
    ensures !t.isTimerRunning ==> r == t.elapsedTime
    ensures WellFormed(t) && t.isTimerRunning ==> r == t.elapsedTime + (now - t.lastTimerStartTime.value)
  {
    var total := t.elapsedTime;
    if HasOpenSegment(t) then total + (now - t.lastTimerStartTime.value) else total
  }

  /** Starting or pausing the timer at `now` does not change the total shown
      at `now`: pausing moves the open segment into `elapsedTime`, starting
      opens an empty one. */
  lemma ToggleKeepsTotal(t: Task, now: int)
    ensures CurrentTotalTime(Toggle(t, now), now) == CurrentTotalTime(t, now)
  {
  }

  /** Moving a task at `now` does not change the total shown at `now`. */
  lemma MoveKeepsTotal(t: Task, newStatus: TaskStatus, now: int)
    ensures CurrentTotalTime(Move(t, newStatus, now), now) == CurrentTotalTime(t, now)
  {
  }

  /** While the timer runs, the shown total grows with the clock. */
  lemma TotalGrowsWhileRunning(t: Task, now: int, later: int)
    requires now <= later
    ensures CurrentTotalTime(t, now) <= CurrentTotalTime(t, later)
  {
  }

  /** `Math.floor((ms / 1000) % 60)`: JavaScript's `%` keeps the sign of the
      dividend, so for negative `ms` the field is the negated ceiling. */
  function Seconds(ms: int): (r: int)
    ensures ms >= 0 ==> 0 <= r < 60
    ensures ms < 0 ==> -60 <= r <= 0
  {
    if ms >= 0 then (ms / 1000) % 60 else -(((-ms) % 60000 + 999) / 1000)
  }

  /** `Math.floor((ms / (1000 * 60)) % 60)`. */
  function Minutes(ms: int): (r: int)
    ensures ms >= 0 ==> 0 <= r < 60
    ensures ms < 0 ==> -60 <= r <= 0
  {
    if ms >= 0 then (ms / 60000) % 60 else -(((-ms) % 3600000 + 59999) / 60000)
  }

  /** `Math.floor(ms / (1000 * 60 * 60))`: the whole hours at or below
      `ms`, with no wrap at 24. */
  function Hours(ms: int): (r: int)
    ensures r * 3600000 <= ms < r * 3600000 + 3600000
  {
    ms / 3600000
  }

  /** `formatTime`: the three padded fields joined with ':'. Below 100
      hours a non-negative total shows as exactly `HH:MM:SS`. */
  function FormatTime(ms: int): (r: string)
    ensures |r| >= 8
    ensures 0 <= ms < 360000000 ==>
      && |r| == 8 && r[2] == ':' && r[5] == ':'
      && IsDigit(r[0]) && IsDigit(r[1]) && IsDigit(r[3]) && IsDigit(r[4]) && IsDigit(r[6]) && IsDigit(r[7])
  {
    ShortFields(ms);
    Pad(Hours(ms)) + ":" + (Pad(Minutes(ms)) + ":" + Pad(Seconds(ms)))
  }

  /** A field below 100 is two digits. */
  lemma TwoDigits(n: int)
    requires 0 <= n < 100
    ensures |Pad(n)| == 2 && IsDigit(Pad(n)[0]) && IsDigit(Pad(n)[1])
  {
    PadShape(n);
    PadParses(n);
  }

  /** Below 100 hours each field of a non-negative total is two digits. */
  lemma ShortFields(ms: int)
    ensures 0 <= ms < 360000000 ==>
      && |Pad(Hours(ms))| == 2 && IsDigit(Pad(Hours(ms))[0]) && IsDigit(Pad(Hours(ms))[1])
      && |Pad(Minutes(ms))| == 2 && IsDigit(Pad(Minutes(ms))[0]) && IsDigit(Pad(Minutes(ms))[1])
      && |Pad(Seconds(ms))| == 2 && IsDigit(Pad(Seconds(ms))[0]) && IsDigit(Pad(Seconds(ms))[1])
  {
    if 0 <= ms < 360000000 {
      assert 0 <= Hours(ms) < 100;
      TwoDigits(Hours(ms));
      TwoDigits(Minutes(ms));
      TwoDigits(Seconds(ms));
    }
  }

  lemma DivUnique(a: int, b: int, q: int, r: int)
    requires b > 0 && 0 <= r < b && a == b * q + r
    ensures a / b == q && a % b == r
  {
    var q', r' := a / b, a % b;
    assert b * (q - q') == r' - r;
    if q > q' {
      MulAtLeast(b, q - q');
    } else if q < q' {
      MulAtLeast(b, q' - q);
    }
  }

  lemma MulAtLeast(b: int, d: int)
    requires b > 0 && d >= 1
    ensures b * d >= b
  {
  }

  /** For a non-negative total the fields are whole hours, minutes and
      seconds: minutes and seconds lie in [0, 60), hours do not wrap, and
      together they give `ms` to within the dropped milliseconds. */
  lemma {:induction false} FieldsDecompose(ms: int)
    requires ms >= 0
    ensures 0 <= Seconds(ms) < 60 && 0 <= Minutes(ms) < 60 && Hours(ms) >= 0
    ensures Seconds(ms) == (ms / 1000) % 60 && Minutes(ms) == (ms / 60000) % 60
    ensures var sum := Hours(ms) * 3600000 + Minutes(ms) * 60000 + Seconds(ms) * 1000;
      sum <= ms < sum + 1000
  {
    var q1, r1 := ms / 1000, ms % 1000;
    var q2, s := q1 / 60, q1 % 60;
    var h, m := q2 / 60, q2 % 60;
    assert ms == 1000 * q1 + r1;
    assert q1 == 60 * q2 + s;
    assert q2 == 60 * h + m;
    assert ms == 60000 * q2 + (1000 * s + r1);
    DivUnique(ms, 60000, q2, 1000 * s + r1);
    assert ms == 3600000 * h + (60000 * m + 1000 * s + r1);
    DivUnique(ms, 3600000, h, 60000 * m + 1000 * s + r1);
  }

  /** The three ':'-separated fields of a string. */
  function Fields(s: string): (r: seq<string>)
    ensures |r| >= 1
  {
    if s == [] then [[]]
    else
      var rest := Fields(s[1..]);
      if s[0] == ':' then [[]] + rest else [[s[0]] + rest[0]] + rest[1..]
  }

  predicate NoColon(s: string)
  {
    forall i :: 0 <= i < |s| ==> s[i] != ':'
  }

  /** A piece with no ':' is one field, and a ':' after it starts the next. */
  lemma {:induction false} FieldsAppend(a: string, b: string)
    requires NoColon(a)
    ensures Fields(a + ":" + b) == [a] + Fields(b)
    ensures Fields(a) == [a]
  {
    if a != [] {
      assert (a + ":" + b)[1..] == a[1..] + ":" + b;
      FieldsAppend(a[1..], b);
      assert a == [a[0]] + a[1..];
    } else {
      assert a + ":" + b == ":" + b;
    }
  }

  /** Three pieces without ':' joined by ':' split back into those pieces. */
  lemma FieldsOfJoin(h: string, m: string, s: string)
    requires NoColon(h) && NoColon(m) && NoColon(s)
    ensures Fields(h + ":" + (m + ":" + s)) == [h, m, s]
  {
    FieldsAppend(s, []);
    FieldsAppend(m, s);
    FieldsAppend(h, m + ":" + s);
  }

  /** A padded field of a non-negative number reads back as the number, and
      has no ':' in it. */
  lemma PadField(n: nat)
    ensures NoColon(Pad(n)) && ParseNat(Pad(n)) == n && |Pad(n)| >= 2
    ensures n < 100 ==> |Pad(n)| == 2
  {
    PadParses(n);
    PadShape(n);
  }

  /** The read-out splits at its two ':' into exactly three numerals that
      read back as the hours, minutes and seconds of `ms`. */
  lemma FormatTimeParses(ms: int)
    requires ms >= 0
    ensures var f := Fields(FormatTime(ms));
      && f == [Pad(Hours(ms)), Pad(Minutes(ms)), Pad(Seconds(ms))]
      && |f| == 3
      && ParseNat(f[0]) == ms / 3600000
      && ParseNat(f[1]) == (ms / 60000) % 60
      && ParseNat(f[2]) == (ms / 1000) % 60
      && |f[1]| == 2 && |f[2]| == 2 && |f[0]| >= 2
  {
    FieldsDecompose(ms);
    PadField(Hours(ms));
    PadField(Minutes(ms));
    PadField(Seconds(ms));
    FieldsOfJoin(Pad(Hours(ms)), Pad(Minutes(ms)), Pad(Seconds(ms)));
  }

  /** Five seconds of focus show as "00:00:05". */
  lemma FormatFiveSeconds()
    ensures FormatTime(5000) == "00:00:05"
  {
    assert Hours(5000) == 0 && Minutes(5000) == 0 && Seconds(5000) == 5;
    PadShape(0);
    PadShape(5);
    assert Pad(0) == "00" && Pad(5) == "05";
  }

  /** A negative total (a clock set back during a segment) is not clamped:
      half a second below zero shows every field as -1. */
  lemma FormatNegative()
    ensures FormatTime(-500) == "-1:-1:-1"
  {
    assert Hours(-500) == -1 && Minutes(-500) == -1 && Seconds(-500) == -1;
    assert IntToString(-1) == "-1";
  }
}
