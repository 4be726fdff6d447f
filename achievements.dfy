/** The achievements header (components/AchievementsHeader.tsx): the number
    of finished tasks, their total focus time, the "hrs" figure with one
    decimal, and the badge chosen from them, first match from the top. */
module Achievements {
  import opened Types
  import opened JsString
  import opened Tasks

  datatype Badge = Rookie | Bronze | Silver | Gold

  function Rank(b: Badge): nat
  {
    match b
    case Rookie => 0
    case Bronze => 1
    case Silver => 2
    case Gold => 3
  }

  /** `tasks.filter(t => t.status === TaskStatus.DONE)`: the done tasks of
      the board, and no other. */
  function DoneTasks(ts: seq<Task>): (r: seq<Task>)
    ensures forall i :: 0 <= i < |r| ==> r[i].status == Done
    ensures forall x :: x in r <==> x in ts && x.status == Done
  {
    var r := WithStatus(ts, Done);
    forall x ensures x in r <==> x in ts && x.status == Done {
      WithStatusCount(ts, Done, x);
    }
    r
  }

  /** `doneTasks.reduce((acc, t) => acc + (t.elapsedTime || 0), 0)`, folded
      from the first task on; `elapsedTime || 0` is the number itself. */
  function SumElapsed(ts: seq<Task>): (r: int)
    ensures (forall i :: 0 <= i < |ts| ==> ts[i].elapsedTime >= 0) ==> r >= 0
  {
    if ts == [] then 0 else SumElapsed(ts[..|ts| - 1]) + ts[|ts| - 1].elapsedTime
  }

  lemma {:induction false} SumElapsedConcat(a: seq<Task>, b: seq<Task>)
    ensures SumElapsed(a + b) == SumElapsed(a) + SumElapsed(b)
  {
    if b == [] {
      assert a + b == a;
    } else {
      assert (a + b)[..|a + b| - 1] == a + b[..|b| - 1];
      SumElapsedConcat(a, b[..|b| - 1]);
    }
  }

  /** `doneTasks.length`: zero exactly when no task is done. */
  function DoneCount(ts: seq<Task>): (r: nat)
    ensures r <= |ts|
    ensures r == 0 <==> forall i :: 0 <= i < |ts| ==> ts[i].status != Done
  {
    assert forall i :: 0 <= i < |ts| && ts[i].status == Done ==> ts[i] in DoneTasks(ts);
    WithStatusAllOrNone(ts, Done);
    |DoneTasks(ts)|
  }

  /** `totalMs`: the time of the done tasks; zero with none, and never
      negative when no done task has negative time. */
  function TotalMs(ts: seq<Task>): (r: int)
    ensures DoneCount(ts) == 0 ==> r == 0
    ensures (forall i :: 0 <= i < |ts| && ts[i].status == Done ==> ts[i].elapsedTime >= 0) ==> r >= 0
  {
    var d := DoneTasks(ts);
    assert forall j :: 0 <= j < |d| ==> d[j] in ts;
    SumElapsed(d)
  }

  /** The hours figure in tenths, as `(totalMs / 3600000).toFixed(1)` rounds
      it: the nearest tenth of an hour, a half rounding away from zero, the
      sign kept apart. */
  function Tenths(totalMs: int): (r: int)
    ensures totalMs >= 0 ==> r >= 0 && r * 360000 - 180000 <= totalMs < r * 360000 + 180000
    ensures totalMs < 0 ==> r <= 0 && r * 360000 - 180000 < totalMs <= r * 360000 + 180000
  {
    if totalMs >= 0 then (totalMs + 180000) / 360000 else -((-totalMs + 180000) / 360000)
  }

  /** A larger total never shows a smaller figure. */
  lemma TenthsMonotone(a: int, b: int)
    requires a <= b
    ensures Tenths(a) <= Tenths(b)
  {
    if a < 0 && b >= 0 {
      assert Tenths(a) <= 0;
    }
  }

  /** The `totalHours` string: `toFixed(1)` writes "-" for a negative
      quotient, the whole hours, a point and one decimal. */
  function HoursLabel(totalMs: int): (r: string)
    ensures |r| >= 3 && r[|r| - 2] == '.' && IsDigit(r[|r| - 1])
    ensures r[0] == '-' <==> totalMs < 0
  {
    var n := if totalMs >= 0 then Tenths(totalMs) else -Tenths(totalMs);
    (if totalMs < 0 then "-" else "") + NatToString(n / 10) + "." + [Digit(n % 10)]
  }

  /** `Number(u)` in tenths, for an unsigned label "<digits>.<digit>". */
  function UnsignedTenths(u: string): int
  {
    if |u| < 2 then 0 else ParseNat(u[..|u| - 2]) * 10 + DigitValue(u[|u| - 1])
  }

  /** `Number(s)` in tenths, for a label with an optional leading '-'. */
  function LabelTenths(s: string): int
  {
    if s != [] && s[0] == '-' then -UnsignedTenths(s[1..]) else UnsignedTenths(s)
  }

  /** The label reads back as the rounded figure, so the coercion in
      `totalHours as any > 50` compares `Tenths` with 500. */
  lemma HoursLabelReads(totalMs: int)
    ensures LabelTenths(HoursLabel(totalMs)) == Tenths(totalMs)
  {
    var n := if totalMs >= 0 then Tenths(totalMs) else -Tenths(totalMs);
    var w := NatToString(n / 10);
    ParseNatToString(n / 10);
    var u := w + "." + [Digit(n % 10)];
    assert u[..|u| - 2] == w;
    assert UnsignedTenths(u) == n;
    if totalMs < 0 {
      var s := "-" + u;
      assert HoursLabel(totalMs) == s;
      assert s[1..] == u;
    } else {
      assert HoursLabel(totalMs) == u;
      assert u[0] == w[0];
    }
  }

  /** The badge, first match from the top. */
  function BadgeFor(count: nat, totalMs: int): (b: Badge)
    ensures b == Gold <==> count >= 30 || Tenths(totalMs) > 500
    ensures b == Silver <==> count < 30 && Tenths(totalMs) <= 500 && (count >= 10 || Tenths(totalMs) > 100)
    ensures b == Bronze <==> 1 <= count < 10 && Tenths(totalMs) <= 100
    ensures b == Rookie <==> count == 0 && Tenths(totalMs) <= 100
  {
    var tenths := Tenths(totalMs);
    if count >= 30 || tenths > 500 then Gold
    else if count >= 10 || tenths > 100 then Silver
    else if count >= 1 then Bronze
    else Rookie
  }

  /** The badge the header shows for a board: Rookie exactly when nothing is
      done, since with no done task the total is 0. */
  function Classify(ts: seq<Task>): (r: Badge)
    ensures r == Rookie <==> DoneCount(ts) == 0
    ensures DoneCount(ts) >= 30 ==> r == Gold
    ensures r == Bronze ==> 1 <= DoneCount(ts) < 10
  {
    BadgeFor(DoneCount(ts), TotalMs(ts))
  }

  /** A task that is not done changes neither the count, nor the total, nor
      the badge, wherever it sits on the board. */
  lemma NotDoneIsIgnored(a: seq<Task>, t: Task, b: seq<Task>)
    requires t.status != Done
    ensures DoneTasks(a + [t] + b) == DoneTasks(a + b)
    ensures DoneCount(a + [t] + b) == DoneCount(a + b) && TotalMs(a + [t] + b) == TotalMs(a + b)
    ensures Classify(a + [t] + b) == Classify(a + b)
  {
    WithStatusConcat(a + [t], b, Done);
    WithStatusConcat(a, [t], Done);
    WithStatusConcat(a, b, Done);
    assert WithStatus([t], Done) == [];
    assert WithStatus(a + [t], Done) == WithStatus(a, Done);
    assert DoneTasks(a + [t] + b) == DoneTasks(a + b);
  }

  /** More done tasks and more time never give a lower badge. */
  lemma BadgeMonotone(c1: nat, m1: int, c2: nat, m2: int)
    requires c1 <= c2 && m1 <= m2
    ensures Rank(BadgeFor(c1, m1)) <= Rank(BadgeFor(c2, m2))
  {
    TenthsMonotone(m1, m2);
  }

  /** Finishing one more task adds one to the count and its time to the
      total, wherever it sits on the board. */
  lemma AddingDoneCounts(a: seq<Task>, t: Task, b: seq<Task>)
    requires t.status == Done
    ensures DoneCount(a + [t] + b) == DoneCount(a + b) + 1
    ensures TotalMs(a + [t] + b) == TotalMs(a + b) + t.elapsedTime
  {
    WithStatusConcat(a + [t], b, Done);
    WithStatusConcat(a, [t], Done);
    WithStatusConcat(a, b, Done);
    assert WithStatus([t], Done) == [t];
    var da, db := WithStatus(a, Done), WithStatus(b, Done);
    assert DoneTasks(a + [t] + b) == da + [t] + db;
    SumElapsedConcat(da + [t], db);
    SumElapsedConcat(da, [t]);
    SumElapsedConcat(da, db);
    assert SumElapsed([t]) == t.elapsedTime by {
      assert [t][..0] == [];
    }
  }

  /** Finishing one more task, with no negative time, never lowers the badge. */
  lemma AddingDoneNeverLowers(a: seq<Task>, t: Task, b: seq<Task>)
    requires t.status == Done && t.elapsedTime >= 0
    ensures Rank(Classify(a + b)) <= Rank(Classify(a + [t] + b))
  {
    AddingDoneCounts(a, t, b);
    BadgeMonotone(DoneCount(a + b), TotalMs(a + b), DoneCount(a + [t] + b), TotalMs(a + [t] + b));
  }

  /** With nothing done the header shows "0.0" hours and Rookie. */
  lemma NothingDone(ts: seq<Task>)
    requires forall i :: 0 <= i < |ts| ==> ts[i].status != Done
    ensures HoursLabel(TotalMs(ts)) == "0.0" && Classify(ts) == Rookie
  {
    WithStatusAllOrNone(ts, Done);
    assert DoneTasks(ts) == [];
  }
}
