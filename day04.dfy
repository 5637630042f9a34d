/**
 * Day 4: the guard log. Every line is a timestamp and an action; the lines
 * are sorted by time, every log is handed to the guard whose shift began
 * last, and every guard keeps a 60-slot histogram of the minutes of the
 * midnight hour during which they slept. Part one picks the guard who slept
 * longest and their sleepiest minute; part two the guard with the single
 * sleepiest minute.
 */
module GuardLog {
  import opened Wrappers
  import opened Strings
  import opened Utils

  // ---------------------------------------------------------------------
  // Timestamps

  /** A `datetime` to the minute. */
  datatype Stamp = Stamp(year: int, month: int, day: int, hour: int, minute: int)

  /** Every clock field is within its range, as `strptime` guarantees. */
  predicate ValidStamp(t: Stamp) {
    1 <= t.month <= 12 && 1 <= t.day <= 31 && 0 <= t.hour <= 23 && 0 <= t.minute <= 59
  }

  /** `datetime <`: the fields compared one after the other, the year first. */
  predicate Earlier(a: Stamp, b: Stamp) {
    if a.year != b.year then a.year < b.year
    else if a.month != b.month then a.month < b.month
    else if a.day != b.day then a.day < b.day
    else if a.hour != b.hour then a.hour < b.hour
    else a.minute < b.minute
  }

  /** `Earlier` is a strict total order on timestamps. */
  lemma {:induction false} EarlierIsOrder(a: Stamp, b: Stamp, c: Stamp)
    ensures !Earlier(a, a)
    ensures Earlier(a, b) ==> !Earlier(b, a)
    ensures Earlier(a, b) && Earlier(b, c) ==> Earlier(a, c)
    ensures a != b ==> Earlier(a, b) || Earlier(b, a)
  {
  }

  /** A number written with exactly `width` digits, leading zeros included. */
  function Pad(n: nat, width: nat): (s: string)
    ensures |s| == width && AllDigits(s)
  {
    if width == 0 then "" else Pad(n / 10, width - 1) + [DigitChar(n % 10)]
  }

  function Pow10(width: nat): nat {
    if width == 0 then 1 else 10 * Pow10(width - 1)
  }

  /** Reading the padded digits back gives the number when it fits. */
  lemma {:induction false} PadValue(n: nat, width: nat)
    requires n < Pow10(width)
    ensures DigitsValue(Pad(n, width)) == n
  {
    if width > 0 {
      var s := Pad(n, width);
      assert s[..|s| - 1] == Pad(n / 10, width - 1);
      PadValue(n / 10, width - 1);
    }
  }

  /** `width` digits at position `i`, as a number. */
  function Digits(s: string, i: nat, width: nat): (r: Option<nat>)
    requires i + width <= |s|
    ensures r.Some? <==> AllDigits(s[i..i + width])
  {
    if AllDigits(s[i..i + width]) then Some(DigitsValue(s[i..i + width])) else None
  }

  /** `strptime(dateString, '[%Y-%m-%d %H:%M')` on the zero-padded form the logs use. */
  function ParseStamp(s: string): (r: Option<Stamp>)
    ensures r.Some? ==> ValidStamp(r.value)
  {
    if |s| != 17 || s[0] != '[' || s[5] != '-' || s[8] != '-' || s[11] != ' ' || s[14] != ':' then None
    else
      var year :- Digits(s, 1, 4);
      var month :- Digits(s, 6, 2);
      var day :- Digits(s, 9, 2);
      var hour :- Digits(s, 12, 2);
      var minute :- Digits(s, 15, 2);
      var t := Stamp(year, month, day, hour, minute);
      if ValidStamp(t) then Some(t) else None
  }

  /** The text `strftime` writes for a timestamp in the log format, without the closing bracket. */
  function FormatStamp(t: Stamp): (s: string)
    requires 0 <= t.year && ValidStamp(t)
    ensures |s| == 17
  {
    "[" + Pad(t.year, 4) + "-" + Pad(t.month, 2) + "-" + Pad(t.day, 2) + " "
    + Pad(t.hour, 2) + ":" + Pad(t.minute, 2)
  }

  /** Where the fields of a formatted timestamp sit. */
  lemma {:induction false} FormatFields(t: Stamp)
    requires 0 <= t.year && ValidStamp(t)
    ensures var s := FormatStamp(t);
      s[0] == '[' && s[5] == '-' && s[8] == '-' && s[11] == ' ' && s[14] == ':'
      && s[1..5] == Pad(t.year, 4) && s[6..8] == Pad(t.month, 2) && s[9..11] == Pad(t.day, 2)
      && s[12..14] == Pad(t.hour, 2) && s[15..17] == Pad(t.minute, 2)
  {
  }

  /** Parsing a formatted timestamp gives it back. */
  lemma {:induction false} ParseFormat(t: Stamp)
    requires 0 <= t.year < 10000 && ValidStamp(t)
    ensures ParseStamp(FormatStamp(t)) == Some(t)
  {
    FormatFields(t);
    assert Pow10(2) == 100 && Pow10(4) == 10000 by {
      assert Pow10(1) == 10;
      assert Pow10(3) == 1000;
    }
    PadValue(t.year, 4);
    PadValue(t.month, 2);
    PadValue(t.day, 2);
    PadValue(t.hour, 2);
    PadValue(t.minute, 2);
  }

  // ---------------------------------------------------------------------
  // Shift logs

  /** `ShiftActions`. */
  datatype Action = StartsShift | FallsAsleep | WakesUp

  /** One line of the log; `guardId` is -1 until the log is attributed to a guard. */
  datatype ShiftLog = ShiftLog(stamp: Stamp, action: Action, guardId: int)

  /** The guard number of a 'Guard #n begins shift' action: both phrases removed, the rest read by `int`. */
  function GuardNumber(action: string): Option<int> {
    ParseInt(Replace(Replace(action, "begins shift", ""), "Guard #", ""))
  }

  /** `ShiftLog(dateString, action)`; `None` where `strptime` or `int` raise, or for an action
      that names none of the three phrases. */
  function NewShiftLog(dateString: string, action: string): (r: Option<ShiftLog>)
    ensures r.Some? ==> ParseStamp(dateString) == Some(r.value.stamp)
    ensures r.Some? ==> (r.value.action == StartsShift <==> Contains(action, "begins shift"))
    ensures r.Some? && r.value.action != StartsShift ==> r.value.guardId == -1
    ensures r.None? <==> ParseStamp(dateString).None?
                         || (Contains(action, "begins shift") && GuardNumber(action).None?)
                         || (!Contains(action, "begins shift") && !Contains(action, "wakes up")
                             && !Contains(action, "falls asleep"))
  {
    var stamp :- ParseStamp(dateString);
    if Contains(action, "begins shift") then
      var id :- GuardNumber(action);
      Some(ShiftLog(stamp, StartsShift, id))
    else if Contains(action, "wakes up") then Some(ShiftLog(stamp, WakesUp, -1))
    else if Contains(action, "falls asleep") then Some(ShiftLog(stamp, FallsAsleep, -1))
    else None
  }

  /** Replacing skips a prefix that holds no copy of the pattern's first character. */
  lemma {:induction false} ReplaceSkip(a: string, b: string, pat: string, repl: string)
    requires |pat| > 0 && forall i :: 0 <= i < |a| ==> a[i] != pat[0]
    ensures Replace(a + b, pat, repl) == a + Replace(b, pat, repl)
    decreases |a|
  {
    if |a| > 0 {
      var s := a + b;
      if |s| < |pat| {
        assert Replace(b, pat, repl) == b;
      } else {
        assert s[..|pat|] != pat by { assert s[0] == a[0]; }
        assert s[1..] == a[1..] + b;
        ReplaceSkip(a[1..], b, pat, repl);
      }
    } else {
      assert a + b == b;
    }
  }

  /** Replacing a pattern at the very start. */
  lemma {:induction false} ReplaceHead(pat: string, b: string, repl: string)
    requires |pat| > 0
    ensures Replace(pat + b, pat, repl) == repl + Replace(b, pat, repl)
  {
    var s := pat + b;
    assert s[..|pat|] == pat;
    assert s[|pat|..] == b;
  }

  /** `int` ignores the trailing space that remains of 'Guard #n ' once 'Guard #' is removed. */
  lemma {:induction false} ParseTrailingSpace(n: nat)
    ensures ParseInt(NatToString(n) + " ") == Some(n)
  {
    var d := NatToString(n);
    var s := d + " ";
    assert LStrip(s) == s;
    assert RStrip(s) == RStrip(d) == d by {
      assert s[..|s| - 1] == d;
      StripNoSpace(d);
    }
    ParseNatural(n);
  }

  /** A phrase whose first letter does not occur is not contained. */
  lemma {:induction false} Lacks(hay: string, needle: string)
    requires |needle| > 0 && forall i :: 0 <= i < |hay| ==> hay[i] != needle[0]
    ensures !Contains(hay, needle)
  {
    forall j | 0 <= j && j + |needle| <= |hay|
      ensures !OccursAt(hay, needle, j)
    {
      assert hay[j..j + |needle|][0] == hay[j];
    }
  }

  /** Removing 'begins shift' from 'Guard #n begins shift'. */
  lemma {:induction false} DropBeginsShift(d: string)
    requires AllDigits(d)
    ensures Replace("Guard #" + d + " begins shift", "begins shift", "") == "Guard #" + d + " "
  {
    var head := "Guard #" + d + " ";
    assert "Guard #" + d + " begins shift" == head + "begins shift";
    ReplaceSkip(head, "begins shift", "begins shift", "");
    ReplaceHead("begins shift", "", "");
    assert "begins shift" + "" == "begins shift";
    assert head + "" == head;
  }

  /** Removing 'Guard #' from 'Guard #n '. */
  lemma {:induction false} DropGuard(d: string)
    requires AllDigits(d)
    ensures Replace("Guard #" + d + " ", "Guard #", "") == d + " "
  {
    assert "Guard #" + d + " " == "Guard #" + (d + " ");
    ReplaceHead("Guard #", d + " ", "");
    ReplaceSkip(d + " ", "", "Guard #", "");
    assert (d + " ") + "" == d + " ";
  }

  /** 'Guard #n begins shift' names a shift start. */
  lemma {:induction false} FoundBeginsShift(d: string)
    ensures Contains("Guard #" + d + " begins shift", "begins shift")
  {
    var head := "Guard #" + d + " ";
    var action := "Guard #" + d + " begins shift";
    assert action == head + "begins shift";
    assert action[|head|..|head| + 12] == "begins shift";
    assert OccursAt(action, "begins shift", |head|);
  }

  /** The three log lines of the puzzle, read back. */
  lemma {:induction false} ReadBeginsShift(t: Stamp, n: nat)
    requires 0 <= t.year < 10000 && ValidStamp(t)
    ensures NewShiftLog(FormatStamp(t), "Guard #" + NatToString(n) + " begins shift")
      == Some(ShiftLog(t, StartsShift, n))
  {
    ParseFormat(t);
    var d := NatToString(n);
    FoundBeginsShift(d);
    DropBeginsShift(d);
    DropGuard(d);
    ParseTrailingSpace(n);
  }

  lemma {:induction false} ReadWakesUp(t: Stamp)
    requires 0 <= t.year < 10000 && ValidStamp(t)
    ensures NewShiftLog(FormatStamp(t), "wakes up") == Some(ShiftLog(t, WakesUp, -1))
  {
    ParseFormat(t);
    Lacks("wakes up", "begins shift");
    assert OccursAt("wakes up", "wakes up", 0);
  }

  lemma {:induction false} ReadFallsAsleep(t: Stamp)
    requires 0 <= t.year < 10000 && ValidStamp(t)
    ensures NewShiftLog(FormatStamp(t), "falls asleep") == Some(ShiftLog(t, FallsAsleep, -1))
  {
    ParseFormat(t);
    Lacks("falls asleep", "begins shift");
    Lacks("falls asleep", "wakes up");
    assert OccursAt("falls asleep", "falls asleep", 0);
  }

  /** `ShiftLog.minute`: the clock minute, shifted 60 down for any hour other than midnight. */
  function Minute(log: ShiftLog): (m: int)
    ensures ValidStamp(log.stamp) ==> -60 <= m < 60 && (0 <= m <==> log.stamp.hour == 0)
    ensures ValidStamp(log.stamp) && 0 <= m ==> m == log.stamp.minute
  {
    if log.stamp.hour > 0 then log.stamp.minute - 60 else log.stamp.minute
  }

  // ---------------------------------------------------------------------
  // list.sort() on the logs

  /** No log comes after a later one: the order `list.sort` leaves, compared with `<` only. */
  predicate Sorted(logs: seq<ShiftLog>) {
    forall i, j :: 0 <= i < j < |logs| ==> !Earlier(logs[j].stamp, logs[i].stamp)
  }

  /** Put `x` into a sorted list after every log that is not later than it. */
  function Insert(x: ShiftLog, s: seq<ShiftLog>): (r: seq<ShiftLog>)
    ensures multiset(r) == multiset(s) + multiset{x}
  {
    if |s| == 0 then [x]
    else if Earlier(x.stamp, s[0].stamp) then [x] + s
    else
      assert s == [s[0]] + s[1..];
      [s[0]] + Insert(x, s[1..])
  }

  lemma {:induction false} InsertSorted(x: ShiftLog, s: seq<ShiftLog>)
    requires Sorted(s)
    ensures Sorted(Insert(x, s))
  {
    if |s| > 0 && !Earlier(x.stamp, s[0].stamp) {
      InsertSorted(x, s[1..]);
      var r := Insert(x, s);
      forall j | 1 <= j < |r|
        ensures !Earlier(r[j].stamp, s[0].stamp)
      {
        assert r[j] in multiset(Insert(x, s[1..]));
        assert r[j] in multiset(s[1..]) + multiset{x};
        if r[j] != x {
          assert r[j] in s[1..];
          var k :| 0 <= k < |s[1..]| && s[1..][k] == r[j];
          assert s[k + 1] == r[j];
        }
      }
    } else if |s| > 0 {
      var r := Insert(x, s);
      forall i, j | 0 <= i < j < |r|
        ensures !Earlier(r[j].stamp, r[i].stamp)
      {
        if i == 0 {
          EarlierIsOrder(x.stamp, s[0].stamp, s[j - 1].stamp);
          EarlierIsOrder(s[j - 1].stamp, x.stamp, s[0].stamp);
        }
      }
    }
  }

  /** `list.sort()`: a stable insertion sort, each log placed after every log not later than it. */
  function SortLogs(logs: seq<ShiftLog>): (r: seq<ShiftLog>)
    ensures multiset(r) == multiset(logs)
  {
    if |logs| == 0 then []
    else
      assert logs == logs[..|logs| - 1] + [logs[|logs| - 1]];
      Insert(logs[|logs| - 1], SortLogs(logs[..|logs| - 1]))
  }

  /** The sort leaves the logs sorted. */
  lemma {:induction false} SortLogsSorted(logs: seq<ShiftLog>)
    ensures Sorted(SortLogs(logs))
  {
    if |logs| > 0 {
      SortLogsSorted(logs[..|logs| - 1]);
      InsertSorted(logs[|logs| - 1], SortLogs(logs[..|logs| - 1]));
    }
  }

  /** Appending a log that is not earlier than any other is what the insertion does. */
  lemma {:induction false} InsertLast(x: ShiftLog, s: seq<ShiftLog>)
    requires forall i :: 0 <= i < |s| ==> !Earlier(x.stamp, s[i].stamp)
    ensures Insert(x, s) == s + [x]
  {
    if |s| > 0 {
      InsertLast(x, s[1..]);
      assert [s[0]] + (s[1..] + [x]) == s + [x];
    }
  }

  /** The sort keeps logs that are already sorted as they are, ties included. */
  lemma {:induction false} SortLogsKeepsSorted(logs: seq<ShiftLog>)
    requires Sorted(logs)
    ensures SortLogs(logs) == logs
  {
    if |logs| > 0 {
      var init := logs[..|logs| - 1];
      assert Sorted(init);
      SortLogsKeepsSorted(init);
      InsertLast(logs[|logs| - 1], init);
      assert init + [logs[|logs| - 1]] == logs;
    }
  }

  /** Sorting keeps every timestamp valid. */
  lemma {:induction false} SortedValid(logs: seq<ShiftLog>)
    requires forall i :: 0 <= i < |logs| ==> ValidStamp(logs[i].stamp)
    ensures forall i :: 0 <= i < |SortLogs(logs)| ==> ValidStamp(SortLogs(logs)[i].stamp)
  {
    var r := SortLogs(logs);
    forall i | 0 <= i < |r|
      ensures ValidStamp(r[i].stamp)
    {
      assert r[i] in multiset(logs);
    }
  }

  // ---------------------------------------------------------------------
  // The minute histogram

  /** The 60 counters of a new guard, one per minute from 00:00 to 00:59. */
  function Zeros(): (r: seq<int>)
    ensures |r| == 60 && forall i :: 0 <= i < 60 ==> r[i] == 0
  {
    seq(60, i => 0)
  }

  /** The counters after `sleep(start, end)`: one more on every minute from `start` up to `end`. */
  function Slept(m: seq<int>, start: int, end: int): (r: seq<int>)
    ensures |r| == |m|
    ensures forall i :: 0 <= i < |m| ==> r[i] == if start <= i < end then m[i] + 1 else m[i]
  {
    seq(|m|, i requires 0 <= i < |m| => if start <= i < end then m[i] + 1 else m[i])
  }

  /** How many of the minutes `0..n-1` lie in `[start, end)`. */
  function Overlap(start: int, end: int, n: nat): nat {
    var lo := if start < 0 then 0 else start;
    var hi := if end < n then end else n;
    if lo < hi then hi - lo else 0
  }

  /** A nap adds one minute of sleep for every minute of the hour it covers. */
  lemma {:induction false} SleptSum(m: seq<int>, start: int, end: int)
    ensures Sum(Slept(m, start, end)) == Sum(m) + Overlap(start, end, |m|)
    decreases |m|
  {
    if |m| > 0 {
      var n := |m| - 1;
      var r := Slept(m, start, end);
      assert r[..n] == Slept(m[..n], start, end);
      SleptSum(m[..n], start, end);
    }
  }

  /** The two versions of `processLogs`: as written, and with the nap test it evidently means. */
  datatype Rule = AsWritten | Intended

  /** Whether both stored minutes hold a nap: as written, both must be above 0, so that a
      nap that starts at 00:00 is never complete; as intended, any minute of the hour will do. */
  predicate Ready(rule: Rule, asleep: int, awake: int) {
    match rule
    case AsWritten => asleep > 0 && awake > 0
    case Intended => asleep >= 0 && awake >= 0
  }

  /** What both stored minutes become once a nap is recorded: 0 as written, and -1, the value
      `processLogs` starts from, as intended. */
  function Cleared(rule: Rule): int {
    if rule == AsWritten then 0 else -1
  }

  /** The loop of `processLogs` from one log on, with the counters so far and the two stored
      minutes. */
  function Naps(rule: Rule, m: seq<int>, logs: seq<ShiftLog>, asleep: int, awake: int): (r: seq<int>)
    ensures |r| == |m|
    decreases |logs|
  {
    if |logs| == 0 then m
    else
      var log := logs[0];
      var a := if log.action == FallsAsleep then Minute(log) else asleep;
      var w := if log.action == WakesUp then Minute(log) else awake;
      if Ready(rule, a, w) then Naps(rule, Slept(m, a, w), logs[1..], Cleared(rule), Cleared(rule))
      else Naps(rule, m, logs[1..], a, w)
  }

  /** The counters of a guard once `processLogs` has read all their logs. */
  function Histogram(rule: Rule, logs: seq<ShiftLog>): (r: seq<int>)
    ensures |r| == 60
  {
    Naps(rule, Zeros(), SortLogs(logs), -1, -1)
  }

  /** Reading logs only ever adds naps: no counter goes down. */
  lemma {:induction false} NapsGrow(rule: Rule, m: seq<int>, logs: seq<ShiftLog>, asleep: int, awake: int)
    ensures forall i :: 0 <= i < |m| ==> m[i] <= Naps(rule, m, logs, asleep, awake)[i]
    decreases |logs|
  {
    if |logs| > 0 {
      var log := logs[0];
      var a := if log.action == FallsAsleep then Minute(log) else asleep;
      var w := if log.action == WakesUp then Minute(log) else awake;
      if Ready(rule, a, w) {
        NapsGrow(rule, Slept(m, a, w), logs[1..], Cleared(rule), Cleared(rule));
      } else {
        NapsGrow(rule, m, logs[1..], a, w);
      }
    }
  }

  /** As written, the counter of minute 00:00 never moves: a nap is only recorded when it
      starts after 00:00. */
  lemma {:induction false} MidnightNeverCounted(m: seq<int>, logs: seq<ShiftLog>, asleep: int, awake: int)
    requires |m| > 0
    ensures Naps(AsWritten, m, logs, asleep, awake)[0] == m[0]
    decreases |logs|
  {
    if |logs| > 0 {
      var log := logs[0];
      var a := if log.action == FallsAsleep then Minute(log) else asleep;
      var w := if log.action == WakesUp then Minute(log) else awake;
      if Ready(AsWritten, a, w) {
        MidnightNeverCounted(Slept(m, a, w), logs[1..], 0, 0);
      } else {
        MidnightNeverCounted(m, logs[1..], a, w);
      }
    }
  }

  /** Every nap minute, sleep or wake, is after 00:00. */
  predicate NoMidnightEvent(logs: seq<ShiftLog>) {
    forall i :: 0 <= i < |logs| && logs[i].action != StartsShift ==> Minute(logs[i]) > 0
  }

  /** Stored minutes of the two versions that stand for the same thing: the same minute, or
      'nothing stored', which is 0 as written after a nap and -1 as intended. */
  predicate Alike(written: int, intended: int) {
    (written == intended && written != 0) || (written == 0 && intended == -1)
  }

  /** When no nap starts or ends at 00:00, the version as written and the intended one agree. */
  lemma {:induction false} RulesAgree(m: seq<int>, logs: seq<ShiftLog>, a1: int, w1: int, a2: int, w2: int)
    requires NoMidnightEvent(logs) && Alike(a1, a2) && Alike(w1, w2)
    ensures Naps(AsWritten, m, logs, a1, w1) == Naps(Intended, m, logs, a2, w2)
    decreases |logs|
  {
    if |logs| > 0 {
      var log := logs[0];
      assert log.action != StartsShift ==> Minute(log) > 0 by { assert log == logs[0]; }
      assert NoMidnightEvent(logs[1..]) by {
        forall i | 0 <= i < |logs[1..]| && logs[1..][i].action != StartsShift
          ensures Minute(logs[1..][i]) > 0
        {
          assert logs[1..][i] == logs[i + 1];
        }
      }
      var a := if log.action == FallsAsleep then Minute(log) else a1;
      var w := if log.action == WakesUp then Minute(log) else w1;
      var a' := if log.action == FallsAsleep then Minute(log) else a2;
      var w' := if log.action == WakesUp then Minute(log) else w2;
      assert Ready(AsWritten, a, w) == Ready(Intended, a', w');
      if Ready(AsWritten, a, w) {
        RulesAgree(Slept(m, a, w), logs[1..], 0, 0, -1, -1);
      } else {
        RulesAgree(m, logs[1..], a, w, a', w');
      }
    }
  }

  /** Logs as a guard's night goes: shift starts, and naps each made of a fall asleep followed
      by a wake up within the midnight hour. */
  predicate WellPaired(logs: seq<ShiftLog>)
    decreases |logs|
  {
    if |logs| == 0 then true
    else if logs[0].action == StartsShift then WellPaired(logs[1..])
    else
      |logs| >= 2 && logs[0].action == FallsAsleep && logs[1].action == WakesUp
      && 0 <= Minute(logs[0]) <= Minute(logs[1]) && WellPaired(logs[2..])
  }

  /** The counters such a night should give: one more on every minute of every nap. */
  function NapsOf(m: seq<int>, logs: seq<ShiftLog>): (r: seq<int>)
    requires WellPaired(logs)
    ensures |r| == |m|
    decreases |logs|
  {
    if |logs| == 0 then m
    else if logs[0].action == StartsShift then NapsOf(m, logs[1..])
    else NapsOf(Slept(m, Minute(logs[0]), Minute(logs[1])), logs[2..])
  }

  /** With the intended nap test, every nap of the night is counted, those at 00:00 included. */
  lemma {:induction false} IntendedCountsEveryNap(m: seq<int>, logs: seq<ShiftLog>)
    requires WellPaired(logs)
    ensures Naps(Intended, m, logs, -1, -1) == NapsOf(m, logs)
    decreases |logs|
  {
    if |logs| > 0 {
      if logs[0].action == StartsShift {
        IntendedCountsEveryNap(m, logs[1..]);
      } else {
        assert logs[1..][0] == logs[1] && logs[1..][1..] == logs[2..];
        IntendedCountsEveryNap(Slept(m, Minute(logs[0]), Minute(logs[1])), logs[2..]);
      }
    }
  }

  // ---------------------------------------------------------------------
  // Attributing the sorted logs to guards

  /** Every timestamp is valid. */
  predicate AllValid(logs: seq<ShiftLog>) {
    forall i :: 0 <= i < |logs| ==> ValidStamp(logs[i].stamp)
  }

  /** The guard whose shift began last among the first `n` logs; -1 before any shift. */
  function Owner(logs: seq<ShiftLog>, n: nat): int
    requires n <= |logs|
  {
    if n == 0 then -1
    else if logs[n - 1].action == StartsShift then logs[n - 1].guardId
    else Owner(logs, n - 1)
  }

  /** `Owner` is the guard of the last shift start before `n`. */
  lemma {:induction false} OwnerIsLastStart(logs: seq<ShiftLog>, n: nat, p: nat)
    requires p < n <= |logs| && logs[p].action == StartsShift
    requires forall q :: p < q < n ==> logs[q].action != StartsShift
    ensures Owner(logs, n) == logs[p].guardId
    decreases n
  {
    if n - 1 > p {
      OwnerIsLastStart(logs, n - 1, p);
    }
  }

  /** Before the first shift start there is no owner. */
  lemma {:induction false} OwnerBeforeAnyStart(logs: seq<ShiftLog>, n: nat)
    requires n <= |logs| && forall q :: 0 <= q < n ==> logs[q].action != StartsShift
    ensures Owner(logs, n) == -1
    decreases n
  {
    if n > 0 {
      OwnerBeforeAnyStart(logs, n - 1);
    }
  }

  /** The first `n` logs, each carrying the number of the guard on shift. */
  function Labelled(logs: seq<ShiftLog>, n: nat): (r: seq<ShiftLog>)
    requires n <= |logs|
    ensures |r| == n && forall j :: 0 <= j < n ==> r[j] == logs[j].(guardId := Owner(logs, j + 1))
  {
    if n == 0 then [] else Labelled(logs, n - 1) + [logs[n - 1].(guardId := Owner(logs, n))]
  }

  /** The logs carrying one guard's number, in order. */
  function Of(logs: seq<ShiftLog>, id: int): (r: seq<ShiftLog>)
    ensures |r| <= |logs|
  {
    if |logs| == 0 then []
    else
      var x := logs[|logs| - 1];
      Of(logs[..|logs| - 1], id) + (if x.guardId == id then [x] else [])
  }

  lemma {:induction false} OfSnoc(logs: seq<ShiftLog>, x: ShiftLog, id: int)
    ensures Of(logs + [x], id) == Of(logs, id) + (if x.guardId == id then [x] else [])
  {
    assert (logs + [x])[..|logs|] == logs;
  }

  /** Every log of a guard's list is one of the logs and carries the guard's number. */
  lemma {:induction false} OfMembers(logs: seq<ShiftLog>, id: int)
    ensures forall x :: x in Of(logs, id) ==> x in logs && x.guardId == id
  {
    if |logs| > 0 {
      var init := logs[..|logs| - 1];
      OfMembers(init, id);
      assert forall x :: x in init ==> x in logs;
    }
  }

  /** A guard's list keeps the order of the log. */
  lemma {:induction false} OfSorted(logs: seq<ShiftLog>, id: int)
    requires Sorted(logs)
    ensures Sorted(Of(logs, id))
  {
    if |logs| > 0 {
      var init := logs[..|logs| - 1];
      var x := logs[|logs| - 1];
      assert Sorted(init);
      OfSorted(init, id);
      OfMembers(init, id);
      var r := Of(logs, id);
      if x.guardId == id {
        forall i | 0 <= i < |r| - 1
          ensures !Earlier(x.stamp, r[i].stamp)
        {
          assert r[i] in Of(init, id);
          var k :| 0 <= k < |init| && init[k] == r[i];
          assert logs[k] == r[i];
        }
      }
    }
  }

  lemma {:induction false} OfValid(logs: seq<ShiftLog>, id: int)
    requires AllValid(logs)
    ensures AllValid(Of(logs, id))
  {
    OfMembers(logs, id);
    var r := Of(logs, id);
    forall i | 0 <= i < |r|
      ensures ValidStamp(r[i].stamp)
    {
      assert r[i] in logs;
    }
  }

  /** The state of the attribution loop of `ProcessInput`: the guard on shift, the guard
      numbers in the order their guards were created, and the logs handed to each guard. */
  datatype Roster = Roster(active: int, order: seq<int>, logsOf: map<int, seq<ShiftLog>>)

  /** One step of the attribution: a shift start makes its guard the one on shift (listing
      them at their first start); any other log goes, relabelled, to the guard on shift, and
      fails when no guard has started yet. */
  function Handle(ro: Roster, log: ShiftLog): Option<Roster> {
    if log.action == StartsShift then
      var a := log.guardId;
      var order := if a in ro.logsOf then ro.order else ro.order + [a];
      var prev := if a in ro.logsOf then ro.logsOf[a] else [];
      Some(Roster(a, order, ro.logsOf[a := prev + [log]]))
    else if ro.active !in ro.logsOf then None
    else
      var a := ro.active;
      Some(Roster(a, ro.order, ro.logsOf[a := ro.logsOf[a] + [log.(guardId := a)]]))
  }

  /** The attribution loop over the first `n` sorted logs; `None` for the KeyError of a log
      read before any shift began. A shift start goes to its own guard, created on first
      sight; any other log is given the number of the guard on shift and goes to them. */
  function AttributeUpTo(logs: seq<ShiftLog>, n: nat): Option<Roster>
    requires n <= |logs|
  {
    if n == 0 then Some(Roster(-1, [], map[]))
    else
      var ro :- AttributeUpTo(logs, n - 1);
      Handle(ro, logs[n - 1])
  }

  /** What the attribution computes: it fails exactly when the first log is not a shift start;
      otherwise the guard on shift is the one of the last shift start, every guard is listed
      once, and each guard holds, in order, exactly the logs whose most recent shift start is
      theirs, each carrying their number. */
  lemma {:induction false} AttributeMeaning(logs: seq<ShiftLog>, n: nat)
    requires n <= |logs|
    ensures AttributeUpTo(logs, n).None? <==> n > 0 && logs[0].action != StartsShift
    ensures AttributeUpTo(logs, n).Some? ==>
      var ro := AttributeUpTo(logs, n).value;
      ro.active == Owner(logs, n) && (n > 0 ==> ro.active in ro.logsOf)
      && Distinct(ro.order) && (forall k :: k in ro.logsOf <==> k in ro.order)
      && (forall k :: k in ro.logsOf ==> ro.logsOf[k] == Of(Labelled(logs, n), k))
      && (forall k :: k !in ro.logsOf ==> Of(Labelled(logs, n), k) == [])
    decreases n
  {
    if n > 0 {
      AttributeMeaning(logs, n - 1);
      var L := Labelled(logs, n - 1);
      var log := logs[n - 1];
      assert Labelled(logs, n) == L + [log.(guardId := Owner(logs, n))];
      if AttributeUpTo(logs, n - 1).Some? {
        var ro := AttributeUpTo(logs, n - 1).value;
        var x := log.(guardId := Owner(logs, n));
        forall k
          ensures Of(Labelled(logs, n), k) == Of(L, k) + (if x.guardId == k then [x] else [])
        {
          OfSnoc(L, x, k);
        }
        if log.action == StartsShift {
          assert x == log;
          var r := AttributeUpTo(logs, n).value;
          assert Distinct(r.order) by {
            if log.guardId !in ro.logsOf {
              assert forall i :: 0 <= i < |ro.order| ==> ro.order[i] in ro.logsOf;
            }
          }
        } else if n - 1 > 0 {
          assert logs[0].action == StartsShift;
        }
      }
    }
  }

  /** The labels keep every timestamp, so sorted logs stay sorted and valid ones valid. */
  lemma {:induction false} LabelledKeeps(logs: seq<ShiftLog>, n: nat)
    requires n <= |logs|
    ensures Sorted(logs) ==> Sorted(Labelled(logs, n))
    ensures AllValid(logs) ==> AllValid(Labelled(logs, n))
  {
  }

  /** Each guard's list, from sorted and valid logs, is sorted and valid. */
  lemma {:induction false} RosterLists(logs: seq<ShiftLog>, n: nat)
    requires n <= |logs| && Sorted(logs) && AllValid(logs) && AttributeUpTo(logs, n).Some?
    ensures var ro := AttributeUpTo(logs, n).value;
      forall k :: k in ro.logsOf ==> Sorted(ro.logsOf[k]) && AllValid(ro.logsOf[k])
  {
    AttributeMeaning(logs, n);
    LabelledKeeps(logs, n);
    var ro := AttributeUpTo(logs, n).value;
    forall k | k in ro.logsOf
      ensures Sorted(ro.logsOf[k]) && AllValid(ro.logsOf[k])
    {
      OfSorted(Labelled(logs, n), k);
      OfValid(Labelled(logs, n), k);
    }
  }

  // ---------------------------------------------------------------------
  // max(), list.index()

  /** `max(s)`: at least every element, and one of them. */
  function MaxOf(s: seq<int>): (r: int)
    requires |s| > 0
    ensures forall i :: 0 <= i < |s| ==> s[i] <= r
    ensures r in s
  {
    if |s| == 1 then s[0]
    else
      var m := MaxOf(s[..|s| - 1]);
      assert s[..|s| - 1] <= s;
      if s[|s| - 1] > m then s[|s| - 1] else m
  }

  /** `s.index(v)`: the first position holding `v`; `None` for the ValueError. */
  function IndexOf(s: seq<int>, v: int): (r: Option<nat>)
    ensures r.Some? ==> r.value < |s| && s[r.value] == v && forall j :: 0 <= j < r.value ==> s[j] != v
    ensures r.None? <==> v !in s
  {
    if |s| == 0 then None
    else if s[0] == v then Some(0)
    else
      match IndexOf(s[1..], v)
      case None => None
      case Some(k) => Some(k + 1)
  }

  /** The first minute with the largest count: `s.index(max(s))`. */
  function FirstOfMax(s: seq<int>): (r: nat)
    requires |s| > 0
    ensures r < |s| && s[r] == MaxOf(s)
    ensures forall j :: 0 <= j < r ==> s[j] < s[r]
    ensures forall j :: 0 <= j < |s| ==> s[j] <= s[r]
  {
    IndexOf(s, MaxOf(s)).value
  }

  // ---------------------------------------------------------------------
  // Guard

  /** A guard and their histogram of the midnight hour. */
  class Guard {
    const id: int
    const midnight: array<int>
    var shiftsLogs: seq<ShiftLog>

    /** `midnight` has one counter per minute of the hour. */
    predicate Valid() {
      midnight.Length == 60
    }

    /** `Guard(number)`: no logs, and a counter of 0 for every minute. */
    constructor (number: int)
      ensures id == number && shiftsLogs == []
      ensures fresh(midnight) && Valid() && midnight[..] == Zeros()
    {
      id := number;
      midnight := new int[60](i => 0);
      shiftsLogs := [];
    }

    /** `sleep(start, end)`: one more count on every minute from `start` up to `end`. */
    method Sleep(start: int, end: int)
      requires 0 <= start && end <= midnight.Length
      modifies midnight
      ensures midnight[..] == Slept(old(midnight[..]), start, end)
    {
      if start < end {
        for i := start to end
          invariant midnight[..] == Slept(old(midnight[..]), start, i)
        {
          midnight[i] := midnight[i] + 1;
        }
      }
    }

    /** `processLogs`: sort the logs, then record a nap each time both stored minutes hold one. */
    method ProcessLogs(rule: Rule)
      requires Valid() && forall i :: 0 <= i < |shiftsLogs| ==> ValidStamp(shiftsLogs[i].stamp)
      modifies this, midnight
      ensures shiftsLogs == SortLogs(old(shiftsLogs))
      ensures midnight[..] == Naps(rule, old(midnight[..]), shiftsLogs, -1, -1)
    {
      shiftsLogs := SortLogs(shiftsLogs);
      var logs := shiftsLogs;
      SortedValid(old(shiftsLogs));
      var asleepTime, awakeTime := -1, -1;
      for k := 0 to |logs|
        invariant shiftsLogs == logs
        invariant asleepTime < 60 && awakeTime < 60
        invariant Naps(rule, midnight[..], logs[k..], asleepTime, awakeTime)
          == Naps(rule, old(midnight[..]), logs, -1, -1)
      {
        var log := logs[k];
        if log.action == FallsAsleep {
          asleepTime := Minute(log);
        } else if log.action == WakesUp {
          awakeTime := Minute(log);
        }
        if Ready(rule, asleepTime, awakeTime) {
          Sleep(asleepTime, awakeTime);
          asleepTime, awakeTime := Cleared(rule), Cleared(rule);
        }
        assert logs[k..][1..] == logs[k + 1..];
      }
    }

    /** `asleepTime`: every minute slept over all the guard's shifts. */
    function AsleepTime(): int
      reads midnight
    {
      Sum(midnight[..])
    }

    /** `asleepMinuteTime`: the most naps that covered one minute. */
    function AsleepMinuteTime(): int
      requires Valid()
      reads midnight
    {
      MaxOf(midnight[..])
    }

    /** `asleepMinute`: the first minute that reaches that count. */
    function AsleepMinute(): nat
      requires Valid()
      reads midnight
    {
      FirstOfMax(midnight[..])
    }

  }

  // ---------------------------------------------------------------------
  // ProcessInput

  /** `dt, action = line.split('] ')` and `ShiftLog(dt, action)`; `None` for a line that does
      not split in exactly two, or whose parts `ShiftLog` refuses. */
  function ParseLine(line: string): Option<ShiftLog> {
    var parts := Split(line, "] ");
    if |parts| != 2 then None else NewShiftLog(parts[0], parts[1])
  }

  /** Every line read in turn; `None` as soon as one is refused. */
  function ParseLines(lines: seq<string>): (r: Option<seq<ShiftLog>>)
    ensures r.Some? ==> |r.value| == |lines| && AllValid(r.value)
  {
    if |lines| == 0 then Some([])
    else
      var init :- ParseLines(lines[..|lines| - 1]);
      var x :- ParseLine(lines[|lines| - 1]);
      Some(init + [x])
  }

  /** A formatted timestamp holds no closing bracket. */
  lemma {:induction false} FormatNoBracket(t: Stamp)
    requires 0 <= t.year && ValidStamp(t)
    ensures forall i :: 0 <= i < |FormatStamp(t)| ==> FormatStamp(t)[i] != ']'
  {
    var y, mo, d, h, mi := Pad(t.year, 4), Pad(t.month, 2), Pad(t.day, 2), Pad(t.hour, 2), Pad(t.minute, 2);
    var s := "[" + y + "-" + mo + "-" + d + " " + h + ":" + mi;
    assert s == FormatStamp(t);
    forall u: string, v: string | (forall i :: 0 <= i < |u| ==> u[i] != ']') && (forall i :: 0 <= i < |v| ==> v[i] != ']')
      ensures forall i :: 0 <= i < |u + v| ==> (u + v)[i] != ']'
    {
    }
  }

  /** A line as the puzzle writes it reads as the timestamp and the action. */
  lemma {:induction false} ReadLine(t: Stamp, action: string)
    requires 0 <= t.year && ValidStamp(t)
    requires forall i :: 0 <= i < |action| ==> action[i] != ']'
    ensures ParseLine(FormatStamp(t) + "] " + action) == NewShiftLog(FormatStamp(t), action)
  {
    var d := FormatStamp(t);
    FormatNoBracket(t);
    SplitAfter(d, "] ", action);
    SplitAbsent(action, "] ", 0);
  }

  /** The whole input: split into lines, read, then sorted and attributed. */
  function Attributed(data: string): Option<Roster> {
    var logs :- ParseLines(Split(data, "\n"));
    var sorted := SortLogs(logs);
    AttributeUpTo(sorted, |sorted|)
  }

  /** One more line read. */
  lemma {:induction false} ParseLinesNext(lines: seq<string>, i: nat)
    requires i < |lines|
    ensures ParseLines(lines[..i + 1]) ==
      match ParseLines(lines[..i])
      case None => None
      case Some(init) => (match ParseLine(lines[i]) case None => None case Some(x) => Some(init + [x]))
  {
    assert lines[..i + 1][..i] == lines[..i];
  }

  /** A refused line refuses the whole input. */
  lemma {:induction false} ParseLinesFails(lines: seq<string>, i: nat)
    requires i <= |lines| && ParseLines(lines[..i]).None?
    ensures ParseLines(lines).None?
    decreases |lines| - i
  {
    if i < |lines| {
      ParseLinesNext(lines, i);
      ParseLinesFails(lines, i + 1);
    } else {
      assert lines[..i] == lines;
    }
  }

  /** The first loop of `ProcessInput`: one log per line. */
  method ReadLogs(lines: seq<string>) returns (r: Option<seq<ShiftLog>>)
    ensures r == ParseLines(lines)
  {
    var logs := [];
    for i := 0 to |lines|
      invariant ParseLines(lines[..i]) == Some(logs)
    {
      ParseLinesNext(lines, i);
      var log := ParseLine(lines[i]);
      if log.None? {
        ParseLinesFails(lines, i + 1);
        return None;
      }
      logs := logs + [log.value];
    }
    assert lines[..|lines|] == lines;
    return Some(logs);
  }

  /** One guard per key, filed under their own number, all distinct objects with distinct
      counters. */
  ghost predicate Separate(processed: map<int, Guard>) {
    (forall k :: k in processed ==> processed[k].id == k && processed[k].Valid())
    && forall a, b :: a in processed && b in processed && a != b ==>
      processed[a] != processed[b] && processed[a].midnight != processed[b].midnight
  }

  /** `processed[a] = Guard(a)` for a number not yet in the table. */
  method Create(processed: map<int, Guard>, a: int) returns (r: map<int, Guard>)
    requires a !in processed && Separate(processed)
    ensures r.Keys == processed.Keys + {a} && Separate(r)
    ensures forall k :: k in processed ==> r[k] == processed[k]
    ensures fresh(r[a]) && fresh(r[a].midnight) && r[a].shiftsLogs == [] && r[a].midnight[..] == Zeros()
  {
    var g := new Guard(a);
    r := processed[a := g];
  }

  /** One pass of the second loop of `ProcessInput`, on the guard table and its ghost roster. */
  method Follow(log: ShiftLog, active: int, order: seq<int>, processed: map<int, Guard>,
                ghost logsOf: map<int, seq<ShiftLog>>)
    returns (ok: bool, active': int, order': seq<int>, processed': map<int, Guard>,
             ghost logsOf': map<int, seq<ShiftLog>>)
    requires processed.Keys == logsOf.Keys && Separate(processed)
    requires forall k :: k in processed ==>
      processed[k].shiftsLogs == logsOf[k] && processed[k].midnight[..] == Zeros()
    modifies set k | k in processed :: processed[k]
    ensures ok <==> Handle(Roster(active, order, logsOf), log).Some?
    ensures ok ==>
      Handle(Roster(active, order, logsOf), log) == Some(Roster(active', order', logsOf'))
      && processed'.Keys == logsOf'.Keys && Separate(processed')
      && forall k :: k in processed' ==>
        (if k in processed then processed'[k] == processed[k]
         else fresh(processed'[k]) && fresh(processed'[k].midnight))
        && processed'[k].shiftsLogs == logsOf'[k] && processed'[k].midnight[..] == Zeros()
  {
    processed', order', active', logsOf' := processed, order, active, logsOf;
    ok := true;
    if log.action == StartsShift {
      active' := log.guardId;
      ghost var prev := if active' in logsOf then logsOf[active'] else [];
      if active' !in processed {
        processed' := Create(processed, active');
        order' := order + [active'];
      }
      var g := processed'[active'];
      g.shiftsLogs := g.shiftsLogs + [log];
      logsOf' := logsOf[active' := prev + [log]];
    } else if active !in processed {
      ok := false;
    } else {
      var entry := log.(guardId := active);
      var g := processed[active];
      g.shiftsLogs := g.shiftsLogs + [entry];
      logsOf' := logsOf[active := logsOf[active] + [entry]];
    }
  }

  /** The second loop of `ProcessInput`: hand every log to the guard on shift, creating each
      guard at their first shift start. */
  method Distribute(logs: seq<ShiftLog>) returns (r: Option<(seq<int>, map<int, Guard>)>)
    ensures r.None? <==> AttributeUpTo(logs, |logs|).None?
    ensures r.Some? ==>
      var ro := AttributeUpTo(logs, |logs|).value;
      var processed := r.value.1;
      r.value.0 == ro.order && processed.Keys == ro.logsOf.Keys && Separate(processed)
      && forall k :: k in processed ==>
        fresh(processed[k]) && fresh(processed[k].midnight)
        && processed[k].shiftsLogs == ro.logsOf[k] && processed[k].midnight[..] == Zeros()
  {
    var processed: map<int, Guard> := map[];
    var order: seq<int> := [];
    var activeGuard := -1;
    ghost var logsOf: map<int, seq<ShiftLog>> := map[];
    for i := 0 to |logs|
      invariant AttributeUpTo(logs, i) == Some(Roster(activeGuard, order, logsOf))
      invariant processed.Keys == logsOf.Keys && Separate(processed)
      invariant forall k :: k in processed ==>
        fresh(processed[k]) && fresh(processed[k].midnight)
        && processed[k].shiftsLogs == logsOf[k] && processed[k].midnight[..] == Zeros()
    {
      var ok;
      ok, activeGuard, order, processed, logsOf := Follow(logs[i], activeGuard, order, processed, logsOf);
      if !ok {
        AttributeMeaning(logs, i + 1);
        AttributeMeaning(logs, |logs|);
        return None;
      }
    }
    return Some((order, processed));
  }

  /** `ProcessInput`: read the lines, sort the logs, hand them to their guards, then let every
      guard read their logs. The table comes with its keys in insertion order. */
  method ProcessInput(data: string, rule: Rule) returns (r: Option<(seq<int>, map<int, Guard>)>)
    ensures r.None? <==> Attributed(data).None?
    ensures r.Some? ==>
      var ro := Attributed(data).value;
      var processed := r.value.1;
      r.value.0 == ro.order && processed.Keys == ro.logsOf.Keys && Separate(processed)
      && forall k :: k in processed ==>
        processed[k].shiftsLogs == ro.logsOf[k]
        && processed[k].midnight[..] == Naps(rule, Zeros(), ro.logsOf[k], -1, -1)
  {
    var read := ReadLogs(Split(data, "\n"));
    if read.None? {
      return None;
    }
    var logs := SortLogs(read.value);
    SortLogsSorted(read.value);
    SortedValid(read.value);
    var distributed := Distribute(logs);
    if distributed.None? {
      return None;
    }
    var (order, processed) := distributed.value;
    AttributeMeaning(logs, |logs|);
    RosterLists(logs, |logs|);
    ProcessTable(order, processed, AttributeUpTo(logs, |logs|).value.logsOf, rule);
    return Some((order, processed));
  }

  /** `processLogs` on a guard whose logs are already sorted. */
  method ProcessOne(g: Guard, ghost logs: seq<ShiftLog>, rule: Rule)
    requires g.Valid() && g.shiftsLogs == logs && Sorted(logs) && AllValid(logs)
    modifies g, g.midnight
    ensures g.shiftsLogs == logs && g.midnight[..] == Naps(rule, old(g.midnight[..]), logs, -1, -1)
  {
    SortLogsKeepsSorted(logs);
    g.ProcessLogs(rule);
  }

  /** The last loop of `ProcessInput`, `processLogs` for every guard, on the table that the
      attribution built. */
  method ProcessTable(order: seq<int>, processed: map<int, Guard>, ghost logsOf: map<int, seq<ShiftLog>>, rule: Rule)
    requires Distinct(order) && processed.Keys == logsOf.Keys && Separate(processed)
    requires forall k :: k in processed <==> k in order
    requires forall k :: k in processed ==>
      processed[k].shiftsLogs == logsOf[k] && processed[k].midnight[..] == Zeros()
      && Sorted(logsOf[k]) && AllValid(logsOf[k])
    modifies set k | k in processed :: processed[k]
    modifies set k | k in processed :: processed[k].midnight
    ensures forall k :: k in processed ==>
      processed[k].shiftsLogs == logsOf[k] && processed[k].midnight[..] == Naps(rule, Zeros(), logsOf[k], -1, -1)
  {
    assert forall j :: 0 <= j < |order| ==> order[j] in processed by {
      forall j | 0 <= j < |order|
        ensures order[j] in processed
      {
        var k := order[j];
        assert k in order;
        assert k in processed <==> k in order;
      }
    }
    var gs := seq(|order|, i requires 0 <= i < |order| => processed[order[i]]);
    ghost var ls := seq(|order|, i requires 0 <= i < |order| => logsOf[order[i]]);
    forall i, j | 0 <= i < j < |gs|
      ensures gs[i] != gs[j] && gs[i].midnight != gs[j].midnight
    {
      assert order[i] != order[j];
    }
    forall i | 0 <= i < |gs|
      ensures gs[i] in set k | k in processed :: processed[k]
      ensures gs[i].midnight in set k | k in processed :: processed[k].midnight
    {
      var k := order[i];
      assert k in processed && gs[i] == processed[k];
    }
    ProcessAll(gs, ls, rule);
    forall k | k in processed
      ensures processed[k].shiftsLogs == logsOf[k]
      ensures processed[k].midnight[..] == Naps(rule, Zeros(), logsOf[k], -1, -1)
    {
      var j :| 0 <= j < |order| && order[j] == k;
      assert gs[j] == processed[k];
    }
  }

  /** The last loop of `ProcessInput`: `processLogs` for every guard, in insertion order. As the
      lists are already sorted, only the counters change. */
  method ProcessAll(gs: seq<Guard>, ghost ls: seq<seq<ShiftLog>>, rule: Rule)
    requires |gs| == |ls|
    requires forall i, j :: 0 <= i < j < |gs| ==> gs[i] != gs[j] && gs[i].midnight != gs[j].midnight
    requires forall i :: 0 <= i < |gs| ==>
      gs[i].Valid() && gs[i].shiftsLogs == ls[i] && gs[i].midnight[..] == Zeros()
      && Sorted(ls[i]) && AllValid(ls[i])
    modifies set i | 0 <= i < |gs| :: gs[i]
    modifies set i | 0 <= i < |gs| :: gs[i].midnight
    ensures forall i :: 0 <= i < |gs| ==>
      gs[i].shiftsLogs == ls[i] && gs[i].midnight[..] == Naps(rule, Zeros(), ls[i], -1, -1)
  {
    for t := 0 to |gs|
      invariant forall i :: 0 <= i < |gs| ==> gs[i].shiftsLogs == ls[i]
      invariant forall i :: 0 <= i < t ==> gs[i].midnight[..] == Naps(rule, Zeros(), ls[i], -1, -1)
      invariant forall i :: t <= i < |gs| ==> gs[i].midnight[..] == Zeros()
    {
      ProcessOne(gs[t], ls[t], rule);
    }
  }

  // ---------------------------------------------------------------------
  // The two puzzles

  /** A guard as the solvers see them: their number and their counters. */
  datatype View = View(id: int, counts: seq<int>)

  /** `data.values()`: the guards of the table in insertion order. */
  function Values(order: seq<int>, processed: map<int, Guard>): (r: seq<Guard>)
    requires forall j :: 0 <= j < |order| ==> order[j] in processed
    ensures |r| == |order| && forall j :: 0 <= j < |order| ==> r[j] == processed[order[j]]
  {
    seq(|order|, j requires 0 <= j < |order| => processed[order[j]])
  }

  /** The guards' numbers and counters. */
  function Views(values: seq<Guard>): (r: seq<View>)
    reads set g | g in values :: g.midnight
    ensures |r| == |values|
    ensures forall j :: 0 <= j < |values| ==> r[j] == View(values[j].id, values[j].midnight[..])
    ensures (forall j :: 0 <= j < |values| ==> values[j].Valid()) ==> HourLong(r)
  {
    if |values| == 0 then []
    else Views(values[..|values| - 1]) + [View(values[|values| - 1].id, values[|values| - 1].midnight[..])]
  }

  /** The first position of a largest score among the first `n`: the one `max` keeps, as it
      only moves on to a later item that is strictly greater. */
  function FirstBestUpTo(scores: seq<int>, n: nat): (i: nat)
    requires 0 < n <= |scores|
    ensures i < n
    ensures forall j :: 0 <= j < n ==> scores[j] <= scores[i]
    ensures forall j :: 0 <= j < i ==> scores[j] < scores[i]
  {
    if n == 1 then 0
    else
      var b := FirstBestUpTo(scores, n - 1);
      if scores[n - 1] > scores[b] then n - 1 else b
  }

  function FirstBest(scores: seq<int>): (i: nat)
    requires |scores| > 0
  {
    FirstBestUpTo(scores, |scores|)
  }

  /** Every guard's `asleepTime`. */
  function Totals(vs: seq<View>): (r: seq<int>)
    ensures |r| == |vs| && forall j :: 0 <= j < |vs| ==> r[j] == Sum(vs[j].counts)
  {
    seq(|vs|, j requires 0 <= j < |vs| => Sum(vs[j].counts))
  }

  /** Every guard's `asleepMinuteTime`. */
  function Peaks(vs: seq<View>): (r: seq<int>)
    requires forall j :: 0 <= j < |vs| ==> |vs[j].counts| > 0
    ensures |r| == |vs| && forall j :: 0 <= j < |vs| ==> r[j] == MaxOf(vs[j].counts)
  {
    seq(|vs|, j requires 0 <= j < |vs| => MaxOf(vs[j].counts))
  }

  /** Every guard has a counter for each minute of the hour. */
  predicate HourLong(vs: seq<View>) {
    forall j :: 0 <= j < |vs| ==> |vs[j].counts| == 60
  }

  /** Part one: the guard who slept longest (the first of them), times their sleepiest minute;
      `None` for an empty table, where `max` raises. */
  function PartOne(vs: seq<View>): Option<int>
    requires HourLong(vs)
  {
    if |vs| == 0 then None
    else
      var g := vs[FirstBest(Totals(vs))];
      Some(FirstOfMax(g.counts) * g.id)
  }

  /** The loop of part two over the first `n` guards: the largest `asleepMinuteTime` so far,
      its minute and the guard's number, each starting from -1. */
  function PartTwoUpTo(vs: seq<View>, n: nat): (int, int, int)
    requires n <= |vs| && HourLong(vs)
  {
    if n == 0 then (-1, -1, -1)
    else
      var (duration, minute, id) := PartTwoUpTo(vs, n - 1);
      var g := vs[n - 1];
      if MaxOf(g.counts) > duration then (MaxOf(g.counts), FirstOfMax(g.counts), g.id)
      else (duration, minute, id)
  }

  /** Part two: `asleepId * asleepMinute` once every guard is seen. */
  function PartTwo(vs: seq<View>): int
    requires HourLong(vs)
  {
    var (_, minute, id) := PartTwoUpTo(vs, |vs|);
    id * minute
  }

  /** Part two picks the first guard with the largest `asleepMinuteTime` (here never below 0), and
      gives 1 for an empty table. */
  lemma {:induction false} PartTwoMeaning(vs: seq<View>)
    requires HourLong(vs) && forall j, i :: 0 <= j < |vs| && 0 <= i < 60 ==> vs[j].counts[i] >= 0
    ensures |vs| == 0 ==> PartTwo(vs) == 1
    ensures |vs| > 0 ==>
      var g := vs[FirstBest(Peaks(vs))];
      PartTwo(vs) == g.id * FirstOfMax(g.counts)
  {
    if |vs| > 0 {
      assert vs[0].counts[0] >= 0;
      PartTwoBest(vs, |vs|);
    }
  }

  lemma {:induction false} PartTwoBest(vs: seq<View>, n: nat)
    requires 0 < n <= |vs| && HourLong(vs) && MaxOf(vs[0].counts) >= 0
    ensures var g := vs[FirstBestUpTo(Peaks(vs), n)];
      PartTwoUpTo(vs, n) == (MaxOf(g.counts), FirstOfMax(g.counts), g.id)
    decreases n
  {
    var p := Peaks(vs);
    if n > 1 {
      PartTwoBest(vs, n - 1);
      var b := FirstBestUpTo(p, n - 1);
      assert p[n - 1] == MaxOf(vs[n - 1].counts) && p[b] == MaxOf(vs[b].counts);
      assert PartTwoUpTo(vs, n - 1) == (p[b], FirstOfMax(vs[b].counts), vs[b].id);
    } else {
      assert FirstBestUpTo(p, n) == 0;
    }
  }

  /** `SolvePartOne`: `max(data.values())`, then its `asleepMinute() * id`. */
  method SolvePartOne(values: seq<Guard>) returns (r: Option<int>)
    requires forall j :: 0 <= j < |values| ==> values[j].Valid()
    ensures r == PartOne(Views(values))
  {
    if |values| == 0 {
      return None;
    }
    var mostAsleep := values[FirstBest(Totals(Views(values)))];
    return Some(mostAsleep.AsleepMinute() * mostAsleep.id);
  }

  /** `SolvePartTwo`: the table of `(asleepMinuteTime, asleepMinute)` by guard number, then the
      first guard whose count is strictly the largest. */
  method SolvePartTwo(values: seq<Guard>) returns (r: int)
    requires forall j :: 0 <= j < |values| ==> values[j].Valid()
    ensures r == PartTwo(Views(values))
  {
    var asleepMinutes := Views(values);
    assert HourLong(asleepMinutes);
    var asleepDuration, asleepMinute, asleepId := -1, -1, -1;
    for k := 0 to |asleepMinutes|
      invariant (asleepDuration, asleepMinute, asleepId) == PartTwoUpTo(asleepMinutes, k)
    {
      var g := asleepMinutes[k];
      if MaxOf(g.counts) > asleepDuration {
        asleepDuration := MaxOf(g.counts);
        asleepMinute := FirstOfMax(g.counts);
        asleepId := g.id;
      }
    }
    return asleepId * asleepMinute;
  }

  // ---------------------------------------------------------------------
  // The sample of the puzzle statement

  /** A moment of November 1518. */
  function At(day: int, hour: int, minute: int): Stamp {
    Stamp(1518, 11, day, hour, minute)
  }

  /** The first position of a largest element is the one before which all are smaller. */
  lemma {:induction false} FirstOfMaxAt(s: seq<int>, i: nat)
    requires i < |s| && (forall j :: 0 <= j < |s| ==> s[j] <= s[i]) && forall j :: 0 <= j < i ==> s[j] < s[i]
    ensures FirstOfMax(s) == i && MaxOf(s) == s[i]
  {
  }

  /** A guard who never slept has slept 0 minutes. */
  lemma {:induction false} SumNone(m: seq<int>)
    requires forall i :: 0 <= i < |m| ==> m[i] == 0
    ensures Sum(m) == 0
    decreases |m|
  {
    if |m| > 0 {
      SumNone(m[..|m| - 1]);
    }
  }

  /** The counters of guard #10 in the sample: naps 00:05-00:25, 00:30-00:55 and 00:24-00:29. */
  function Sample10(): (r: seq<int>)
    ensures |r| == 60
  {
    Slept(Slept(Slept(Zeros(), 5, 25), 30, 55), 24, 29)
  }

  /** The counters of guard #99 in the sample: naps 00:40-00:50, 00:36-00:46 and 00:45-00:55. */
  function Sample99(): (r: seq<int>)
    ensures |r| == 60
  {
    Slept(Slept(Slept(Zeros(), 40, 50), 36, 46), 45, 55)
  }

  /** A shift start, read while no nap is pending, changes nothing. */
  lemma {:induction false} StartAt(rule: Rule, m: seq<int>, logs: seq<ShiftLog>, k: nat, asleep: int, awake: int)
    requires k < |logs| && logs[k].action == StartsShift && !Ready(rule, asleep, awake)
    ensures Naps(rule, m, logs[k..], asleep, awake) == Naps(rule, m, logs[k + 1..], asleep, awake)
  {
    assert logs[k..][1..] == logs[k + 1..];
  }

  /** A fall asleep followed by a wake up, each after 00:00 and in order, is one nap. */
  lemma {:induction false} NapAt(rule: Rule, m: seq<int>, logs: seq<ShiftLog>, k: nat, asleep: int, awake: int)
    requires k + 1 < |logs| && logs[k].action == FallsAsleep && logs[k + 1].action == WakesUp
    requires !Ready(rule, Minute(logs[k]), awake) && Ready(rule, Minute(logs[k]), Minute(logs[k + 1]))
    ensures Naps(rule, m, logs[k..], asleep, awake)
      == Naps(rule, Slept(m, Minute(logs[k]), Minute(logs[k + 1])), logs[k + 2..], Cleared(rule), Cleared(rule))
  {
    assert logs[k..][1..] == logs[k + 1..];
    assert logs[k + 1..][1..] == logs[k + 2..];
  }

  /** A log after which the nap test fails again leaves the counters as they are. */
  lemma {:induction false} SkipAt(rule: Rule, m: seq<int>, logs: seq<ShiftLog>, k: nat, asleep: int, awake: int)
    requires k < |logs|
    requires var a := if logs[k].action == FallsAsleep then Minute(logs[k]) else asleep;
      var w := if logs[k].action == WakesUp then Minute(logs[k]) else awake;
      !Ready(rule, a, w)
    ensures var a := if logs[k].action == FallsAsleep then Minute(logs[k]) else asleep;
      var w := if logs[k].action == WakesUp then Minute(logs[k]) else awake;
      Naps(rule, m, logs[k..], asleep, awake) == Naps(rule, m, logs[k + 1..], a, w)
  {
    assert logs[k..][1..] == logs[k + 1..];
  }

  /** A log after which the nap test passes records the nap between the stored minutes. */
  lemma {:induction false} SleepAt(rule: Rule, m: seq<int>, logs: seq<ShiftLog>, k: nat, asleep: int, awake: int)
    requires k < |logs|
    requires var a := if logs[k].action == FallsAsleep then Minute(logs[k]) else asleep;
      var w := if logs[k].action == WakesUp then Minute(logs[k]) else awake;
      Ready(rule, a, w)
    ensures var a := if logs[k].action == FallsAsleep then Minute(logs[k]) else asleep;
      var w := if logs[k].action == WakesUp then Minute(logs[k]) else awake;
      Naps(rule, m, logs[k..], asleep, awake)
        == Naps(rule, Slept(m, a, w), logs[k + 1..], Cleared(rule), Cleared(rule))
  {
    assert logs[k..][1..] == logs[k + 1..];
  }

  /** A night with a nap from 00:00 to 00:10 and one from 00:20 to 00:30. */
  predicate MidnightNight(logs: seq<ShiftLog>) {
    logs == [ShiftLog(At(1, 0, 0), StartsShift, 10), ShiftLog(At(1, 0, 0), FallsAsleep, 10),
             ShiftLog(At(1, 0, 10), WakesUp, 10), ShiftLog(At(1, 0, 20), FallsAsleep, 10),
             ShiftLog(At(1, 0, 30), WakesUp, 10)]
  }

  /** `WellPaired` and `NapsOf` one shift start, and one nap, at a time. */
  lemma {:induction false} PairedStart(m: seq<int>, logs: seq<ShiftLog>, k: nat)
    requires k < |logs| && logs[k].action == StartsShift && WellPaired(logs[k + 1..])
    ensures WellPaired(logs[k..]) && NapsOf(m, logs[k..]) == NapsOf(m, logs[k + 1..])
  {
    assert logs[k..][1..] == logs[k + 1..];
  }

  lemma {:induction false} PairedNap(m: seq<int>, logs: seq<ShiftLog>, k: nat)
    requires k + 1 < |logs| && logs[k].action == FallsAsleep && logs[k + 1].action == WakesUp
    requires 0 <= Minute(logs[k]) <= Minute(logs[k + 1]) && WellPaired(logs[k + 2..])
    ensures WellPaired(logs[k..])
    ensures NapsOf(m, logs[k..]) == NapsOf(Slept(m, Minute(logs[k]), Minute(logs[k + 1])), logs[k + 2..])
  {
    assert logs[k..][1..] == logs[k + 1..];
    assert logs[k..][2..] == logs[k + 2..];
  }

  /** Logs whose neighbours are in order are in order. */
  lemma {:induction false} NeighboursSorted(logs: seq<ShiftLog>)
    requires forall i :: 0 < i < |logs| ==> !Earlier(logs[i].stamp, logs[i - 1].stamp)
    ensures Sorted(logs)
  {
    if |logs| > 1 {
      var tail := logs[1..];
      assert forall i :: 0 < i < |tail| ==> tail[i] == logs[i + 1];
      NeighboursSorted(tail);
      forall j | 0 < j < |logs|
        ensures !Earlier(logs[j].stamp, logs[0].stamp)
      {
        if j > 1 {
          assert tail[j - 1] == logs[j] && tail[0] == logs[1];
          EarlierIsOrder(logs[0].stamp, logs[1].stamp, logs[j].stamp);
          EarlierIsOrder(logs[j].stamp, logs[1].stamp, logs[0].stamp);
          EarlierIsOrder(logs[j].stamp, logs[0].stamp, logs[1].stamp);
        }
      }
      forall i, j | 0 < i < j < |logs|
        ensures !Earlier(logs[j].stamp, logs[i].stamp)
      {
        assert tail[i - 1] == logs[i] && tail[j - 1] == logs[j];
      }
    }
  }

  lemma {:induction false} MidnightNightSorted(logs: seq<ShiftLog>)
    requires MidnightNight(logs)
    ensures SortLogs(logs) == logs
  {
    NeighboursSorted(logs);
    SortLogsKeepsSorted(logs);
  }

  /** That night is made of a shift start and two naps, which should give those counters. */
  lemma {:induction false} MidnightNightPaired(logs: seq<ShiftLog>)
    requires MidnightNight(logs)
    ensures WellPaired(logs) && NapsOf(Zeros(), logs) == Slept(Slept(Zeros(), 0, 10), 20, 30)
  {
    var m := Slept(Slept(Zeros(), 0, 10), 20, 30);
    assert logs[5..] == [];
    assert WellPaired(logs[5..]) && NapsOf(m, logs[5..]) == m;
    PairedNap(Slept(Zeros(), 0, 10), logs, 3);
    PairedNap(Zeros(), logs, 1);
    PairedStart(Zeros(), logs, 0);
    assert logs[0..] == logs;
  }

  /** As written, the nap at 00:00 is never recorded, and the 00:00 left in the stored minutes
      pairs the next fall asleep (00:20) with the earlier wake up (00:10): the second nap is
      lost too, and the guard is counted as never asleep. */
  lemma {:induction false} MidnightNapAsWritten(logs: seq<ShiftLog>)
    requires MidnightNight(logs)
    ensures WellPaired(logs) && Histogram(AsWritten, logs) == Zeros()
    ensures NapsOf(Zeros(), logs)[0] == 1
  {
    MidnightNightSorted(logs);
    MidnightNightPaired(logs);
    MidnightNightRead(logs);
  }

  lemma {:induction false} MidnightNightRead(logs: seq<ShiftLog>)
    requires MidnightNight(logs)
    ensures Naps(AsWritten, Zeros(), logs, -1, -1) == Zeros()
  {
    assert logs[0..] == logs;
    StartAt(AsWritten, Zeros(), logs, 0, -1, -1);
    SkipAt(AsWritten, Zeros(), logs, 1, -1, -1);
    SkipAt(AsWritten, Zeros(), logs, 2, 0, -1);
    SleepAt(AsWritten, Zeros(), logs, 3, 0, 10);
    assert Slept(Zeros(), 20, 10) == Zeros();
    SkipAt(AsWritten, Zeros(), logs, 4, 0, 0);
    assert logs[5..] == [];
  }

  /** With the intended test, both naps of that night are counted. */
  lemma {:induction false} IntendedMidnightNap(logs: seq<ShiftLog>)
    requires MidnightNight(logs)
    ensures WellPaired(logs)
    ensures Histogram(Intended, logs) == NapsOf(Zeros(), logs) == Slept(Slept(Zeros(), 0, 10), 20, 30)
  {
    MidnightNightSorted(logs);
    MidnightNightPaired(logs);
    IntendedCountsEveryNap(Zeros(), logs);
  }

  /** Guard #10's sample logs are in order already. */
  lemma {:induction false} SampleSorted10(logs: seq<ShiftLog>)
    requires logs == [ShiftLog(At(1, 0, 0), StartsShift, 10), ShiftLog(At(1, 0, 5), FallsAsleep, 10),
                      ShiftLog(At(1, 0, 25), WakesUp, 10), ShiftLog(At(1, 0, 30), FallsAsleep, 10),
                      ShiftLog(At(1, 0, 55), WakesUp, 10), ShiftLog(At(3, 0, 5), StartsShift, 10),
                      ShiftLog(At(3, 0, 24), FallsAsleep, 10), ShiftLog(At(3, 0, 29), WakesUp, 10)]
    ensures SortLogs(logs) == logs
  {
    NeighboursSorted(logs);
    SortLogsKeepsSorted(logs);
  }

  /** Guard #10's sample logs, read in order, give those counters. */
  lemma {:induction false} SampleRead10(rule: Rule, logs: seq<ShiftLog>)
    requires logs == [ShiftLog(At(1, 0, 0), StartsShift, 10), ShiftLog(At(1, 0, 5), FallsAsleep, 10),
                      ShiftLog(At(1, 0, 25), WakesUp, 10), ShiftLog(At(1, 0, 30), FallsAsleep, 10),
                      ShiftLog(At(1, 0, 55), WakesUp, 10), ShiftLog(At(3, 0, 5), StartsShift, 10),
                      ShiftLog(At(3, 0, 24), FallsAsleep, 10), ShiftLog(At(3, 0, 29), WakesUp, 10)]
    ensures Naps(rule, Zeros(), logs, -1, -1) == Sample10()
  {
    var c := Cleared(rule);
    assert logs[0..] == logs;
    StartAt(rule, Zeros(), logs, 0, -1, -1);
    NapAt(rule, Zeros(), logs, 1, -1, -1);
    NapAt(rule, Slept(Zeros(), 5, 25), logs, 3, c, c);
    StartAt(rule, Slept(Slept(Zeros(), 5, 25), 30, 55), logs, 5, c, c);
    NapAt(rule, Slept(Slept(Zeros(), 5, 25), 30, 55), logs, 6, c, c);
  }

  /** Guard #10's sample logs give those counters, under both nap tests. */
  lemma {:induction false} SampleNaps10(rule: Rule, logs: seq<ShiftLog>)
    requires logs == [ShiftLog(At(1, 0, 0), StartsShift, 10), ShiftLog(At(1, 0, 5), FallsAsleep, 10),
                      ShiftLog(At(1, 0, 25), WakesUp, 10), ShiftLog(At(1, 0, 30), FallsAsleep, 10),
                      ShiftLog(At(1, 0, 55), WakesUp, 10), ShiftLog(At(3, 0, 5), StartsShift, 10),
                      ShiftLog(At(3, 0, 24), FallsAsleep, 10), ShiftLog(At(3, 0, 29), WakesUp, 10)]
    ensures Histogram(rule, logs) == Sample10()
  {
    SampleSorted10(logs);
    SampleRead10(rule, logs);
  }

  /** Guard #99's sample logs are in order already. */
  lemma {:induction false} SampleSorted99(logs: seq<ShiftLog>)
    requires logs == [ShiftLog(At(1, 23, 58), StartsShift, 99), ShiftLog(At(2, 0, 40), FallsAsleep, 99),
                      ShiftLog(At(2, 0, 50), WakesUp, 99), ShiftLog(At(4, 0, 2), StartsShift, 99),
                      ShiftLog(At(4, 0, 36), FallsAsleep, 99), ShiftLog(At(4, 0, 46), WakesUp, 99),
                      ShiftLog(At(5, 0, 3), StartsShift, 99), ShiftLog(At(5, 0, 45), FallsAsleep, 99),
                      ShiftLog(At(5, 0, 55), WakesUp, 99)]
    ensures SortLogs(logs) == logs
  {
    NeighboursSorted(logs);
    SortLogsKeepsSorted(logs);
  }

  /** Guard #99's last two shifts: naps 00:36-00:46 and 00:45-00:55. */
  lemma {:induction false} SampleLater99(rule: Rule, logs: seq<ShiftLog>)
    requires logs == [ShiftLog(At(1, 23, 58), StartsShift, 99), ShiftLog(At(2, 0, 40), FallsAsleep, 99),
                      ShiftLog(At(2, 0, 50), WakesUp, 99), ShiftLog(At(4, 0, 2), StartsShift, 99),
                      ShiftLog(At(4, 0, 36), FallsAsleep, 99), ShiftLog(At(4, 0, 46), WakesUp, 99),
                      ShiftLog(At(5, 0, 3), StartsShift, 99), ShiftLog(At(5, 0, 45), FallsAsleep, 99),
                      ShiftLog(At(5, 0, 55), WakesUp, 99)]
    ensures Naps(rule, Slept(Zeros(), 40, 50), logs[3..], Cleared(rule), Cleared(rule)) == Sample99()
  {
    var c := Cleared(rule);
    StartAt(rule, Slept(Zeros(), 40, 50), logs, 3, c, c);
    NapAt(rule, Slept(Zeros(), 40, 50), logs, 4, c, c);
    StartAt(rule, Slept(Slept(Zeros(), 40, 50), 36, 46), logs, 6, c, c);
    NapAt(rule, Slept(Slept(Zeros(), 40, 50), 36, 46), logs, 7, c, c);
  }

  /** Guard #99's sample logs, read in order, give those counters. */
  lemma {:induction false} SampleRead99(rule: Rule, logs: seq<ShiftLog>)
    requires logs == [ShiftLog(At(1, 23, 58), StartsShift, 99), ShiftLog(At(2, 0, 40), FallsAsleep, 99),
                      ShiftLog(At(2, 0, 50), WakesUp, 99), ShiftLog(At(4, 0, 2), StartsShift, 99),
                      ShiftLog(At(4, 0, 36), FallsAsleep, 99), ShiftLog(At(4, 0, 46), WakesUp, 99),
                      ShiftLog(At(5, 0, 3), StartsShift, 99), ShiftLog(At(5, 0, 45), FallsAsleep, 99),
                      ShiftLog(At(5, 0, 55), WakesUp, 99)]
    ensures Naps(rule, Zeros(), logs, -1, -1) == Sample99()
  {
    assert logs[0..] == logs;
    StartAt(rule, Zeros(), logs, 0, -1, -1);
    NapAt(rule, Zeros(), logs, 1, -1, -1);
    SampleLater99(rule, logs);
  }

  /** Guard #99's sample logs give those counters, under both nap tests. */
  lemma {:induction false} SampleNaps99(rule: Rule, logs: seq<ShiftLog>)
    requires logs == [ShiftLog(At(1, 23, 58), StartsShift, 99), ShiftLog(At(2, 0, 40), FallsAsleep, 99),
                      ShiftLog(At(2, 0, 50), WakesUp, 99), ShiftLog(At(4, 0, 2), StartsShift, 99),
                      ShiftLog(At(4, 0, 36), FallsAsleep, 99), ShiftLog(At(4, 0, 46), WakesUp, 99),
                      ShiftLog(At(5, 0, 3), StartsShift, 99), ShiftLog(At(5, 0, 45), FallsAsleep, 99),
                      ShiftLog(At(5, 0, 55), WakesUp, 99)]
    ensures Histogram(rule, logs) == Sample99()
  {
    SampleSorted99(logs);
    SampleRead99(rule, logs);
  }

  /** Guard #10 slept 50 minutes and guard #99 30 minutes. */
  lemma {:induction false} SampleTotals()
    ensures Sum(Sample10()) == 50 && Sum(Sample99()) == 30
  {
    SumNone(Zeros());
    SleptSum(Zeros(), 5, 25);
    SleptSum(Slept(Zeros(), 5, 25), 30, 55);
    SleptSum(Slept(Slept(Zeros(), 5, 25), 30, 55), 24, 29);
    SleptSum(Zeros(), 40, 50);
    SleptSum(Slept(Zeros(), 40, 50), 36, 46);
    SleptSum(Slept(Slept(Zeros(), 40, 50), 36, 46), 45, 55);
  }

  /** Guard #10 slept most often, twice, at 00:24. */
  lemma {:induction false} SamplePeak10()
    ensures FirstOfMax(Sample10()) == 24 && MaxOf(Sample10()) == 2
  {
    var h := Sample10();
    forall j | 0 <= j < 60
      ensures h[j] == (if 5 <= j < 25 then 1 else 0) + (if 30 <= j < 55 then 1 else 0)
        + (if 24 <= j < 29 then 1 else 0)
    {
    }
    FirstOfMaxAt(h, 24);
  }

  /** Guard #99 slept most often, 3 times, at 00:45. */
  lemma {:induction false} SamplePeak99()
    ensures FirstOfMax(Sample99()) == 45 && MaxOf(Sample99()) == 3
  {
    var h := Sample99();
    forall j | 0 <= j < 60
      ensures h[j] == (if 40 <= j < 50 then 1 else 0) + (if 36 <= j < 46 then 1 else 0)
        + (if 45 <= j < 55 then 1 else 0)
    {
    }
    FirstOfMaxAt(h, 45);
  }

  /** Two guards, the first of whom slept longer and the second of whom slept more often at
      one minute: part one picks the first, part two the second. */
  lemma {:induction false} TwoGuards(i: int, a: seq<int>, j: int, b: seq<int>)
    requires |a| == 60 && |b| == 60
    requires Sum(a) > Sum(b) && MaxOf(b) > MaxOf(a) >= 0
    ensures PartOne([View(i, a), View(j, b)]) == Some(FirstOfMax(a) * i)
    ensures PartTwo([View(i, a), View(j, b)]) == j * FirstOfMax(b)
  {
    var vs := [View(i, a), View(j, b)];
    assert FirstBest(Totals(vs)) == 0;
    PartTwoBest(vs, 2);
    assert FirstBestUpTo(Peaks(vs), 2) == 1;
  }

  /** The answers of the sample: guard #10 slept longest, so part one gives 24 * 10 = 240;
      guard #99 slept 3 times at 00:45, more than anyone at any minute, so part two gives
      99 * 45 = 4455. */
  lemma {:induction false} SampleAnswers()
    ensures PartOne([View(10, Sample10()), View(99, Sample99())]) == Some(240)
    ensures PartTwo([View(10, Sample10()), View(99, Sample99())]) == 4455
  {
    SampleTotals();
    SamplePeak10();
    SamplePeak99();
    TwoGuards(10, Sample10(), 99, Sample99());
  }
}
