/** Play-time accounting: conversions between microseconds and hours, minutes and seconds, and the
    log that is kept with them. */
module RuntimeLog {
  import opened CText

  type int64 = x: int | -0x8000_0000_0000_0000 <= x < 0x8000_0000_0000_0000

  const USEC: int := 1_000_000

  datatype Log = Log(
    hours: uint32, minutes: uint32, seconds: uint32,
    year: uint32, month: uint32, day: uint32,
    hour: uint32, minute: uint32, second: uint32)

  const EMPTY_LOG := Log(0, 0, 0, 0, 0, 0, 0, 0, 0)

  function TotalSeconds(log: Log): nat {
    log.hours * 3600 + log.minutes * 60 + log.seconds
  }

  predicate Normalised(log: Log) {
    log.minutes < 60 && log.seconds < 60
  }

  /** C division truncates toward zero. */
  function TruncDiv(a: int, b: int): int
    requires b > 0
  {
    if a >= 0 then a / b else -(-a / b)
  }

  /** The 32-bit count of whole seconds in a 64-bit time. */
  function WholeSeconds(usec: int64): uint32 {
    TruncDiv(usec, USEC) % 0x1_0000_0000
  }

  /** The log with its play time replaced by the normalised form of a number of seconds. */
  function WithSeconds(log: Log, total: uint32): (r: Log)
    ensures Normalised(r) && TotalSeconds(r) == total
  {
    log.(hours := total / 3600, minutes := total / 60 % 60, seconds := total % 60)
  }

  /** There is only one normalised form. */
  lemma NormalisedIsUnique(log: Log, h: uint32, m: uint32, s: uint32)
    requires m < 60 && s < 60 && h * 3600 + m * 60 + s < 0x1_0000_0000
    ensures log.(hours := h, minutes := m, seconds := s) == WithSeconds(log, h * 3600 + m * 60 + s)
  {
    var minutes := h * 60 + m;
    Split(minutes, s, 60);
    Split(h, m, 60);
    Split(h, m * 60 + s, 3600);
    assert h * 3600 + m * 60 + s == minutes * 60 + s;
  }

  lemma Split(q: nat, r: nat, n: nat)
    requires r < n
    ensures (q * n + r) / n == q && (q * n + r) % n == r
  {
    var x := q * n + r;
    var d: int := x / n - q;
    assert x == n * (x / n) + x % n;
    assert n * d == r - x % n;
    Multiples(n, d);
  }

  lemma Multiples(n: nat, d: int)
    ensures d >= 1 ==> n * d >= n
    ensures d <= -1 ==> n * d + n <= 0
  {
  }

  /** `runtime_log_convert_hms2usec`. Signed overflow is undefined, so the caller keeps below it. */
  method HmsToUsec(hours: uint32, minutes: uint32, seconds: uint32) returns (usec: int64)
    requires (hours * 3600 + minutes * 60 + seconds) * USEC < 0x8000_0000_0000_0000
    ensures usec == (hours * 3600 + minutes * 60 + seconds) * USEC
  {
    var h: int64 := hours * 60 * 60 * USEC;
    var m: int64 := minutes * 60 * USEC;
    var s: int64 := seconds * USEC;
    usec := h + m + s;
  }

  /** `runtime_log_convert_usec2hms`, with its 32-bit intermediate results. */
  method UsecToHms(usec: int64) returns (hours: uint32, minutes: uint32, seconds: uint32)
    ensures minutes < 60 && seconds < 60
    ensures hours * 3600 + minutes * 60 + seconds == WholeSeconds(usec)
  {
    seconds := TruncDiv(usec, USEC) % 0x1_0000_0000;
    minutes := seconds / 60;
    hours := minutes / 60;
    seconds := seconds - minutes * 60;
    minutes := minutes - hours * 60;
  }

  class RuntimeLog {
    var hours: uint32
    var minutes: uint32
    var seconds: uint32
    var year: uint32
    var month: uint32
    var day: uint32
    var hour: uint32
    var minute: uint32
    var second: uint32

    ghost function View(): Log
      reads this
    {
      Log(hours, minutes, seconds, year, month, day, hour, minute, second)
    }

    constructor ()
      ensures View() == EMPTY_LOG
    {
      hours, minutes, seconds := 0, 0, 0;
      year, month, day, hour, minute, second := 0, 0, 0, 0, 0, 0;
    }

    /** `runtime_log_set_runtime_usec` */
    method SetRuntimeUsec(usec: int64)
      modifies this
      ensures View() == WithSeconds(old(View()), WholeSeconds(usec))
    {
      ghost var was := View();
      hours, minutes, seconds := UsecToHms(usec);
      NormalisedIsUnique(was, hours, minutes, seconds);
    }

    /** `runtime_log_set_runtime_hms`: any minutes and seconds are accepted and normalised. */
    method SetRuntimeHms(h: uint32, m: uint32, s: uint32)
      requires (h * 3600 + m * 60 + s) * USEC < 0x8000_0000_0000_0000
      modifies this
      ensures View() == WithSeconds(old(View()), (h * 3600 + m * 60 + s) % 0x1_0000_0000)
    {
      var usec := HmsToUsec(h, m, s);
      ghost var was := View();
      hours, minutes, seconds := UsecToHms(usec);
      NormalisedIsUnique(was, hours, minutes, seconds);
    }

    /** `runtime_log_add_runtime_usec` */
    method AddRuntimeUsec(usec: int64)
      requires TotalSeconds(View()) * USEC < 0x8000_0000_0000_0000
      requires -0x8000_0000_0000_0000 <= TotalSeconds(View()) * USEC + usec < 0x8000_0000_0000_0000
      modifies this
      ensures View() == WithSeconds(old(View()), old(WholeSeconds(TotalSeconds(View()) * USEC + usec)))
    {
      ghost var was := View();
      var usecOld := HmsToUsec(hours, minutes, seconds);
      hours, minutes, seconds := UsecToHms(usecOld + usec);
      NormalisedIsUnique(was, hours, minutes, seconds);
    }

    /** `runtime_log_add_runtime_hms` */
    method AddRuntimeHms(h: uint32, m: uint32, s: uint32)
      requires (TotalSeconds(View()) + h * 3600 + m * 60 + s) * USEC < 0x8000_0000_0000_0000
      modifies this
      ensures View() == WithSeconds(old(View()), (old(TotalSeconds(View())) + h * 3600 + m * 60 + s) % 0x1_0000_0000)
    {
      ghost var was := View();
      var usecOld := HmsToUsec(hours, minutes, seconds);
      var usecNew := HmsToUsec(h, m, s);
      hours, minutes, seconds := UsecToHms(usecOld + usecNew);
      NormalisedIsUnique(was, hours, minutes, seconds);
    }

    /** `runtime_log_set_last_played` */
    method SetLastPlayed(y: uint32, mo: uint32, d: uint32, h: uint32, mi: uint32, s: uint32)
      modifies this
      ensures View() == old(View()).(year := y, month := mo, day := d, hour := h, minute := mi, second := s)
    {
      year, month, day, hour, minute, second := y, mo, d, h, mi, s;
    }

    /** `runtime_log_reset` */
    method Reset()
      modifies this
      ensures View() == EMPTY_LOG
    {
      hours, minutes, seconds := 0, 0, 0;
      year, month, day, hour, minute, second := 0, 0, 0, 0, 0, 0;
    }
  }

  // ---------------------------------------------------------------- accumulated time

  function Sum(s: seq<nat>): nat {
    if s == [] then 0 else Sum(s[..|s| - 1]) + s[|s| - 1]
  }

  function SumOfSeconds(s: seq<nat>): nat {
    if s == [] then 0 else SumOfSeconds(s[..|s| - 1]) + s[|s| - 1] / USEC
  }

  /** `runtime_log_add_runtime_usec` computes the old time and the sum without leaving 64 bits. */
  predicate NoOverflow(log: Log, usec: nat) {
    TotalSeconds(log) * USEC + usec < 0x8000_0000_0000_0000
  }

  /** One microsecond add, where it stays within 64 bits. */
  function AddUsec(log: Log, usec: nat): Log
    requires NoOverflow(log, usec)
  {
    WithSeconds(log, WholeSeconds(TotalSeconds(log) * USEC + usec))
  }

  /** A run of adds: the logs before, between and after them. An add that overflows, which is undefined,
      may leave any log behind. */
  ghost predicate AddRun(logs: seq<Log>, adds: seq<nat>) {
    && |logs| == |adds| + 1
    && forall k :: 0 <= k < |adds| && NoOverflow(logs[k], adds[k]) ==> logs[k + 1] == AddUsec(logs[k], adds[k])
  }

  /** From a normalised log, as long as the true total stays below 2^32 seconds: no add overflows, the log
      stays normalised, the stored time is the start plus the whole seconds of every add, and what is lost
      to truncation is less than one second an add. */
  lemma {:induction false} AccumulatedTime(logs: seq<Log>, adds: seq<nat>)
    requires AddRun(logs, adds) && Normalised(logs[0])
    requires TotalSeconds(logs[0]) * USEC + Sum(adds) < 0x1_0000_0000 * USEC
    ensures var last := logs[|adds|];
            var exact := TotalSeconds(logs[0]) * USEC + Sum(adds);
            && Normalised(last)
            && TotalSeconds(last) == TotalSeconds(logs[0]) + SumOfSeconds(adds)
            && 0 <= exact - TotalSeconds(last) * USEC <= |adds| * (USEC - 1)
    ensures forall k :: 0 <= k < |adds| ==> NoOverflow(logs[k], adds[k])
  {
    if adds != [] {
      var n := |adds| - 1;
      var prefix := logs[..n + 1];
      assert AddRun(prefix, adds[..n]);
      AccumulatedTime(prefix, adds[..n]);
      assert prefix[n] == logs[n];
      forall k | 0 <= k < n
        ensures NoOverflow(logs[k], adds[k])
      {
        assert NoOverflow(prefix[k], adds[..n][k]);
      }
      AddTruncates(TotalSeconds(logs[n]), adds[n]);
      assert NoOverflow(logs[n], adds[n]);
    }
  }

  lemma AddTruncates(total: nat, usec: nat)
    requires total * USEC + usec < 0x1_0000_0000 * USEC
    ensures WholeSeconds(total * USEC + usec) == total + usec / USEC
    ensures usec - (usec / USEC) * USEC <= USEC - 1
  {
    assert (total * USEC + usec) / USEC == total + usec / USEC;
  }

  /** A time of 32-bit seconds is shown to the second: what is shown is at most the time, and less than one second
      below it. */
  lemma ShownToTheSecond(log: Log, usec: nat)
    requires usec < 0x1_0000_0000 * 1_000_000
    ensures var shown := WithSeconds(log, WholeSeconds(usec));
            && shown.minutes < 60 && shown.seconds < 60
            && shown.hours * 3_600_000_000 + shown.minutes * 60_000_000 + shown.seconds * 1_000_000 <= usec
            && usec < shown.hours * 3_600_000_000 + shown.minutes * 60_000_000 + shown.seconds * 1_000_000 + 1_000_000
  {
    AddTruncates(0, usec);
    assert TotalSeconds(WithSeconds(log, WholeSeconds(usec))) == usec / 1_000_000;
  }

  /** Adding hours, minutes and seconds loses nothing below 2^32 seconds. */
  lemma HmsAddIsExact(log: Log, h: uint32, m: uint32, s: uint32)
    requires TotalSeconds(log) + h * 3600 + m * 60 + s < 0x1_0000_0000
    ensures (TotalSeconds(log) + h * 3600 + m * 60 + s) * USEC < 0x8000_0000_0000_0000
    ensures TotalSeconds(WithSeconds(log, (TotalSeconds(log) + h * 3600 + m * 60 + s) % 0x1_0000_0000)) ==
            TotalSeconds(log) + h * 3600 + m * 60 + s
  {
  }
}
