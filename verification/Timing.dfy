/**
 Time arithmetic: timeval_subtract, gettimeout, add2currenttime, and the deadline loop of
 waitfdtimed over an adversarial clock and select().
 */
module Timing {
  import opened Common

  const MILLION := 1000000

  // FD_SETSIZE on Linux.
  const FD_SETSIZE := 1024

  class Timeval {
    var sec: int
    var usec: int

    constructor (sec: int, usec: int)
      ensures this.sec == sec && this.usec == usec
    {
      this.sec, this.usec := sec, usec;
    }

    function Total(): int
      reads this
    {
      sec * MILLION + usec
    }

    predicate Normal()
      reads this
    {
      0 <= usec < MILLION
    }
  }

  // Equal times that are both normalised have the same fields.
  lemma NormalUnique(sec: int, usec: int, sec': int, usec': int)
    requires 0 <= usec < MILLION && 0 <= usec' < MILLION
    requires sec * MILLION + usec == sec' * MILLION + usec'
    ensures sec == sec' && usec == usec'
  {
  }

  // ---------- timeval_subtract ----------

  // The sign that is reported can be wrong for equal times only: when the operands have the
  // same value but x has fewer microseconds than y, or exactly a million more.
  predicate SignMisreported(xsec: int, xusec: int, ysec: int, yusec: int) {
    && xsec * MILLION + xusec == ysec * MILLION + yusec
    && (xusec < yusec || xusec - yusec == MILLION)
  }

  // The difference is exact, y keeps its value, and the sign is right except as said above.
  method TimevalSubtract(result: Timeval, x: Timeval, y: Timeval) returns (negative: int)
    requires result != x && result != y && x != y
    modifies result, y
    ensures y.Total() == old(y.Total())
    ensures result.Total() == x.Total() - old(y.Total()) && 0 <= result.usec <= MILLION
    ensures x.Normal() && old(y.Normal()) ==> result.Normal()
    ensures negative == 0 || negative == 1
    ensures negative == 1 <==>
              x.Total() < old(y.Total()) || SignMisreported(x.sec, x.usec, old(y.sec), old(y.usec))
  {
    if x.usec < y.usec {
      var nsec := (y.usec - x.usec) / MILLION + 1;
      y.usec := y.usec - MILLION * nsec;
      y.sec := y.sec + nsec;
    }
    if x.usec - y.usec > MILLION {
      var nsec := (x.usec - y.usec) / MILLION;
      y.usec := y.usec + MILLION * nsec;
      y.sec := y.sec - nsec;
    }
    result.sec := x.sec - y.sec;
    result.usec := x.usec - y.usec;
    negative := if x.sec < y.sec then 1 else 0;
  }

  // On normalised operands the sign is never misreported; on others it can be.
  lemma SignOnNormalOperands(xsec: int, xusec: int, ysec: int, yusec: int)
    requires 0 <= xusec < MILLION && 0 <= yusec < MILLION
    ensures !SignMisreported(xsec, xusec, ysec, yusec)
    ensures SignMisreported(1, 0, 0, 1000000)
  {
  }

  // ---------- gettimeout ----------

  // Whether gettimeout finds time left.  Unless the microseconds are more than one carry or
  // borrow apart, that is whether now is before end.
  predicate TimeLeft(endSec: int, endUsec: int, nowSec: int, nowUsec: int) {
    var apart := endUsec - nowUsec;
    if -MILLION <= apart < 2 * MILLION then nowSec * MILLION + nowUsec < endSec * MILLION + endUsec
    else if apart < 0 then nowSec < endSec
    else nowSec <= endSec + 1
  }

  // nowSec and nowUsec are what gettimeofday reports.
  method GetTimeout(endSec: int, endUsec: int, nowSec: int, nowUsec: int, timeout: Timeval) returns (r: int)
    requires 0 <= nowUsec < MILLION
    modifies timeout
    ensures timeout.Total() == (endSec * MILLION + endUsec) - (nowSec * MILLION + nowUsec)
    ensures timeout.Normal() <==> -MILLION <= endUsec - nowUsec < 2 * MILLION
    ensures r == if TimeLeft(endSec, endUsec, nowSec, nowUsec) then 0 else -1
  {
    timeout.sec, timeout.usec := nowSec, nowUsec;
    timeout.sec := endSec - timeout.sec;
    timeout.usec := endUsec - timeout.usec;
    if timeout.usec >= MILLION {
      timeout.sec := timeout.sec + 1;
      timeout.usec := timeout.usec - MILLION;
    }
    if timeout.usec < 0 {
      timeout.sec := timeout.sec - 1;
      timeout.usec := timeout.usec + MILLION;
    }
    if timeout.sec < 0 || (timeout.sec == 0 && timeout.usec == 0) {
      return -1;
    }
    return 0;
  }

  // On normalised times gettimeout and timeval_subtract agree, field by field and in sign.
  method TimeoutAndDifference(end: Timeval, now: Timeval)
      returns (r: int, timeout: Timeval, negative: int, difference: Timeval)
    requires end.Normal() && now.Normal() && end != now
    modifies now
    ensures fresh(timeout) && fresh(difference)
    ensures timeout.sec == difference.sec && timeout.usec == difference.usec && timeout.Normal()
    ensures timeout.Total() == end.Total() - old(now.Total())
    ensures r == -1 <==> negative == 1 || difference.Total() == 0
    ensures negative == 1 <==> end.Total() < old(now.Total())
  {
    timeout := new Timeval(0, 0);
    difference := new Timeval(0, 0);
    r := GetTimeout(end.sec, end.usec, now.sec, now.usec, timeout);
    negative := TimevalSubtract(difference, end, now);
    NormalUnique(timeout.sec, timeout.usec, difference.sec, difference.usec);
  }

  // ---------- add2currenttime ----------

  // The conversion of a double to int drops the fraction, towards zero.
  function Truncate(x: real): (r: int)
    ensures x >= 0.0 ==> r as real <= x < r as real + 1.0
    ensures x <= 0.0 ==> r as real - 1.0 < x <= r as real
  {
    if x >= 0.0 then x.Floor else -(-x).Floor
  }

  // For seconds >= 0 the deadline is normalised and within half a microsecond of the exact one.
  // For others the rounding is upwards, and the microseconds may be left negative.
  method AddToCurrentTime(nowSec: int, nowUsec: int, seconds: real) returns (sec: int, usec: int)
    requires 0 <= nowUsec < MILLION
    ensures seconds >= 0.0 ==> 0 <= usec < MILLION
    ensures seconds >= 0.0 ==>
              var exact := (nowSec * MILLION + nowUsec) as real + seconds * 1000000.0;
              -0.5 <= (sec * MILLION + usec) as real - exact <= 0.5
    ensures seconds < 0.0 ==> -MILLION < usec < MILLION
    ensures seconds < 0.0 ==>
              var exact := (nowSec * MILLION + nowUsec) as real + seconds * 1000000.0;
              -0.5 <= (sec * MILLION + usec) as real - exact <= 1.5
  {
    sec, usec := nowSec, nowUsec;
    sec := sec + Truncate(seconds);
    usec := usec + Truncate((seconds - Truncate(seconds) as real) * 1000000.0 + 0.5);
    if usec >= MILLION {
      sec := sec + 1;
      usec := usec - MILLION;
    }
  }

  // ---------- waitfdtimed ----------

  datatype Reply = Ready | TimedOut | Interrupted | Failed(code: int)

  // Before the i-th reading of the clock `idle` microseconds pass, and during the i-th
  // select() call `busy` microseconds pass before it replies.
  datatype Turn = Turn(idle: nat, busy: nat, reply: Reply)

  // One select() call: the time of the call, and the timeout it is given.
  datatype Call = Call(now: nat, sec: int, usec: int)

  class Kernel {
    const script: nat -> Turn
    var turn: nat
    var clock: nat
    ghost var calls: seq<Call>

    constructor (script: nat -> Turn, clock: nat)
      ensures this.script == script && turn == 0 && this.clock == clock && calls == []
    {
      this.script, turn, this.clock, calls := script, 0, clock, [];
    }

    method GetTimeOfDay() returns (sec: int, usec: int)
      modifies this`clock
      ensures clock == old(clock) + script(turn).idle
      ensures sec == clock / MILLION && usec == clock % MILLION
    {
      clock := clock + script(turn).idle;
      sec, usec := clock / MILLION, clock % MILLION;
    }

    method Select(sec: int, usec: int) returns (reply: Reply)
      modifies this
      ensures reply == script(old(turn)).reply && turn == old(turn) + 1
      ensures clock == old(clock) + script(old(turn)).busy
      ensures calls == old(calls) + [Call(old(clock), sec, usec)]
    {
      calls := calls + [Call(clock, sec, usec)];
      reply := script(turn).reply;
      clock := clock + script(turn).busy;
      turn := turn + 1;
    }
  }

  // What the clock shows at the i-th reading after it showed `clock` at turn `from`.
  ghost function Now(script: nat -> Turn, from: nat, clock: nat, i: nat): nat {
    if i == 0 then clock + script(from).idle
    else Now(script, from, clock, i - 1) + script(from + i - 1).busy + script(from + i).idle
  }

  predicate TimeLeftAt(endSec: int, endUsec: int, now: nat) {
    TimeLeft(endSec, endUsec, now / MILLION, now % MILLION)
  }

  // Each call is made right after its reading of the clock and is given exactly the time
  // that is left until the deadline.
  ghost predicate CallsOk(calls: seq<Call>, script: nat -> Turn, from: nat, clock: nat, end: int) {
    forall i :: 0 <= i < |calls| ==>
      && calls[i].now == Now(script, from, clock, i)
      && calls[i].now + calls[i].sec * MILLION + calls[i].usec == end
  }

  // And that time is positive and normalised.
  ghost predicate CallsPositive(calls: seq<Call>) {
    forall i :: 0 <= i < |calls| ==> 0 <= calls[i].usec < MILLION && 0 < calls[i].sec * MILLION + calls[i].usec
  }

  // n calls were made: each reading before a call found time left, and all replies but the
  // last were interruptions.
  ghost predicate Tried(script: nat -> Turn, from: nat, clock: nat, endSec: int, endUsec: int, n: nat) {
    && (forall i: nat :: i < n ==> TimeLeftAt(endSec, endUsec, Now(script, from, clock, i)))
    && (forall m: nat :: from <= m < from + n - 1 ==> script(m).reply == Interrupted)
  }

  // The result is that of the last reply or, if that was an interruption too, the next
  // reading found no time left.
  ghost predicate Outcome(script: nat -> Turn, from: nat, clock: nat, endSec: int, endUsec: int, n: nat, r: int, errno: Errno) {
    && Tried(script, from, clock, endSec, endUsec, n)
    && if n == 0 || script(from + n - 1).reply == Interrupted
       then r == -1 && errno == ETIME && !TimeLeftAt(endSec, endUsec, Now(script, from, clock, n))
       else match script(from + n - 1).reply
            case Ready => r == 0 && errno == Unset
            case TimedOut => r == -1 && errno == ETIME
            case Failed(code) => r == -1 && errno == Other(code)
  }

  // The clock, the replies and the deadline leave only one outcome.
  lemma OutcomeUnique(script: nat -> Turn, from: nat, clock: nat, endSec: int, endUsec: int,
                      n: nat, r: int, errno: Errno, n': nat, r': int, errno': Errno)
    requires Outcome(script, from, clock, endSec, endUsec, n, r, errno)
    requires Outcome(script, from, clock, endSec, endUsec, n', r', errno')
    ensures n == n' && r == r' && errno == errno'
  {
    hide TimeLeftAt, Now;
    if n < n' {
      StoppedOnce(script, from, clock, endSec, endUsec, n, r, errno, n');
    } else if n' < n {
      StoppedOnce(script, from, clock, endSec, endUsec, n', r', errno', n);
    }
  }

  // A wait that has ended does not go on.
  lemma StoppedOnce(script: nat -> Turn, from: nat, clock: nat, endSec: int, endUsec: int, n: nat, r: int, errno: Errno, more: nat)
    requires Outcome(script, from, clock, endSec, endUsec, n, r, errno) && n < more
    ensures !Tried(script, from, clock, endSec, endUsec, more)
  {
    hide TimeLeftAt, Now;
  }

  lemma TriedMore(script: nat -> Turn, from: nat, clock: nat, endSec: int, endUsec: int, n: nat)
    requires Tried(script, from, clock, endSec, endUsec, n) && TimeLeftAt(endSec, endUsec, Now(script, from, clock, n))
    requires n > 0 ==> script(from + n - 1).reply == Interrupted
    ensures Tried(script, from, clock, endSec, endUsec, n + 1)
  {
  }

  lemma CallsMore(calls: seq<Call>, script: nat -> Turn, from: nat, clock: nat, end: int, c: Call)
    requires CallsOk(calls, script, from, clock, end)
    requires c.now == Now(script, from, clock, |calls|) && c.now + c.sec * MILLION + c.usec == end
    ensures CallsOk(calls + [c], script, from, clock, end)
  {
    hide Now;
  }

  // n calls have been made since `before`.
  ghost predicate Made(k: Kernel, before: seq<Call>, from: nat, clock: nat, endSec: int, endUsec: int, n: nat)
    reads k
  {
    && k.turn == from + n && |k.calls| == |before| + n && before <= k.calls
    && Tried(k.script, from, clock, endSec, endUsec, n)
    && CallsOk(k.calls[|before|..], k.script, from, clock, endSec * MILLION + endUsec)
    && (0 <= endUsec < 2 * MILLION ==> CallsPositive(k.calls[|before|..]))
  }

  // The wait has ended with this result.
  ghost predicate Waited(k: Kernel, before: seq<Call>, from: nat, clock: nat, endSec: int, endUsec: int, r: int, errno: Errno)
    reads k
  {
    && from <= k.turn && Made(k, before, from, clock, endSec, endUsec, k.turn - from)
    && Outcome(k.script, from, clock, endSec, endUsec, k.turn - from, r, errno)
  }

  // One round: gettimeout and, if time is left, select().
  method Attempt(k: Kernel, endSec: int, endUsec: int) returns (left: int, reply: Reply)
    modifies k
    ensures var now := old(k.clock) + k.script(old(k.turn)).idle;
            if TimeLeftAt(endSec, endUsec, now) then
              && left == 0 && k.turn == old(k.turn) + 1 && reply == k.script(old(k.turn)).reply
              && k.clock == now + k.script(old(k.turn)).busy
              && now < (endSec + 2) * MILLION
              && exists sec, usec :: k.calls == old(k.calls) + [Call(now, sec, usec)]
                   && now + sec * MILLION + usec == endSec * MILLION + endUsec
                   && (0 <= endUsec < 2 * MILLION ==> 0 <= usec < MILLION && 0 < sec * MILLION + usec)
            else left == -1 && k.calls == old(k.calls) && k.turn == old(k.turn) && k.clock == now
  {
    reply := Interrupted;
    var timeout := new Timeval(0, 0);
    var sec, usec := k.GetTimeOfDay();
    left := GetTimeout(endSec, endUsec, sec, usec, timeout);
    if left == 0 {
      reply := k.Select(timeout.sec, timeout.usec);
    }
  }

  // A round after n calls that were all interrupted.
  method Round(k: Kernel, endSec: int, endUsec: int, ghost before: seq<Call>, ghost from: nat, ghost clock: nat, ghost n: nat)
      returns (left: int, reply: Reply)
    requires Made(k, before, from, clock, endSec, endUsec, n)
    requires k.clock + k.script(from + n).idle == Now(k.script, from, clock, n)
    requires n > 0 ==> k.script(from + n - 1).reply == Interrupted
    modifies k
    ensures var now := Now(k.script, from, clock, n);
            if TimeLeftAt(endSec, endUsec, now) then
              && left == 0 && reply == k.script(from + n).reply && now < (endSec + 2) * MILLION
              && Made(k, before, from, clock, endSec, endUsec, n + 1)
              && k.clock + k.script(from + n + 1).idle == Now(k.script, from, clock, n + 1)
            else left == -1 && Made(k, before, from, clock, endSec, endUsec, n)
  {
    ghost var made := k.calls;
    left, reply := Attempt(k, endSec, endUsec);
    if left == 0 {
      hide TimeLeftAt, CallsOk, Tried;
      ghost var c := k.calls[|made|];
      TriedMore(k.script, from, clock, endSec, endUsec, n);
      CallsMore(made[|before|..], k.script, from, clock, endSec * MILLION + endUsec, c);
      assert k.calls[|before|..] == made[|before|..] + [c];
    }
  }

  lemma NowAdvances(script: nat -> Turn, from: nat, clock: nat, n: nat)
    requires n > 0 && script(from + n - 1).busy > 0
    ensures Now(script, from, clock, n - 1) < Now(script, from, clock, n)
  {
  }

  lemma MadeNone(k: Kernel, endSec: int, endUsec: int)
    ensures Made(k, k.calls, k.turn, k.clock, endSec, endUsec, 0)
    ensures k.clock + k.script(k.turn).idle == Now(k.script, k.turn, k.clock, 0)
  {
  }

  lemma MadeAll(k: Kernel, before: seq<Call>, from: nat, clock: nat, endSec: int, endUsec: int, n: nat)
    requires Made(k, before, from, clock, endSec, endUsec, n)
    ensures k.turn == from + n && Tried(k.script, from, clock, endSec, endUsec, n)
  {
  }

  // Under a clock that never goes back, and that each interruption advances, the loop ends.
  // Every call of select() gets exactly the time left until the deadline, which never moves,
  // and for a valid descriptor the result is the only possible outcome.
  method WaitFdTimed(k: Kernel, fd: int, endSec: int, endUsec: int) returns (r: int, errno: Errno)
    requires forall i :: k.script(i).reply == Interrupted ==> k.script(i).busy > 0
    modifies k
    ensures fd < 0 || fd >= FD_SETSIZE ==>
              r == -1 && errno == EINVAL && k.calls == old(k.calls) && k.turn == old(k.turn) && k.clock == old(k.clock)
    ensures 0 <= fd < FD_SETSIZE ==>
              Waited(k, old(k.calls), old(k.turn), old(k.clock), endSec, endUsec, r, errno)
  {
    hide TimeLeftAt, Made, Tried, Now;
    if fd < 0 || fd >= FD_SETSIZE {
      return -1, EINVAL;
    }
    ghost var before, from, clock := k.calls, k.turn, k.clock;
    ghost var n := 0;
    MadeNone(k, endSec, endUsec);
    var left, reply := Round(k, endSec, endUsec, before, from, clock, n);
    if left == -1 {
      MadeAll(k, before, from, clock, endSec, endUsec, n);
      return -1, ETIME;
    }
    while reply == Interrupted
      invariant Made(k, before, from, clock, endSec, endUsec, n + 1)
      invariant k.clock + k.script(from + n + 1).idle == Now(k.script, from, clock, n + 1)
      invariant reply == k.script(from + n).reply && Now(k.script, from, clock, n) < (endSec + 2) * MILLION
      decreases (endSec + 2) * MILLION - Now(k.script, from, clock, n)
    {
      n := n + 1;
      NowAdvances(k.script, from, clock, n);
      left, reply := Round(k, endSec, endUsec, before, from, clock, n);
      if left == -1 {
        MadeAll(k, before, from, clock, endSec, endUsec, n);
        return -1, ETIME;
      }
    }
    MadeAll(k, before, from, clock, endSec, endUsec, n + 1);
    match reply {
      case TimedOut => return -1, ETIME;
      case Failed(code) => return -1, Other(code);
      case Ready => return 0, Unset;
    }
  }
}
