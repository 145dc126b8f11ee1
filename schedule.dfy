/** The start schedule of StartProviders: the k-th thread in `providerThreads.Values` order is
    handed to a one-shot Timer whose due time is `i * delay` milliseconds, where the loop
    counter i starts at 0 and grows by 1000 per thread, both in C# `int` arithmetic. With the
    delay in seconds, i * delay is k * delay seconds written in milliseconds. */
module Schedule {
  import opened Int32
  import opened Collaborators

  /** i at the k-th iteration: 0, then `i += 1000` each time round. */
  function Counter(k: nat): int32 {
    Wrap32(1000 * k)
  }

  /** One `i += 1000`. */
  lemma CounterStep(k: nat)
    ensures Wrap32(Counter(k) + 1000) == Counter(k + 1)
  {
    WrapAdd(1000 * k, 1000);
  }

  /** The dueTime argument of the k-th timer. */
  function DueTime(k: nat, delay: int32): int32 {
    Wrap32(Counter(k) * delay)
  }

  /** `new Timer(callback, state, dueTime, Timeout.Infinite)` accepts a dueTime of zero or more,
      or Timeout.Infinite (-1); any other negative dueTime throws ArgumentOutOfRangeException. */
  predicate TimerAccepts(dueTime: int) {
    dueTime >= 0 || dueTime == -1
  }

  /** The first of n timers whose due time the Timer refuses, or n when it accepts all. */
  function FirstRejected(n: nat, delay: int32): (k: nat)
    ensures k <= n
    ensures forall j :: 0 <= j < k ==> TimerAccepts(DueTime(j, delay))
    ensures k < n ==> !TimerAccepts(DueTime(k, delay))
    decreases n
  {
    if n == 0 then 0
    else
      var p := FirstRejected(n - 1, delay);
      if p < n - 1 || !TimerAccepts(DueTime(n - 1, delay)) then p else n
  }

  /** The timers StartProviders arms for `threads`, in order, before it finishes or throws. */
  function Arming(threads: seq<Worker>, delay: int32): (timers: seq<Call>)
    ensures |timers| == FirstRejected(|threads|, delay)
    ensures forall k :: 0 <= k < |timers| ==> timers[k] == ArmTimer(threads[k], DueTime(k, delay))
  {
    seq(FirstRejected(|threads|, delay), k requires 0 <= k < FirstRejected(|threads|, delay) => ArmTimer(threads[k], DueTime(k, delay)))
  }

  /** i and i * delay are multiples of 1000, so no due time is ever Timeout.Infinite: every
      timer that is armed does fire. */
  lemma DueTimeNeverInfinite(k: nat, delay: int32)
    ensures DueTime(k, delay) != -1
  {
    var h := WrapEven(500 * k);
    assert Counter(k) == 2 * h;
    MulAssoc(2, h, delay);
    var g := WrapEven(h * delay);
    assert DueTime(k, delay) == 2 * g;
  }

  /** As long as nothing overflows, the counter is 1000 * k. */
  lemma CounterExact(k: nat)
    requires 1000 * k < 0x8000_0000
    ensures Counter(k) == 1000 * k
  {
  }

  /** While (k * delay) seconds fit in an int as milliseconds, the k-th due time is exactly
      k * delay seconds. */
  lemma ScheduleInSeconds(k: nat, delay: int32)
    requires 0 <= delay
    requires 1000 * (k * delay) < 0x8000_0000
    ensures DueTime(k, delay) == 1000 * (k * delay)
  {
    var ms := 1000 * (k * delay);
    if delay > 0 {
      MulMonotone(k, 1, delay);
      CounterExact(k);
      var c := Counter(k);
      assert c * delay == ms by {
        MulAssoc(1000, k, delay);
      }
      assert DueTime(k, delay) == Wrap32(ms);
    } else {
      var c := Counter(k);
      assert c * delay == 0;
      assert DueTime(k, delay) == Wrap32(0);
    }
  }

  /** For a delay of zero or more, and no overflow, due times never decrease from one thread
      to the next. */
  lemma ScheduleMonotone(k1: nat, k2: nat, delay: int32)
    requires 0 <= delay && k1 <= k2
    requires 1000 * (k2 * delay) < 0x8000_0000
    ensures 0 <= DueTime(k1, delay) <= DueTime(k2, delay)
  {
    MulMonotoneLeft(k1, k2, delay);
    ScheduleInSeconds(k1, delay);
    ScheduleInSeconds(k2, delay);
  }

  /** The last of n threads is due in time: 1000 * ((n - 1) * delay) fits in an int. */
  predicate LastDueFits(n: nat, delay: int32) {
    n == 0 || 1000 * ((n - 1) * delay) < 0x8000_0000
  }

  /** For a delay of zero or more whose last due time fits in an int, every thread gets its
      timer: exactly one timer per thread, the k-th due k * delay seconds after start. */
  lemma ArmingAll(threads: seq<Worker>, delay: int32)
    requires 0 <= delay
    requires LastDueFits(|threads|, delay)
    ensures var timers := Arming(threads, delay);
            && |timers| == |threads|
            && forall k :: 0 <= k < |threads| ==>
                 timers[k].ArmTimer? && timers[k].thread == threads[k] && timers[k].dueTime == 1000 * (k * delay)
  {
    AllAccepted(threads, delay);
    var timers := Arming(threads, delay);
    forall k | 0 <= k < |threads|
      ensures timers[k].ArmTimer? && timers[k].thread == threads[k] && timers[k].dueTime == 1000 * (k * delay)
    {
      var _ := AcceptedBelow(k, |threads| - 1, delay);
    }
  }

  /** Under the same bound, no timer is refused. */
  lemma AllAccepted(threads: seq<Worker>, delay: int32)
    requires 0 <= delay
    requires LastDueFits(|threads|, delay)
    ensures FirstRejected(|threads|, delay) == |threads|
  {
    forall k | 0 <= k < |threads|
      ensures TimerAccepts(DueTime(k, delay))
    {
      var _ := AcceptedBelow(k, |threads| - 1, delay);
    }
  }

  /** When the m-th due time fits in an int, the k-th for k <= m is k * delay seconds, and
      so is accepted. */
  lemma AcceptedBelow(k: nat, m: nat, delay: int32) returns (ms: int)
    requires 0 <= delay && k <= m
    requires 1000 * (m * delay) < 0x8000_0000
    ensures ms == 1000 * (k * delay)
    ensures 0 <= DueTime(k, delay) == ms
  {
    ms := 1000 * (k * delay);
    MulMonotoneLeft(k, m, delay);
    ScheduleInSeconds(k, delay);
  }

  /** When the second timer is refused, StartProviders throws having armed only the first. */
  lemma OnlyFirstArmed(threads: seq<Worker>, delay: int32)
    requires |threads| >= 2
    requires !TimerAccepts(DueTime(1, delay))
    ensures Arming(threads, delay) == [ArmTimer(threads[0], 0)]
  {
    assert Counter(0) == 0;
    assert DueTime(0, delay) == 0;
    var k := FirstRejected(|threads|, delay);
    assert k == 1;
  }

  /** A delay from -2147483 to -1, for which 1000 * delay does not overflow, is refused by the
      second timer: only the first thread is armed, and StartProviders throws. */
  lemma NegativeDelayArmsOnlyFirst(threads: seq<Worker>, delay: int32)
    requires |threads| >= 2
    requires -2147483 <= delay < 0
    ensures Arming(threads, delay) == [ArmTimer(threads[0], 0)]
  {
    assert Counter(1) == 1000;
    assert DueTime(1, delay) == 1000 * delay;
    OnlyFirstArmed(threads, delay);
  }

  /** The delay 2147484 seconds, whose thousandfold overflows an int, wraps the second due
      time to a negative one: with two or more threads StartProviders throws. */
  lemma OverflowingDelayArmsOnlyFirst(threads: seq<Worker>)
    requires |threads| >= 2
    ensures DueTime(1, 2147484) == -2147483296
    ensures Arming(threads, 2147484) == [ArmTimer(threads[0], 0)]
  {
    assert Counter(1) == 1000;
    assert Counter(1) * 2147484 == 2147484000;
    assert Wrap32(2147484000) == -2147483296;
    OnlyFirstArmed(threads, 2147484);
  }

  /** Other overflowing delays wrap to a due time of either sign: with -2147484 s the second
      due time wraps to a positive one and with 4294968 s to 704 ms, and both timers are armed. */
  lemma WrappedDelayArmsBoth(t0: Worker, t1: Worker)
    ensures DueTime(1, -2147484) == 2147483296
    ensures Arming([t0, t1], -2147484) == [ArmTimer(t0, 0), ArmTimer(t1, 2147483296)]
    ensures DueTime(1, 4294968) == 704
    ensures Arming([t0, t1], 4294968) == [ArmTimer(t0, 0), ArmTimer(t1, 704)]
  {
    assert Counter(0) == 0 && Counter(1) == 1000;
    assert DueTime(0, -2147484) == 0 && DueTime(0, 4294968) == 0;
    assert Wrap32(-2147484000) == 2147483296;
    assert Wrap32(4294968000) == 704;
    assert FirstRejected(2, -2147484) == 2;
    assert FirstRejected(2, 4294968) == 2;
  }

  lemma MulAssoc(a: int, b: int, c: int)
    ensures (a * b) * c == a * (b * c)
  {
  }

  lemma MulMonotone(a: nat, b: nat, c: nat)
    requires b <= c
    ensures a * b <= a * c
  {
  }

  lemma MulMonotoneLeft(a: nat, b: nat, c: nat)
    requires a <= b
    ensures 0 <= a * c <= b * c
  {
  }
}
