/**
 The zygote crash-loop counter (loader/src/ptracer/monitor.cpp:344-364). Times are whole seconds of the monotonic
 clock.
 */
module CrashLoop {

  const MAX_RETRY_COUNT: nat := 5
  const RETRY_WINDOW: int := 30

  datatype Counter = Counter(last: int, count: nat)

  const NEW_COUNTER := Counter(0, 0)

  /** The counter after one more zygote start. */
  function Tick(c: Counter, now: int): Counter
  {
    Counter(now, if now - c.last < RETRY_WINDOW then c.count + 1 else 0)
  }

  function After(starts: seq<int>): Counter
  {
    if starts == [] then NEW_COUNTER else Tick(After(starts[..|starts| - 1]), starts[|starts| - 1])
  }

  /** The time between start `i` and the one before it; time 0 stands before the first start. */
  function Gap(starts: seq<int>, i: nat): int
    requires i < |starts|
  {
    starts[i] - if i == 0 then 0 else starts[i - 1]
  }

  /** The last `k` gaps exist and are all short. */
  predicate LastGapsShort(starts: seq<int>, k: nat)
  {
    && |starts| >= k
    && forall i :: |starts| - k <= i < |starts| ==> Gap(starts, i) < RETRY_WINDOW
  }

  /** There were five starts or more, and each of the last five came within 30 seconds of the one before. */
  predicate CrashLooping(starts: seq<int>)
  {
    |starts| >= 5 && forall i :: |starts| - 5 <= i < |starts| ==> Gap(starts, i) < 30
  }

  /** The counter is the length of the trailing run of short gaps. */
  lemma {:induction false} CountMeasuresShortRun(starts: seq<int>, k: nat)
    ensures starts != [] ==> After(starts).last == starts[|starts| - 1]
    ensures After(starts).count >= k <==> LastGapsShort(starts, k)
  {
    if starts == [] || k == 0 {
      if starts != [] {
        CountMeasuresShortRun(starts[..|starts| - 1], 0);
      }
    } else {
      var before := starts[..|starts| - 1];
      CountMeasuresShortRun(before, k - 1);
      assert After(before).last == if before == [] then 0 else before[|before| - 1];
      assert forall i :: 0 <= i < |before| ==> Gap(before, i) == Gap(starts, i);
      if LastGapsShort(starts, k) {
        assert Gap(starts, |starts| - 1) < RETRY_WINDOW;
      }
    }
  }

  /** For every sequence of starts the test is true exactly when the last five gaps are each under 30 seconds. */
  lemma StopTestIsCrashLoop(starts: seq<int>)
    ensures After(starts).count >= MAX_RETRY_COUNT <==> CrashLooping(starts)
  {
    CountMeasuresShortRun(starts, MAX_RETRY_COUNT);
  }
}
