/** The extract limiter: an additive-increase, multiplicative-decrease concurrency
    ceiling, sampled from host pressure and moved up by queue depth. */
module Backpressure {
  import opened Common

  const FALLBACK_MAX_CONCURRENCY := 4
  const HISTORY_SAMPLES := 32

  datatype Settings = Settings(
    enabled: bool, minConcurrency: int, maxConcurrency: int, workerConcurrency: int,
    highLoad: real, lowLoad: real, sampleSeconds: real, decreaseFactor: real, cooldownSeconds: real)

  function Floor(s: Settings): int { Max(1, s.minConcurrency) }

  function MaxCeiling(s: Settings): int {
    Max(Floor(s), if s.maxConcurrency > 0 then s.maxConcurrency
                  else if s.workerConcurrency > 0 then s.workerConcurrency
                  else FALLBACK_MAX_CONCURRENCY)
  }

  datatype Action = Contract | Expand

  datatype Sample = Sample(pressure: real, depth: Option<int>, ceiling: int, inFlight: int, tripped: bool,
                           action: Option<Action>)

  // The whole state of a limiter.
  datatype Limiter = Limiter(
    inFlight: int, tripped: bool, ceiling: Option<int>, depth: Option<int>, lastSample: real,
    lastContract: real, lastExpand: real, throttled: nat, contractions: nat, expansions: nat, history: seq<Sample>)

  const IDLE := Limiter(0, false, None, None, 0.0, 0.0, 0.0, 0, 0, 0, [])

  // --- The control loop as a function ----------------------------------------

  function Due(l: Limiter, s: Settings, now: real): bool { now - l.lastSample >= s.sampleSeconds }

  // A first reading starts wide open; later ones re-clamp to the bounds.
  function Clamped(c: Option<int>, s: Settings): int {
    match c
    case None => MaxCeiling(s)
    case Some(x) => Min(Max(x, Floor(s)), MaxCeiling(s))
  }

  function Tripped(tripped: bool, pressure: real, s: Settings): bool {
    if tripped then pressure > s.lowLoad else pressure >= s.highLoad
  }

  function ContractTarget(c: int, s: Settings): int { Max(Floor(s), Truncate(c as real * s.decreaseFactor)) }

  function Contracted(c: int, lastContract: real, s: Settings, now: real): Option<int> {
    if c <= Floor(s) then None
    else if now - lastContract < s.sampleSeconds then None
    else if ContractTarget(c, s) >= c then None
    else Some(ContractTarget(c, s))
  }

  function Expanded(c: int, l: Limiter, s: Settings, now: real): Option<int> {
    if now - l.lastContract < s.cooldownSeconds then None
    else if now - l.lastExpand < s.sampleSeconds then None
    else if l.depth == None || l.depth == Some(0) then None
    else if Min(MaxCeiling(s), c + 1) <= c then None
    else Some(Min(MaxCeiling(s), c + 1))
  }

  function Move(l: Limiter, s: Settings, now: real, pressure: real): Option<Action> {
    var c := Clamped(l.ceiling, s);
    if pressure >= s.highLoad then
      if Contracted(c, l.lastContract, s, now).Some? then Some(Contract) else None
    else if !Tripped(l.tripped, pressure, s) && pressure <= s.lowLoad && c < MaxCeiling(s) then
      if Expanded(c, l, s, now).Some? then Some(Expand) else None
    else None
  }

  function Push(h: seq<Sample>, x: Sample): seq<Sample> {
    var g := h + [x];
    if |g| > HISTORY_SAMPLES then g[|g| - HISTORY_SAMPLES..] else g
  }

  // What one reading changes, beyond the sample time and the clamp.
  ghost function Reacted(l: Limiter, s: Settings, now: real, p: real): Limiter
    requires l.ceiling.Some?
  {
    var c := l.ceiling.value;
    var action := Move(l, s, now, p);
    var c' := match action
              case Some(Contract) => ContractTarget(c, s)
              case Some(Expand) => Min(MaxCeiling(s), c + 1)
              case None => c;
    var t := Tripped(l.tripped, p, s);
    l.(tripped := t, ceiling := Some(c'),
       lastContract := if action == Some(Contract) then now else l.lastContract,
       lastExpand := if action == Some(Expand) then now else l.lastExpand,
       contractions := if action == Some(Contract) then l.contractions + 1 else l.contractions,
       expansions := if action == Some(Expand) then l.expansions + 1 else l.expansions,
       history := Push(l.history, Sample(p, l.depth, c', l.inFlight, t, action)))
  }

  ghost function Sampled(l: Limiter, s: Settings, now: real, pressure: Option<real>): Limiter {
    if !Due(l, s, now) then l
    else if pressure.None? then l.(lastSample := now, tripped := false, ceiling := None)
    else Reacted(l.(lastSample := now, ceiling := Some(Clamped(l.ceiling, s))), s, now, pressure.value)
  }

  ghost function Acquired(l: Limiter, s: Settings, now: real, pressure: Option<real>): (Limiter, bool) {
    if !s.enabled then (l.(inFlight := l.inFlight + 1), true)
    else
      var l' := Sampled(l, s, now, pressure);
      if l'.ceiling.Some? && l'.inFlight >= l'.ceiling.value then (l'.(throttled := l'.throttled + 1), false)
      else (l'.(inFlight := l'.inFlight + 1), true)
  }

  function Released(l: Limiter): Limiter { l.(inFlight := Max(0, l.inFlight - 1)) }

  // --- The limiter -----------------------------------------------------------

  class ExtractLimiter {
    var inFlight: int
    var tripped: bool
    var ceiling: Option<int>
    var depth: Option<int>
    var lastSample: real
    var lastContract: real
    var lastExpand: real
    var throttledTotal: nat
    var contractionsTotal: nat
    var expansionsTotal: nat
    var history: seq<Sample>

    ghost function View(): Limiter
      reads this
    {
      Limiter(inFlight, tripped, ceiling, depth, lastSample, lastContract, lastExpand,
              throttledTotal, contractionsTotal, expansionsTotal, history)
    }

    constructor ()
      ensures View() == IDLE
    {
      inFlight, tripped, ceiling, depth := 0, false, None, None;
      lastSample, lastContract, lastExpand := 0.0, 0.0, 0.0;
      throttledTotal, contractionsTotal, expansionsTotal, history := 0, 0, 0, [];
    }

    // The backlog probe answers some time after the sample that asked.
    method DepthArrives(reading: Option<int>)
      modifies this
      ensures View() == old(View()).(depth := reading)
    {
      depth := reading;
    }

    method TakeSample(s: Settings, now: real, pressure: Option<real>)
      modifies this
      ensures View() == Sampled(old(View()), s, now, pressure)
    {
      if now - lastSample < s.sampleSeconds {
        return;
      }
      lastSample := now;
      if pressure.None? {
        tripped := false;
        ceiling := None;
        return;
      }
      ceiling := Some(if ceiling.None? then MaxCeiling(s) else Min(Max(ceiling.value, Floor(s)), MaxCeiling(s)));
      Control(s, now, pressure.value);
    }

    // The reaction to a reading, with the ceiling already clamped.
    method Control(s: Settings, now: real, p: real)
      requires ceiling.Some? && Clamped(ceiling, s) == ceiling.value
      modifies this
      ensures View() == Reacted(old(View()), s, now, p)
    {
      if tripped {
        if p <= s.lowLoad {
          tripped := false;
        }
      } else if p >= s.highLoad {
        tripped := true;
      }
      var action := None;
      if p >= s.highLoad {
        action := ContractCeiling(s, now);
      } else if !tripped && p <= s.lowLoad && ceiling.value < MaxCeiling(s) {
        action := ExpandCeiling(s, now);
      }
      history := Push(history, Sample(p, depth, ceiling.value, inFlight, tripped, action));
    }

    method ContractCeiling(s: Settings, now: real) returns (action: Option<Action>)
      requires ceiling.Some?
      modifies this`ceiling, this`lastContract, this`contractionsTotal
      ensures var target := Contracted(old(ceiling).value, old(lastContract), s, now);
              if target.Some? then
                action == Some(Contract) && ceiling == target && lastContract == now
                && contractionsTotal == old(contractionsTotal) + 1
              else
                action == None && ceiling == old(ceiling) && lastContract == old(lastContract)
                && contractionsTotal == old(contractionsTotal)
    {
      if ceiling.value <= Floor(s) || now - lastContract < s.sampleSeconds {
        return None;
      }
      var target := ContractTarget(ceiling.value, s);
      if target >= ceiling.value {
        return None;
      }
      ceiling := Some(target);
      lastContract := now;
      contractionsTotal := contractionsTotal + 1;
      return Some(Contract);
    }

    method ExpandCeiling(s: Settings, now: real) returns (action: Option<Action>)
      requires ceiling.Some?
      modifies this`ceiling, this`lastExpand, this`expansionsTotal
      ensures var target := Expanded(old(ceiling).value, old(View()), s, now);
              if target.Some? then
                action == Some(Expand) && ceiling == target && lastExpand == now
                && expansionsTotal == old(expansionsTotal) + 1
              else
                action == None && ceiling == old(ceiling) && lastExpand == old(lastExpand)
                && expansionsTotal == old(expansionsTotal)
    {
      if now - lastContract < s.cooldownSeconds || now - lastExpand < s.sampleSeconds {
        return None;
      }
      if depth == None || depth == Some(0) {
        return None;
      }
      var target := Min(MaxCeiling(s), ceiling.value + 1);
      if target <= ceiling.value {
        return None;
      }
      ceiling := Some(target);
      lastExpand := now;
      expansionsTotal := expansionsTotal + 1;
      return Some(Expand);
    }

    method TryAcquire(s: Settings, now: real, pressure: Option<real>) returns (granted: bool)
      modifies this
      ensures (View(), granted) == Acquired(old(View()), s, now, pressure)
    {
      if !s.enabled {
        inFlight := inFlight + 1;
        return true;
      }
      TakeSample(s, now, pressure);
      if ceiling.Some? && inFlight >= ceiling.value {
        throttledTotal := throttledTotal + 1;
        return false;
      }
      inFlight := inFlight + 1;
      return true;
    }

    method Release()
      modifies this
      ensures View() == Released(old(View()))
    {
      inFlight := Max(0, inFlight - 1);
    }
  }

  // --- Runs with fixed settings ----------------------------------------------

  datatype Op = TryAcquire(now: real, pressure: Option<real>) | Release | DepthArrives(reading: Option<int>)

  ghost function Apply(l: Limiter, op: Op, s: Settings): Limiter {
    match op
    case TryAcquire(now, pressure) => Acquired(l, s, now, pressure).0
    case Release => Released(l)
    case DepthArrives(reading) => l.(depth := reading)
  }

  // The move an operation makes, if any.
  ghost function MoveOf(l: Limiter, op: Op, s: Settings): Option<Action> {
    if op.TryAcquire? && s.enabled && op.pressure.Some? && Due(l, s, op.now)
    then Move(l, s, op.now, op.pressure.value) else None
  }

  ghost function After(ops: seq<Op>, n: nat, s: Settings): Limiter
    requires n <= |ops|
  {
    if n == 0 then IDLE else Apply(After(ops, n - 1, s), ops[n - 1], s)
  }

  ghost predicate Inv(l: Limiter, s: Settings) {
    && 0 <= l.inFlight
    && (l.ceiling.Some? ==> Floor(s) <= l.ceiling.value <= MaxCeiling(s))
    && l.lastContract <= l.lastSample && l.lastExpand <= l.lastSample
    && |l.history| <= HISTORY_SAMPLES
  }

  lemma ApplyKeeps(l: Limiter, op: Op, s: Settings)
    requires Inv(l, s) && s.sampleSeconds >= 0.0
    ensures Inv(Apply(l, op, s), s)
    ensures l.ceiling.Some? && !(op.TryAcquire? && op.pressure == None) ==> Apply(l, op, s).ceiling.Some?
  {
  }

  // Bounds on the ceiling over every run; once there is a reading there is a ceiling
  // for as long as the host reports a pressure.
  lemma {:induction false} RunKeeps(ops: seq<Op>, n: nat, s: Settings)
    requires n <= |ops| && s.sampleSeconds >= 0.0
    ensures Inv(After(ops, n, s), s)
  {
    if n > 0 {
      RunKeeps(ops, n - 1, s);
      ApplyKeeps(After(ops, n - 1, s), ops[n - 1], s);
    }
  }

  // A grant of an active limiter fits under its ceiling, and an idle worker is never
  // refused: every refusal means a job is already running.
  lemma GrantsFit(ops: seq<Op>, n: nat, s: Settings, now: real, pressure: Option<real>)
    requires n <= |ops| && s.sampleSeconds >= 0.0 && s.enabled
    ensures var (l, granted) := Acquired(After(ops, n, s), s, now, pressure);
            && (granted && l.ceiling.Some? ==> l.inFlight <= l.ceiling.value)
            && (!granted ==> l.inFlight >= 1 && l.ceiling.Some? && l.inFlight >= l.ceiling.value)
  {
    RunKeeps(ops, n, s);
    ApplyKeeps(After(ops, n, s), TryAcquire(now, pressure), s);
  }

  // --- Jobs counted from outside ---------------------------------------------

  // Whether operation k was told to go ahead.
  ghost predicate Granted(ops: seq<Op>, k: nat, s: Settings)
    requires k < |ops|
  {
    ops[k].TryAcquire? && Acquired(After(ops, k, s), s, ops[k].now, ops[k].pressure).1
  }

  // The jobs granted and not yet released, by counting verdicts and releases alone.
  ghost function Outstanding(ops: seq<Op>, n: nat, s: Settings): nat
    requires n <= |ops|
  {
    if n == 0 then 0
    else
      var jobs := Outstanding(ops, n - 1, s);
      if ops[n - 1].Release? then (if jobs == 0 then 0 else jobs - 1)
      else if Granted(ops, n - 1, s) then jobs + 1
      else jobs
  }

  ghost function Refusals(ops: seq<Op>, n: nat, s: Settings): nat
    requires n <= |ops|
  {
    if n == 0 then 0
    else Refusals(ops, n - 1, s) + if ops[n - 1].TryAcquire? && !Granted(ops, n - 1, s) then 1 else 0
  }

  // The limiter's own counters are those counts.
  lemma {:induction false} CountsJobs(ops: seq<Op>, n: nat, s: Settings)
    requires n <= |ops|
    ensures After(ops, n, s).inFlight == Outstanding(ops, n, s) && After(ops, n, s).throttled == Refusals(ops, n, s)
  {
    if n > 0 {
      CountsJobs(ops, n - 1, s);
    }
  }

  // So over every run of an active limiter a job is refused if and only if as many as the
  // ceiling are granted and not yet released, and a grant never makes them more.
  lemma NeverOverCeiling(ops: seq<Op>, k: nat, s: Settings)
    requires k < |ops| && ops[k].TryAcquire? && s.enabled
    ensures var ceiling := After(ops, k + 1, s).ceiling;
            && (!Granted(ops, k, s) <==> ceiling.Some? && Outstanding(ops, k, s) >= ceiling.value)
            && (Granted(ops, k, s) && ceiling.Some? ==> Outstanding(ops, k + 1, s) <= ceiling.value)
  {
    CountsJobs(ops, k, s);
    CountsJobs(ops, k + 1, s);
  }

  // A limiter switched off refuses nothing and still counts.
  lemma DisabledGrants(ops: seq<Op>, k: nat, s: Settings)
    requires k < |ops| && ops[k].TryAcquire? && !s.enabled
    ensures Granted(ops, k, s) && Outstanding(ops, k + 1, s) == Outstanding(ops, k, s) + 1
  {
  }

  // --- The bounds, the gate and the moves ------------------------------------

  lemma BoundsMean(s: Settings)
    ensures Floor(s) >= 1 && Floor(s) >= s.minConcurrency && (Floor(s) == 1 || Floor(s) == s.minConcurrency)
    ensures MaxCeiling(s) >= Floor(s)
    ensures MaxCeiling(s) > Floor(s) ==>
              if s.maxConcurrency > 0 then MaxCeiling(s) == s.maxConcurrency
              else if s.workerConcurrency > 0 then MaxCeiling(s) == s.workerConcurrency
              else MaxCeiling(s) == 4
    ensures MaxCeiling(s) >= s.maxConcurrency && (s.maxConcurrency <= 0 ==> MaxCeiling(s) >= s.workerConcurrency)
    ensures s.maxConcurrency <= 0 && s.workerConcurrency <= 0 ==> MaxCeiling(s) >= 4
  {
  }

  // Operation k takes a sample.
  ghost predicate Samples(ops: seq<Op>, k: nat, s: Settings)
    requires k < |ops|
  {
    ops[k].TryAcquire? && ops[k].now - After(ops, k, s).lastSample >= s.sampleSeconds
  }

  // A sample is stamped; nothing else touches the stamp.
  lemma SampleStamped(ops: seq<Op>, k: nat, s: Settings)
    requires k < |ops| && s.enabled
    ensures After(ops, k + 1, s).lastSample == if Samples(ops, k, s) then ops[k].now else After(ops, k, s).lastSample
    ensures !Samples(ops, k, s) ==>
              && After(ops, k + 1, s).ceiling == After(ops, k, s).ceiling
              && After(ops, k + 1, s).tripped == After(ops, k, s).tripped
              && After(ops, k + 1, s).history == After(ops, k, s).history
  {
  }

  // What operation k tells the hysteresis.
  datatype Signal = Quiet | Up | Hold | Down

  ghost function SignalAt(ops: seq<Op>, k: nat, s: Settings): Signal
    requires k < |ops|
  {
    if !Samples(ops, k, s) then Quiet
    else if ops[k].pressure.None? || ops[k].pressure.value <= s.lowLoad then Down
    else if ops[k].pressure.value >= s.highLoad then Up
    else Hold
  }

  ghost function Signals(ops: seq<Op>, s: Settings): seq<Signal> {
    seq(|ops|, k requires 0 <= k < |ops| => SignalAt(ops, k, s))
  }

  // The last of the first n signals that is up or down is up.
  ghost predicate Latched(signals: seq<Signal>, n: nat)
    requires n <= |signals|
  {
    exists k: nat :: k < n && signals[k] == Up && forall j: nat | k < j < n :: signals[j] != Down
  }

  ghost predicate LatchStep(signals: seq<Signal>, trips: seq<bool>, k: nat)
    requires k < |signals| < |trips|
  {
    trips[k + 1] == (signals[k] == Up || (signals[k] != Down && trips[k]))
  }

  lemma {:induction false} LatchExactly(signals: seq<Signal>, trips: seq<bool>, n: nat)
    requires n <= |signals| < |trips| && !trips[0] && forall k: nat | k < |signals| :: LatchStep(signals, trips, k)
    ensures trips[n] <==> Latched(signals, n)
  {
    if n > 0 {
      LatchExactly(signals, trips, n - 1);
      assert LatchStep(signals, trips, n - 1);
      if Latched(signals, n - 1) {
        var k: nat :| k < n - 1 && signals[k] == Up && forall j: nat | k < j < n - 1 :: signals[j] != Down;
        assert signals[n - 1] != Down ==> forall j: nat | k < j < n :: signals[j] != Down;
      }
    }
  }

  lemma TripStep(l: Limiter, op: Op, s: Settings)
    requires s.enabled && s.lowLoad < s.highLoad
    ensures Apply(l, op, s).tripped <==>
              if !(op.TryAcquire? && op.now - l.lastSample >= s.sampleSeconds) then l.tripped
              else op.pressure.Some?
                   && (op.pressure.value >= s.highLoad || (op.pressure.value > s.lowLoad && l.tripped))
  {
  }

  lemma TripSignal(ops: seq<Op>, k: nat, s: Settings)
    requires k < |ops| && s.enabled && s.lowLoad < s.highLoad
    ensures After(ops, k + 1, s).tripped
            <==> SignalAt(ops, k, s) == Up || (SignalAt(ops, k, s) != Down && After(ops, k, s).tripped)
  {
    TripStep(After(ops, k, s), ops[k], s);
  }

  // Hysteresis: the limiter is tripped exactly when some sample reached the high mark and
  // none since has come down to the low one, or found no pressure to read.
  lemma TrippedExactly(ops: seq<Op>, n: nat, s: Settings)
    requires n <= |ops| && s.enabled && s.lowLoad < s.highLoad
    ensures After(ops, n, s).tripped <==> Latched(Signals(ops, s), n)
  {
    var signals := Signals(ops, s);
    var trips := seq(|ops| + 1, k requires 0 <= k <= |ops| => After(ops, k, s).tripped);
    forall k: nat | k < |signals| ensures LatchStep(signals, trips, k) {
      TripSignal(ops, k, s);
    }
    LatchExactly(signals, trips, n);
  }

  // Every pressure read so far, in order.
  ghost function Readings(ops: seq<Op>, n: nat, s: Settings): seq<real>
    requires n <= |ops|
  {
    if n == 0 then []
    else
      Readings(ops, n - 1, s)
      + if Samples(ops, n - 1, s) && ops[n - 1].pressure.Some? then [ops[n - 1].pressure.value] else []
  }

  ghost predicate AreLatest(history: seq<Sample>, readings: seq<real>) {
    && |history| == Min(32, |readings|)
    && forall k | 0 <= k < |history| :: history[k].pressure == readings[|readings| - |history| + k]
  }

  lemma PushKeepsLatest(history: seq<Sample>, readings: seq<real>, x: Sample)
    requires AreLatest(history, readings)
    ensures AreLatest(Push(history, x), readings + [x.pressure])
  {
  }

  lemma SampleRecorded(l: Limiter, op: Op, s: Settings)
    requires s.enabled
    ensures var sampled := op.TryAcquire? && op.now - l.lastSample >= s.sampleSeconds && op.pressure.Some?;
            if sampled then
              exists x: Sample :: x.pressure == op.pressure.value && Apply(l, op, s).history == Push(l.history, x)
            else Apply(l, op, s).history == l.history
  {
    if op.TryAcquire? && op.now - l.lastSample >= s.sampleSeconds && op.pressure.Some? {
      var l' := l.(lastSample := op.now, ceiling := Some(Clamped(l.ceiling, s)));
      var after := Reacted(l', s, op.now, op.pressure.value);
      var x := Sample(op.pressure.value, l.depth, after.ceiling.value, l.inFlight, after.tripped,
                      Move(l', s, op.now, op.pressure.value));
      assert after.history == Push(l.history, x);
    }
  }

  // The history is the last 32 readings.
  lemma {:induction false} HistoryIsLatest(ops: seq<Op>, n: nat, s: Settings)
    requires n <= |ops| && s.enabled
    ensures AreLatest(After(ops, n, s).history, Readings(ops, n, s))
  {
    if n > 0 {
      HistoryIsLatest(ops, n - 1, s);
      SampleRecorded(After(ops, n - 1, s), ops[n - 1], s);
      if Samples(ops, n - 1, s) && ops[n - 1].pressure.Some? {
        var x: Sample :| x.pressure == ops[n - 1].pressure.value
                         && After(ops, n, s).history == Push(After(ops, n - 1, s).history, x);
        PushKeepsLatest(After(ops, n - 1, s).history, Readings(ops, n - 1, s), x);
      }
    }
  }

  // --- The moves -------------------------------------------------------------

  // A contraction to the target x takes what it must and no more: the whole part of x, or
  // the floor, or nothing when x is no lower.
  ghost predicate JustEnough(c: int, c': int, x: real, floor: int) {
    && floor <= c' <= c
    && (c' < c ==> x < c as real)
    && (c' > floor ==> c' == c || c' as real <= x)
    && (c' < c && x >= 0.0 ==> c' as real > x - 1.0)
    && (c' == c ==> c == floor || x >= c as real)
  }

  lemma TruncateIs(x: real)
    ensures x >= 0.0 ==> x - 1.0 < Truncate(x) as real <= x
    ensures x < 0.0 ==> x <= Truncate(x) as real <= 0.0
  {
  }

  lemma ContractsJustEnough(c: int, s: Settings, lastContract: real, now: real)
    requires c >= Floor(s) && now - lastContract >= s.sampleSeconds
    ensures var moved := Contracted(c, lastContract, s, now);
            JustEnough(c, if moved.Some? then moved.value else c, c as real * s.decreaseFactor, Floor(s))
  {
    TruncateIs(c as real * s.decreaseFactor);
  }

  // Where a sample starts from: the first reading opens the ceiling to the maximum, later
  // ones keep it in the bounds.
  ghost function StartOf(l: Limiter, s: Settings): int { if l.ceiling.Some? then l.ceiling.value else MaxCeiling(s) }

  lemma StartInBounds(l: Limiter, s: Settings)
    requires Inv(l, s)
    ensures Clamped(l.ceiling, s) == StartOf(l, s) && Floor(s) <= StartOf(l, s) <= MaxCeiling(s)
  {
  }

  // A high sample contracts to the target, just enough.
  lemma HighSample(l: Limiter, s: Settings, now: real, p: real)
    requires Inv(l, s) && s.sampleSeconds >= 0.0 && now - l.lastSample >= s.sampleSeconds && p >= s.highLoad
    ensures var c := StartOf(l, s);
            && Sampled(l, s, now, Some(p)).ceiling.Some?
            && JustEnough(c, Sampled(l, s, now, Some(p)).ceiling.value, c as real * s.decreaseFactor, Floor(s))
  {
    StartInBounds(l, s);
    ContractsJustEnough(StartOf(l, s), s, l.lastContract, now);
  }

  // A sample below the high mark expands by one exactly when it is low, the cooldown is
  // over, work is known to wait and there is room.
  lemma LowSample(l: Limiter, s: Settings, now: real, p: real)
    requires Inv(l, s) && s.sampleSeconds >= 0.0 && now - l.lastSample >= s.sampleSeconds
    requires p < s.highLoad && s.lowLoad < s.highLoad
    ensures var c := StartOf(l, s);
            var grows := p <= s.lowLoad && now - l.lastContract >= s.cooldownSeconds
                         && l.depth.Some? && l.depth.value != 0 && c < MaxCeiling(s);
            Sampled(l, s, now, Some(p)).ceiling == Some(if grows then c + 1 else c)
  {
    StartInBounds(l, s);
  }

  // Relief: every sample that reads low, with work waiting and the cooldown over, gives
  // one slot back, until the ceiling is at its maximum.
  ghost predicate Relieved(ops: seq<Op>, i: nat, n: nat, s: Settings)
    requires i <= n <= |ops|
  {
    forall k: nat | i <= k < n :: Samples(ops, k, s) ==> Roomy(After(ops, k, s), ops[k], s)
  }

  ghost predicate Roomy(l: Limiter, op: Op, s: Settings)
    requires op.TryAcquire?
  {
    && op.pressure.Some? && op.pressure.value <= s.lowLoad && op.now - l.lastContract >= s.cooldownSeconds
    && l.depth.Some? && l.depth.value != 0
  }

  lemma ReliefStep(l: Limiter, op: Op, s: Settings)
    requires Inv(l, s) && l.ceiling.Some? && s.enabled && s.sampleSeconds >= 0.0 && s.lowLoad < s.highLoad
    requires op.TryAcquire? && op.now - l.lastSample >= s.sampleSeconds ==> Roomy(l, op, s)
    ensures Apply(l, op, s).ceiling
            == if op.TryAcquire? && op.now - l.lastSample >= s.sampleSeconds
               then Some(Min(MaxCeiling(s), l.ceiling.value + 1)) else l.ceiling
  {
    if op.TryAcquire? && op.now - l.lastSample >= s.sampleSeconds {
      LowSample(l, s, op.now, op.pressure.value);
    }
    CeilingMoves(l, op, s);
  }

  lemma {:induction false} ReliefGrows(ops: seq<Op>, i: nat, n: nat, s: Settings)
    requires i <= n <= |ops| && s.enabled && s.sampleSeconds >= 0.0 && s.lowLoad < s.highLoad
    requires After(ops, i, s).ceiling.Some? && Relieved(ops, i, n, s)
    ensures After(ops, n, s).ceiling
            == Some(Min(MaxCeiling(s), After(ops, i, s).ceiling.value + SampleCount(ops, i, n, s)))
  {
    RunKeeps(ops, i, s);
    if i < n {
      assert Relieved(ops, i, n - 1, s);
      ReliefGrows(ops, i, n - 1, s);
      RunKeeps(ops, n - 1, s);
      assert Samples(ops, n - 1, s) ==> Roomy(After(ops, n - 1, s), ops[n - 1], s);
      ReliefStep(After(ops, n - 1, s), ops[n - 1], s);
    }
  }

  // The dwell guards inside contract and expand are dead code: the sample gate
  // already keeps consecutive moves a sample apart.
  lemma DwellGuardsNeverFire(ops: seq<Op>, n: nat, s: Settings, now: real)
    requires n <= |ops| && s.sampleSeconds >= 0.0
    ensures Due(After(ops, n, s), s, now) ==>
              now - After(ops, n, s).lastContract >= s.sampleSeconds
              && now - After(ops, n, s).lastExpand >= s.sampleSeconds
  {
    RunKeeps(ops, n, s);
  }

  ghost predicate Monotonic(ops: seq<Op>) {
    forall i, j | 0 <= i < j < |ops| && ops[i].TryAcquire? && ops[j].TryAcquire? :: ops[i].now <= ops[j].now
  }

  ghost predicate Moves(ops: seq<Op>, i: nat, s: Settings, action: Action)
    requires i < |ops|
  {
    MoveOf(After(ops, i, s), ops[i], s) == Some(action)
  }

  // last_contract is no earlier than any contraction so far.
  lemma {:induction false} LastContractCovers(ops: seq<Op>, i: nat, n: nat, s: Settings)
    requires i < n <= |ops| && Monotonic(ops) && Moves(ops, i, s, Contract)
    ensures ops[i].now <= After(ops, n, s).lastContract
  {
    if n > i + 1 {
      LastContractCovers(ops, i, n - 1, s);
    }
  }

  // No expansion falls within the cooldown after any contraction.
  lemma CooldownRespected(ops: seq<Op>, i: nat, j: nat, s: Settings)
    requires i < j < |ops| && Monotonic(ops) && Moves(ops, i, s, Contract) && Moves(ops, j, s, Expand)
    ensures ops[j].now - ops[i].now >= s.cooldownSeconds
  {
    LastContractCovers(ops, i, j, s);
  }

  // --- Sustained pressure ----------------------------------------------------

  ghost function Power(f: real, k: nat): real { if k == 0 then 1.0 else Power(f, k - 1) * f }

  ghost predicate Below(c: int, x: real, floor: int) { c <= floor || c as real <= x }

  lemma ContractStep(l: Limiter, s: Settings, now: real, pressure: real)
    requires Inv(l, s) && l.ceiling.Some? && Due(l, s, now) && pressure >= s.highLoad && s.sampleSeconds >= 0.0
    ensures Sampled(l, s, now, Some(pressure)).ceiling.Some?
    ensures Below(Sampled(l, s, now, Some(pressure)).ceiling.value,
                  l.ceiling.value as real * s.decreaseFactor, Floor(s))
  {
    var c := l.ceiling.value;
    var y := c as real * s.decreaseFactor;
    if y < 0.0 {
      assert (-y).Floor >= 0;
    } else if Truncate(y) >= c {
      assert y >= c as real;
    }
  }

  lemma BelowScales(c: int, x: real, y: real, floor: int, f: real, c': int)
    requires Below(c, x, floor) && Below(c', c as real * f, floor) && y == x * f
    requires 1 <= floor <= c' <= c
    ensures Below(c', y, floor)
  {
    if f < 0.0 {
      assert c as real * f < 0.0;
    } else if c as real <= x {
      assert c as real * f <= x * f;
    }
  }

  ghost function Bound(start: real, s: Settings, k: nat): real { start * Power(s.decreaseFactor, k) }

  lemma PressureStep(l: Limiter, s: Settings, now: real, pressure: real, start: real, k: nat)
    requires Inv(l, s) && l.ceiling.Some? && Due(l, s, now) && pressure >= s.highLoad && s.sampleSeconds >= 0.0
    requires Below(l.ceiling.value, Bound(start, s, k), Floor(s))
    ensures var l' := Sampled(l, s, now, Some(pressure));
            Inv(l', s) && l'.ceiling.Some? && Below(l'.ceiling.value, Bound(start, s, k + 1), Floor(s))
  {
    var l' := Sampled(l, s, now, Some(pressure));
    ContractStep(l, s, now, pressure);
    SampleKeeps(l, s, now, pressure);
    Reassociate(start, Power(s.decreaseFactor, k), s.decreaseFactor);
    BelowScales(l.ceiling.value, Bound(start, s, k), Bound(start, s, k + 1), Floor(s), s.decreaseFactor,
                l'.ceiling.value);
  }

  lemma SampleKeeps(l: Limiter, s: Settings, now: real, pressure: real)
    requires Inv(l, s) && s.sampleSeconds >= 0.0
    ensures Inv(Sampled(l, s, now, Some(pressure)), s)
    ensures pressure >= s.highLoad && l.ceiling.Some? ==>
              Sampled(l, s, now, Some(pressure)).ceiling.Some?
              && Sampled(l, s, now, Some(pressure)).ceiling.value <= l.ceiling.value
  {
  }

  ghost function SampleCount(ops: seq<Op>, i: nat, n: nat, s: Settings): nat
    requires i <= n <= |ops|
  {
    if i == n then 0 else SampleCount(ops, i, n - 1, s) + if Samples(ops, n - 1, s) then 1 else 0
  }

  // Every sample taken by operations i to n - 1 reads a pressure at or above the high
  // mark. Releases, backlog answers and acquires between samples are arbitrary.
  ghost predicate Pressed(ops: seq<Op>, i: nat, n: nat, s: Settings)
    requires i <= n <= |ops|
  {
    forall k: nat | i <= k < n && Samples(ops, k, s) :: ops[k].pressure.Some? && ops[k].pressure.value >= s.highLoad
  }

  // k samples in a row at or above the high mark bring the ceiling to
  // max(floor, c * factor^k) or below, c being the ceiling before them.
  lemma {:induction false} PressureShrinks(ops: seq<Op>, i: nat, n: nat, s: Settings)
    requires i <= n <= |ops| && s.enabled && s.sampleSeconds >= 0.0
    requires After(ops, i, s).ceiling.Some? && Pressed(ops, i, n, s)
    ensures After(ops, n, s).ceiling.Some?
    ensures Below(After(ops, n, s).ceiling.value,
                  Bound(After(ops, i, s).ceiling.value as real, s, SampleCount(ops, i, n, s)), Floor(s))
  {
    if i < n {
      PressureShrinks(ops, i, n - 1, s);
      RunKeeps(ops, n - 1, s);
      if Samples(ops, n - 1, s) {
        PressureStep(After(ops, n - 1, s), s, ops[n - 1].now, ops[n - 1].pressure.value,
                     After(ops, i, s).ceiling.value as real, SampleCount(ops, i, n - 1, s));
      }
      CeilingMoves(After(ops, n - 1, s), ops[n - 1], s);
    }
  }

  // Only a sample moves the ceiling.
  lemma CeilingMoves(l: Limiter, op: Op, s: Settings)
    requires s.enabled
    ensures Apply(l, op, s).ceiling
            == if op.TryAcquire? && Due(l, s, op.now) then Sampled(l, s, op.now, op.pressure).ceiling else l.ceiling
  {
  }

  lemma Reassociate(a: real, b: real, c: real)
    ensures a * (b * c) == (a * b) * c
  {
  }
}
