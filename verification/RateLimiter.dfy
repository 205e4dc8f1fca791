/** rate_limit.go under every interleaving of one refill loop and many Check callers. */
module RateLimiter {

  datatype LoopPc = Asleep | Adding

  /** A Check call between its load and its compare-and-swap remembers the value it loaded. */
  datatype CheckPc = Idle | Loaded(v: int)

  datatype State = State(v: int, closed: bool, loop: LoopPc, checks: seq<CheckPc>, refills: nat, grants: nat)

  datatype Step = LoopLoad | LoopAdd | CheckLoad(i: nat) | CheckSwap(i: nat) | Close

  function Init(bucketSize: nat, callers: nat): State {
    State(bucketSize, false, Asleep, seq(callers, _ => Idle), 0, 0)
  }

  predicate Enabled(s: State, st: Step) {
    match st
    case LoopLoad => s.loop.Asleep? && !s.closed
    case LoopAdd => s.loop.Adding?
    case CheckLoad(i) => i < |s.checks| && s.checks[i].Idle?
    case CheckSwap(i) => i < |s.checks| && s.checks[i].Loaded?
    case Close => true
  }

  /** The refill loads and adds in two steps; a swap that finds another value than it loaded retries
      and one that finds the bucket empty when loading gives up. */
  function Fire(bucketSize: nat, s: State, st: Step): State
    requires Enabled(s, st)
  {
    match st
    case LoopLoad => if s.v < bucketSize then s.(loop := Adding) else s
    case LoopAdd => s.(v := s.v + 1, loop := Asleep, refills := s.refills + 1)
    case CheckLoad(i) => if s.v > 0 then s.(checks := s.checks[i := Loaded(s.v)]) else s
    case CheckSwap(i) =>
      if s.v == s.checks[i].v
      then s.(v := s.v - 1, grants := s.grants + 1, checks := s.checks[i := Idle])
      else s.(checks := s.checks[i := Idle])
    case Close => s.(closed := true)
  }

  predicate Inv(bucketSize: nat, s: State) {
    && 0 <= s.v <= bucketSize
    && (s.loop.Adding? ==> s.v < bucketSize)
    && s.v == bucketSize + s.refills - s.grants
    && forall i :: 0 <= i < |s.checks| && s.checks[i].Loaded? ==> s.checks[i].v > 0
  }

  ghost predicate IsRun(bucketSize: nat, callers: nat, states: seq<State>, steps: seq<Step>) {
    && |states| == |steps| + 1 && states[0] == Init(bucketSize, callers)
    && forall k :: 0 <= k < |steps| ==> Follows(bucketSize, states[k], steps[k], states[k + 1])
  }

  ghost predicate Follows(bucketSize: nat, s: State, st: Step, s': State) {
    Enabled(s, st) && s' == Fire(bucketSize, s, st)
  }

  /** The bucket never leaves its bounds although the refill's load and add are not atomic, and the
      number of grants is bounded by what the bucket started with and what was put in. */
  lemma {:induction false} GrantsAreBounded(bucketSize: nat, callers: nat, states: seq<State>, steps: seq<Step>, k: nat)
    requires IsRun(bucketSize, callers, states, steps) && k < |states|
    ensures Inv(bucketSize, states[k]) && states[k].grants <= bucketSize + states[k].refills
  {
    if k > 0 {
      GrantsAreBounded(bucketSize, callers, states, steps, k - 1);
      assert Follows(bucketSize, states[k - 1], steps[k - 1], states[k - 1 + 1]);
    }
  }
}
