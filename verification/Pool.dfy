/** pool.go under every interleaving: any number of callers, one atomic step at a time. */
module Pool {
  import opened Bytes
  import opened Streams
  import opened Resp
  import opened Commands
  import opened Exchange
  import opened CutReplies
  import opened Faults

  datatype Config = Config(poolSize: nat, bufSize: nat)

  predicate Valid(cfg: Config) { cfg.bufSize >= 16 }

  datatype Resume = ToScan | ToWait | ToClose | ToOut

  /** Where a caller is. A caller in Dialing has counted a connection it does not have yet; one in
      Overshot or DialFailed has counted one it will not get. */
  datatype Pc =
    | Out | Scanning | Missed | Dialing | DialFailed | Overshot | Waiting
    | Holding(cn: nat) | Deciding(cn: nat, err: Option<Error>, buffered: nat)
    | Putting(cn: nat) | Sending(cn: nat) | Removing(cn: nat) | Evicting(cn: nat, resume: Resume)
    | Closing | Draining

  /** `size` is the atomic counter, `idle` the channel, `dropped` counts connections that were
      neither pooled nor uncounted when their caller let go of them. */
  datatype State = State(size: int, closed: bool, idle: seq<nat>, pcs: seq<Pc>, wires: seq<Wire>, dropped: nat)

  datatype Step =
    | EnterGet | TakeIdle(stale: bool) | Miss | Reserve | DialOk | DialFail | Undo | Timeout
    | Converse(work: Work, script: Script, answer: seq<byte>, seen: Tape, sent: bool, after: Wire, got: Got, buffered: nat)
    | GiveBack(unread: nat) | Decide | KeepForMulti | CheckPut | Send | CheckRemove | Evict
    | StartClose | CheckSize

  function After(resume: Resume): Pc {
    match resume
    case ToScan => Scanning
    case ToWait => Waiting
    case ToClose => Closing
    case ToOut => Out
  }

  function Move(s: State, i: nat, pc: Pc): State
    requires i < |s.pcs|
  {
    s.(pcs := s.pcs[i := pc])
  }

  predicate Takes(pc: Pc) { pc.Scanning? || pc.Waiting? || pc.Draining? }

  /** Receiving from the channel: first(), wait() and the loop of Close. */
  function Taken(pc: Pc, cn: nat, stale: bool): Pc
    requires Takes(pc)
  {
    if pc.Draining? then Evicting(cn, ToClose)
    else if stale then Evicting(cn, if pc.Scanning? then ToScan else ToWait)
    else Holding(cn)
  }

  /** What a caller may do next, where it is. */
  ghost predicate Enabled(cfg: Config, s: State, i: nat, st: Step)
    requires Valid(cfg)
  {
    i < |s.pcs| && var pc := s.pcs[i];
    match st
    case EnterGet => pc.Out? && !s.closed
    case TakeIdle(_) => Takes(pc) && s.idle != []
    case Miss => pc.Scanning? && s.idle == []
    case Reserve => pc.Missed?
    case DialOk => pc.Dialing?
    case DialFail => pc.Dialing?
    case Undo => pc.DialFailed? || pc.Overshot?
    case Timeout => pc.Waiting?
    case Converse(work, script, answer, seen, sent, after, got, buffered) =>
      && pc.Holding? && pc.cn < |s.wires| && buffered <= |after.tape.now|
      && Exchanged(s.wires[pc.cn], after, work, answer, seen, sent, got, cfg.bufSize)
    case GiveBack(unread) => pc.Holding? && pc.cn < |s.wires| && unread <= |s.wires[pc.cn].tape.now|
    case Decide => pc.Deciding?
    case KeepForMulti => pc.Deciding? && MultiFate(pc.err, pc.buffered) == Kept
    case CheckPut => pc.Putting?
    case Send => pc.Sending? && |s.idle| < cfg.poolSize
    case CheckRemove => pc.Removing?
    case Evict => pc.Evicting?
    case StartClose => pc.Out? && !s.closed
    case CheckSize => pc.Closing?
  }

  function Fire(cfg: Config, s: State, i: nat, st: Step): State
    requires Valid(cfg) && Enabled(cfg, s, i, st)
  {
    var pc := s.pcs[i];
    match st
    case EnterGet => Move(s, i, Scanning)
    case TakeIdle(stale) => Move(s.(idle := s.idle[1..]), i, Taken(pc, s.idle[0], stale))
    case Miss => Move(s, i, Missed)
    case Reserve => Move(s.(size := s.size + 1), i, if s.size + 1 <= cfg.poolSize then Dialing else Overshot)
    case DialOk => Move(s.(wires := s.wires + [Wire(Tape([], []))]), i, Holding(|s.wires|))
    case DialFail => Move(s, i, DialFailed)
    case Undo => Move(s.(size := s.size - 1), i, if pc.Overshot? then Waiting else Out)
    case Timeout => Move(s, i, Out)
    case Converse(_, _, _, _, _, after, got, buffered) =>
      Move(s.(wires := s.wires[pc.cn := after]), i, Deciding(pc.cn, got.err, buffered))
    case GiveBack(unread) => Move(s, i, Deciding(pc.cn, None, unread))
    case Decide => (match ReleaseFate(pc.err, pc.buffered)
      case Leaked => Move(s.(dropped := s.dropped + 1), i, Out)
      case Closed => Move(s, i, Removing(pc.cn))
      case Pooled => Move(s, i, Putting(pc.cn)))
    case KeepForMulti => Move(s, i, Holding(pc.cn))
    case CheckPut => if s.closed then Move(s.(dropped := s.dropped + 1), i, Out) else Move(s, i, Sending(pc.cn))
    case Send => Move(s.(idle := s.idle + [pc.cn]), i, Out)
    case CheckRemove =>
      if s.closed then Move(s.(dropped := s.dropped + 1), i, Out) else Move(s, i, Evicting(pc.cn, ToOut))
    case Evict => Move(s.(size := s.size - 1), i, After(pc.resume))
    case StartClose => Move(s.(closed := true), i, Closing)
    case CheckSize => Move(s, i, if s.size < 1 then Out else Draining)
  }

  // --- Capacity ----------------------------------------------------------------------------------

  function Owned(pc: Pc): Option<nat> {
    match pc
    case Holding(cn) => Some(cn)
    case Deciding(cn, _, _) => Some(cn)
    case Putting(cn) => Some(cn)
    case Sending(cn) => Some(cn)
    case Removing(cn) => Some(cn)
    case Evicting(cn, _) => Some(cn)
    case _ => None
  }

  /** A connection that exists, or is being dialled, or was being dialled a moment ago. */
  function Real(pc: Pc): nat { if Owned(pc).Some? || pc.Dialing? || pc.DialFailed? then 1 else 0 }

  function Over(pc: Pc): nat { if pc.Overshot? then 1 else 0 }

  function Reals(pcs: seq<Pc>): nat { if pcs == [] then 0 else Real(pcs[0]) + Reals(pcs[1..]) }

  function Overs(pcs: seq<Pc>): nat { if pcs == [] then 0 else Over(pcs[0]) + Overs(pcs[1..]) }

  lemma {:induction false} Recount(pcs: seq<Pc>, i: nat, pc: Pc)
    requires i < |pcs|
    ensures Reals(pcs[i := pc]) == Reals(pcs) - Real(pcs[i]) + Real(pc)
    ensures Overs(pcs[i := pc]) == Overs(pcs) - Over(pcs[i]) + Over(pc)
  {
    hide Real, Over;
    if i > 0 {
      Recount(pcs[1..], i - 1, pc);
      assert pcs[i := pc][1..] == pcs[1..][i - 1 := pc];
    } else {
      assert pcs[0 := pc][1..] == pcs[1..];
    }
  }

  /** The counter is exact: real connections, reservations in flight and dropped connections. It may
      overshoot; the connections themselves never do. */
  predicate Capacity(cfg: Config, s: State) {
    && s.size == |s.idle| + Reals(s.pcs) + Overs(s.pcs) + s.dropped
    && |s.idle| + Reals(s.pcs) <= cfg.poolSize
  }

  lemma CapacityKept(cfg: Config, s: State, i: nat, st: Step)
    requires Valid(cfg) && Capacity(cfg, s) && Enabled(cfg, s, i, st)
    ensures Capacity(cfg, Fire(cfg, s, i, st))
  {
    hide Reals, Overs, Exchanged;
    var s' := Fire(cfg, s, i, st);
    Recount(s.pcs, i, s'.pcs[i]);
    assert s'.pcs == s.pcs[i := s'.pcs[i]];
  }

  /** Put never blocks on the channel. */
  lemma SendNeverBlocks(cfg: Config, s: State, i: nat)
    requires Valid(cfg) && Capacity(cfg, s) && i < |s.pcs| && s.pcs[i].Sending?
    ensures Enabled(cfg, s, i, Send)
  {
    Recount(s.pcs, i, Out);
  }

  // --- Ownership ---------------------------------------------------------------------------------

  /** No connection is in the channel twice, and none is with two callers or with one and in it. */
  predicate Ownership(s: State) {
    && (forall k :: 0 <= k < |s.idle| ==> s.idle[k] < |s.wires|)
    && (forall j, k :: 0 <= j < k < |s.idle| ==> s.idle[j] != s.idle[k])
    && (forall i :: 0 <= i < |s.pcs| && Owned(s.pcs[i]).Some? ==>
          Owned(s.pcs[i]).value < |s.wires| && Owned(s.pcs[i]).value !in s.idle)
    && (forall i, j :: 0 <= i < j < |s.pcs| && Owned(s.pcs[i]).Some? ==> Owned(s.pcs[i]) != Owned(s.pcs[j]))
  }

  /** Everything but taking, dialling and sending leaves a caller with what it had, or nothing. */
  lemma PlainMove(s: State, s': State, i: nat, pc: Pc)
    requires Ownership(s) && i < |s.pcs| && s'.pcs == s.pcs[i := pc]
    requires s'.idle == s.idle && |s'.wires| == |s.wires|
    requires Owned(pc) == None || Owned(pc) == Owned(s.pcs[i])
    ensures Ownership(s')
  {
    hide Owned;
  }

  lemma TakeMove(s: State, s': State, i: nat, pc: Pc)
    requires Ownership(s) && i < |s.pcs| && s'.pcs == s.pcs[i := pc] && s.idle != []
    requires s'.idle == s.idle[1..] && |s'.wires| == |s.wires| && Owned(pc) == Some(s.idle[0])
    ensures Ownership(s')
  {
    hide Owned;
    assert forall c <- s'.idle :: c in s.idle;
    assert s.idle[0] in s.idle && s.idle[0] !in s'.idle;
  }

  lemma DialMove(s: State, s': State, i: nat, pc: Pc)
    requires Ownership(s) && i < |s.pcs| && s'.pcs == s.pcs[i := pc]
    requires s'.idle == s.idle && |s'.wires| == |s.wires| + 1 && Owned(pc) == Some(|s.wires|)
    ensures Ownership(s')
  {
    hide Owned;
  }

  lemma SendMove(s: State, s': State, i: nat)
    requires Ownership(s) && i < |s.pcs| && s.pcs[i].Sending? && s'.pcs == s.pcs[i := Out]
    requires s'.idle == s.idle + [s.pcs[i].cn] && |s'.wires| == |s.wires|
    ensures Ownership(s')
  {
    assert Owned(s.pcs[i]) == Some(s.pcs[i].cn) && Owned(Out) == None;
    hide Owned;
    assert s.pcs[i].cn !in s.idle;
  }

  lemma OwnershipKept(cfg: Config, s: State, i: nat, st: Step)
    requires Valid(cfg) && Ownership(s) && Enabled(cfg, s, i, st)
    ensures Ownership(Fire(cfg, s, i, st))
  {
    hide Exchanged, ReleaseFate, Ownership;
    var s' := Fire(cfg, s, i, st);
    match st
    case TakeIdle(_) => TakeMove(s, s', i, s'.pcs[i]);
    case DialOk => DialMove(s, s', i, s'.pcs[i]);
    case Send => SendMove(s, s', i);
    case _ => PlainMove(s, s', i, s'.pcs[i]);
  }

  // --- Staying in step with the server -------------------------------------------------------------

  /** The batch failed, and the connection it leaves behind does not go back to the pool. */
  predicate KeptOutBy(err: Option<Error>, buffered: int) { err.Some? && ReleaseFate(err, buffered) != Pooled }

  /** A connection that could still be handed to somebody has consumed every reply it was sent. */
  predicate CallerInStep(s: State, pc: Pc) {
    match pc
    case Holding(cn) => cn < |s.wires| && Healthy(s.wires[cn])
    case Putting(cn) => cn < |s.wires| && Healthy(s.wires[cn])
    case Sending(cn) => cn < |s.wires| && Healthy(s.wires[cn])
    case Deciding(cn, err, buffered) => cn < |s.wires| && (Healthy(s.wires[cn]) || KeptOutBy(err, buffered))
    case _ => true
  }

  predicate InStep(s: State) {
    && (forall k :: 0 <= k < |s.idle| ==> s.idle[k] < |s.wires| && Healthy(s.wires[s.idle[k]]))
    && (forall i :: 0 <= i < |s.pcs| ==> CallerInStep(s, s.pcs[i]))
  }

  /** The server serves every batch, a read that fails before the whole answer has come is the failure of the
      batch, and a Multi is not used any more after a panic. */
  ghost predicate Fair(cfg: Config, s: State, i: nat, st: Step)
    requires Valid(cfg) && Enabled(cfg, s, i, st)
  {
    && (st.Converse? ==>
          && Serves(st.script, st.work, cfg.bufSize) && st.answer == Answer(st.script)
          && (st.sent ==> st.seen.now == st.answer || KeptOutBy(st.got.err, st.buffered)))
    && (st.KeepForMulti? ==> s.pcs[i].err != Some(Panic))
  }

  /** The commands of the batch were told exactly the server's answers to them. */
  ghost predicate ToldItsOwn(cfg: Config, st: Step)
    requires Valid(cfg) && st.Converse?
  {
    Serves(st.script, st.work, cfg.bufSize) && st.got == Expected(st.script, st.work)
  }

  /** Nobody receives another command's reply. */
  lemma OwnReplies(cfg: Config, s: State, i: nat, st: Step)
    requires Valid(cfg) && InStep(s) && Enabled(cfg, s, i, st) && st.Converse? && Fair(cfg, s, i, st)
    requires st.sent && st.seen.now == st.answer
    ensures ToldItsOwn(cfg, st) && Healthy(st.after)
  {
    hide Reads, Answer, Serves, Expected, Flat;
    assert CallerInStep(s, s.pcs[i]);
    WholeAnswer(st.script, st.seen);
    ServedInStep(st.script, st.work, Tape([], st.seen.later), cfg.bufSize);
    NothingOwed(s.wires[s.pcs[i].cn].tape, st.answer, st.seen);
  }

  lemma WholeAnswer(script: Script, seen: Tape)
    requires seen.now == Answer(script)
    ensures seen == Ahead(Answer(script), Tape([], seen.later))
  {
    hide Answer;
    Units(Answer(script));
  }

  lemma NothingOwed(before: Tape, answer: seq<byte>, seen: Tape)
    requires Flat(before) == [] && Flat(seen) == Flat(before) + answer && seen.now == answer
    ensures Flat(Tape([], seen.later)) == []
  {
    Units(answer);
    assert |Flat(seen)| == |answer| + |Flatten(seen.later)|;
    Units(Flatten(seen.later));
  }

  /** After a fair batch the connection is in step, or its error keeps it out of the pool. */
  lemma FairOutcome(cfg: Config, s: State, i: nat, st: Step)
    requires Valid(cfg) && InStep(s) && Enabled(cfg, s, i, st) && st.Converse? && Fair(cfg, s, i, st)
    ensures Healthy(st.after) || KeptOutBy(st.got.err, st.buffered)
  {
    hide Reads, Answer, Flat, Serves, InStep, Expected;
    if st.sent && st.seen.now == st.answer { OwnReplies(cfg, s, i, st); }
  }

  lemma InStepKept(cfg: Config, s: State, i: nat, st: Step)
    requires Valid(cfg) && Ownership(s) && InStep(s) && Enabled(cfg, s, i, st) && Fair(cfg, s, i, st)
    ensures InStep(Fire(cfg, s, i, st))
  {
    hide Healthy, InStep, Enabled;
    if st.Converse? {
      FairOutcome(cfg, s, i, st);
      ConversationKept(cfg, s, i, st);
    } else {
      QuietStepKept(cfg, s, i, st);
    }
  }

  lemma ConversationKept(cfg: Config, s: State, i: nat, st: Step)
    requires Valid(cfg) && Ownership(s) && InStep(s) && Enabled(cfg, s, i, st) && st.Converse?
    requires Healthy(st.after) || KeptOutBy(st.got.err, st.buffered)
    ensures InStep(Fire(cfg, s, i, st))
  {
    hide Exchanged;
    var s', cn := Fire(cfg, s, i, st), s.pcs[i].cn;
    assert forall k :: 0 <= k < |s.idle| ==> s.idle[k] != cn;
    forall k | 0 <= k < |s'.pcs| ensures CallerInStep(s', s'.pcs[k]) {
      if k != i {
        assert CallerInStep(s, s.pcs[k]) && s'.pcs[k] == s.pcs[k] && Owned(s.pcs[k]) != Some(cn);
      }
    }
  }

  lemma QuietStepKept(cfg: Config, s: State, i: nat, st: Step)
    requires Valid(cfg) && InStep(s) && Enabled(cfg, s, i, st) && !st.Converse?
    requires st.KeepForMulti? ==> s.pcs[i].err != Some(Panic)
    ensures InStep(Fire(cfg, s, i, st))
  {
    OwnPlaceKept(cfg, s, i, st);
    hide Exchanged, Healthy, ReleaseFate, MultiFate, KeptOutBy;
    var s' := Fire(cfg, s, i, st);
    assert s.wires <= s'.wires;
    forall k | 0 <= k < |s'.pcs| && k != i ensures CallerInStep(s', s'.pcs[k]) {
      assert CallerInStep(s, s.pcs[k]) && s'.pcs[k] == s.pcs[k];
    }
  }

  lemma OwnPlaceKept(cfg: Config, s: State, i: nat, st: Step)
    requires Valid(cfg) && InStep(s) && Enabled(cfg, s, i, st) && !st.Converse?
    requires st.KeepForMulti? ==> s.pcs[i].err != Some(Panic)
    ensures var s' := Fire(cfg, s, i, st);
      CallerInStep(s', s'.pcs[i]) && forall k :: 0 <= k < |s'.idle| ==> s'.idle[k] < |s.wires| && Healthy(s.wires[s'.idle[k]])
  {
    hide Exchanged;
    assert CallerInStep(s, s.pcs[i]);
  }

  // --- Whole runs ----------------------------------------------------------------------------------

  datatype Act = Act(caller: nat, step: Step)

  function Init(callers: nat): State {
    State(0, false, [], seq(callers, _ => Out), [], 0)
  }

  ghost predicate IsRun(cfg: Config, callers: nat, states: seq<State>, acts: seq<Act>)
    requires Valid(cfg)
  {
    && |states| == |acts| + 1 && states[0] == Init(callers)
    && forall k :: 0 <= k < |acts| ==> Follows(cfg, states[k], acts[k], states[k + 1])
  }

  ghost predicate Follows(cfg: Config, s: State, a: Act, s': State)
    requires Valid(cfg)
  {
    Enabled(cfg, s, a.caller, a.step) && s' == Fire(cfg, s, a.caller, a.step)
  }

  lemma {:induction false} NothingCounted(callers: nat)
    ensures Reals(Init(callers).pcs) == 0 == Overs(Init(callers).pcs)
  {
    if callers > 0 {
      assert Init(callers).pcs[1..] == Init(callers - 1).pcs;
      NothingCounted(callers - 1);
    }
  }

  /** Safety of the pool: in every state of every run with any number of callers, the counter is
      exact, at most poolSize connections exist, and each has at most one owner. */
  lemma {:induction false} PoolIsSafe(cfg: Config, callers: nat, states: seq<State>, acts: seq<Act>, k: nat)
    requires Valid(cfg) && IsRun(cfg, callers, states, acts) && k < |states|
    ensures Capacity(cfg, states[k]) && Ownership(states[k])
  {
    if k == 0 {
      NothingCounted(callers);
    } else {
      PoolIsSafe(cfg, callers, states, acts, k - 1);
      var a := acts[k - 1];
      assert Follows(cfg, states[k - 1], a, states[k - 1 + 1]);
      CapacityKept(cfg, states[k - 1], a.caller, a.step);
      OwnershipKept(cfg, states[k - 1], a.caller, a.step);
    }
  }

  /** Every step of a run is fair. */
  ghost predicate FairRun(cfg: Config, callers: nat, states: seq<State>, acts: seq<Act>)
    requires Valid(cfg) && IsRun(cfg, callers, states, acts)
  {
    forall j :: 0 <= j < |acts| ==> FairAct(cfg, states[j], acts[j], states[j + 1])
  }

  ghost predicate FairAct(cfg: Config, s: State, a: Act, s': State)
    requires Valid(cfg)
  {
    Follows(cfg, s, a, s') && Fair(cfg, s, a.caller, a.step)
  }

  /** Reply synchronisation: in every run in which every batch is served and every read that fails in it is its
      failure, every idle connection has consumed exactly what it was sent. */
  lemma {:induction false} PoolStaysInStep(cfg: Config, callers: nat, states: seq<State>, acts: seq<Act>, k: nat)
    requires Valid(cfg) && IsRun(cfg, callers, states, acts) && k < |states|
    requires FairRun(cfg, callers, states, acts)
    ensures InStep(states[k])
  {
    if k > 0 {
      PoolStaysInStep(cfg, callers, states, acts, k - 1);
      PoolIsSafe(cfg, callers, states, acts, k - 1);
      var a := acts[k - 1];
      assert FairAct(cfg, states[k - 1], a, states[k - 1 + 1]);
      InStepKept(cfg, states[k - 1], a.caller, a.step);
    }
  }

  /** So in such a run a batch whose answer arrives before a read fails is told exactly its own replies. */
  lemma NoCrossTalk(cfg: Config, callers: nat, states: seq<State>, acts: seq<Act>, k: nat)
    requires Valid(cfg) && IsRun(cfg, callers, states, acts) && k < |acts|
    requires FairRun(cfg, callers, states, acts)
    requires acts[k].step.Converse? && acts[k].step.sent && acts[k].step.seen.now == acts[k].step.answer
    ensures ToldItsOwn(cfg, acts[k].step)
  {
    hide InStep, Enabled, Fair, ToldItsOwn;
    PoolStaysInStep(cfg, callers, states, acts, k);
    assert FairAct(cfg, states[k], acts[k], states[k + 1]);
    OwnReplies(cfg, states[k], acts[k].caller, acts[k].step);
  }

  // --- Which faults show ---------------------------------------------------------------------------

  /** The answer is cut off at a place where that shows, whatever arrives later, unless a tie is met; or it is
      cut off anywhere, nothing more arrives while the batch is read, and the place does not poison the
      connection. */
  ghost predicate FaultsShow(work: Work, script: Script, at: Place, gap: Tape, seen: Tape, cap: nat)
    requires cap >= 16 && Serves(script, work, cap)
  {
    && IsPlace(script, at) && seen == Cut(Came(script, at), gap)
    && ((NoticedAt(script, work, at) && Reads(work, seen, cap).Some?)
        || (CutShort(script, work, at, gap, seen) && !Poisoned(script, work, at)))
  }

  /** A batch that is served, and whose answer comes as a whole or is cut off like that, is a fair step. */
  lemma ShownIsFair(cfg: Config, s: State, i: nat, st: Step, at: Place, gap: Tape)
    requires Valid(cfg) && Enabled(cfg, s, i, st) && st.Converse?
    requires Serves(st.script, st.work, cfg.bufSize) && st.answer == Answer(st.script)
    requires !st.sent || st.seen.now == st.answer || FaultsShow(st.work, st.script, at, gap, st.seen, cfg.bufSize)
    ensures Fair(cfg, s, i, st)
  {
    hide Reads, Answer, Poisoned, NoticedAt, Came, Suits, Queues;
    if st.sent && st.seen.now != st.answer {
      if NoticedAt(st.script, st.work, at) && Reads(st.work, st.seen, cfg.bufSize).Some? {
        FaultShows(st.script, st.work, at, gap, cfg.bufSize);
      } else {
        ShortOutcome(cfg, st.script, st.work, at, gap, st.seen, st.got, st.after);
      }
    }
  }

  lemma ShortOutcome(cfg: Config, script: Script, work: Work, at: Place, gap: Tape, seen: Tape, got: Got, after: Wire)
    requires Valid(cfg) && Serves(script, work, cfg.bufSize) && CutShort(script, work, at, gap, seen)
    requires Reads(work, seen, cfg.bufSize) in {None, Some((got, after.tape))}
    ensures after.tape.now == [] && Flat(after.tape) == Flat(gap) && got.err != Some(Panic)
    ensures ReleaseFate(got.err, 0) == Pooled <==> Poisoned(script, work, at)
  {
    hide Reads, Answer, Flat, Poisoned, Serves, Still, Came;
    CutExchange(script, work, at, gap, cfg.bufSize);
  }

  /** A batch, and what becomes of its connection. */
  function Settle(cfg: Config, s: State, i: nat, st: Step): State
    requires Valid(cfg) && Enabled(cfg, s, i, st) && st.Converse?
  {
    Fire(cfg, Fire(cfg, s, i, st), i, Decide)
  }

  lemma DecidedInStep(cfg: Config, s: State, i: nat, st: Step)
    requires Valid(cfg) && Ownership(s) && InStep(s) && Enabled(cfg, s, i, st) && st.Converse? && !Healthy(st.after)
    ensures InStep(Settle(cfg, s, i, st)) <==> ReleaseFate(st.got.err, st.buffered) != Pooled
  {
    hide Exchanged, Healthy;
    var cn := s.pcs[i].cn;
    var s1 := Fire(cfg, s, i, st);
    var s2 := Fire(cfg, s1, i, Decide);
    assert forall k :: 0 <= k < |s.pcs| && k != i ==> Owned(s.pcs[k]) != Some(cn);
    assert forall k :: 0 <= k < |s.idle| ==> s.idle[k] != cn && s2.wires[s.idle[k]] == s.wires[s.idle[k]];
    forall k | 0 <= k < |s2.pcs| && k != i ensures CallerInStep(s2, s2.pcs[k]) {
      assert CallerInStep(s, s.pcs[k]) && s2.pcs[k] == s.pcs[k];
    }
    assert InStep(s2) <==> CallerInStep(s2, s2.pcs[i]);
  }

  /** Which faults poison the pool. A batch is served, its answer is cut off somewhere, and nothing more
      arrives while it is read: the connection is put back out of step, or a Multi keeps it, exactly when the
      place, and what the commands have been told up to it, make it so. */
  lemma PoisonedExactlyWhen(cfg: Config, s: State, i: nat, st: Step, at: Place, gap: Tape)
    requires Valid(cfg) && Ownership(s) && InStep(s) && Enabled(cfg, s, i, st) && st.Converse? && st.sent
    requires Serves(st.script, st.work, cfg.bufSize) && st.answer == Answer(st.script)
    requires CutShort(st.script, st.work, at, gap, st.seen)
    ensures InStep(Settle(cfg, s, i, st)) <==> !Poisoned(st.script, st.work, at)
    ensures Enabled(cfg, Fire(cfg, s, i, st), i, KeepForMulti) <==> Poisoned(st.script, st.work, at)
  {
    hide Reads, Answer, Flat, Poisoned, Serves, Still, Came, InStep, Ownership, ReleaseFate;
    assert CallerInStep(s, s.pcs[i]) by { HolderInStep(s, i); }
    ShortOutcome(cfg, st.script, st.work, at, gap, st.seen, st.got, st.after);
    assert [] + st.answer == st.answer;
    Owed(st.script, at, gap);
    DecidedInStep(cfg, s, i, st);
    KeptAlike(st.got.err);
  }

  /** With nothing buffered and no panic a Multi keeps a connection exactly when the pool would take it. */
  lemma KeptAlike(err: Option<Error>)
    requires err != Some(Panic)
    ensures MultiFate(err, 0) == Kept <==> ReleaseFate(err, 0) == Pooled
  {
  }

  lemma HolderInStep(s: State, i: nat)
    requires InStep(s) && i < |s.pcs|
    ensures CallerInStep(s, s.pcs[i])
  {
  }

  /** The next user of a connection that owes a reply is told that reply, and not its own. */
  lemma OwedReplyIsTold(w: Wire, owed: Reply, kind: Kind, answer: seq<byte>, seen: Tape, after: Wire, got: Got, cap: nat)
    requires cap >= 16 && Flat(w.tape) == Encode(owed) && Suits(owed, kind, cap)
    requires Exchanged(w, after, Pipe([kind]), answer, seen, true, got, cap) && seen == Tape(Encode(owed) + answer, [])
    ensures got.verdicts == [MeaningFor(owed, kind)] && after.tape == Tape(answer, [])
  {
    hide Encode, Suits, MeaningFor, ReadCmd, BatchError;
    assert seen == Ahead(Encode(owed), Tape(answer, []));
    LastCmdReads(owed, kind, Tape(answer, []), cap, []);
  }

  /** The pipeline of an error, then a fault: whoever holds a connection may do this to it. */
  function HiddenStep(after: Wire, got: Got): Step {
    Converse(Pipe([AnyCmd, IntCmd]), Plain([REFUSED, Int(7)]), Answer(Plain([REFUSED, Int(7)])),
             Cut(Encode(REFUSED), QUIET), true, after, got, 0)
  }

  lemma HiddenFault(cfg: Config, s: State, i: nat) returns (after: Wire, got: Got)
    requires Valid(cfg) && Ownership(s) && InStep(s) && i < |s.pcs| && s.pcs[i].Holding?
    ensures var st := HiddenStep(after, got);
      && Enabled(cfg, s, i, st) && got.err == Some(Redis([69])) && Flat(after.tape) == Encode(Int(7))
      && !InStep(Settle(cfg, s, i, st))
  {
    hide ReadBatch, Answer, Flat, Poisoned, Serves, InStep, Ownership, CutShort, Encode, BatchError;
    assert CallerInStep(s, s.pcs[i]) by { HolderInStep(s, i); }
    HiddenPlace(cfg.bufSize);
    HiddenError(cfg.bufSize);
    var script, work, at, seen := Plain([REFUSED, Int(7)]), Pipe([AnyCmd, IntCmd]), InReplies(1, []), Cut(Encode(REFUSED), QUIET);
    var out := ReadBatch(seen, cfg.bufSize, [AnyCmd, IntCmd], []);
    got, after := Got(BatchError(out.verdicts), out.verdicts), Wire(out.rest);
    ShortOutcome(cfg, script, work, at, QUIET, seen, got, after);
    assert [] + Answer(script) == Answer(script);
    PoisonedExactlyWhen(cfg, s, i, HiddenStep(after, got), at, QUIET);
  }
}
