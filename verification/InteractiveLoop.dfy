/**
  The interactive loop (src/main.rs:388-893), as far as it drives the scheduler: prompts
  typed by the user, one instruction of the picked context a turn, and the flag that says
  whether a generation is under way.
*/
module InteractiveLoop {
  import opened Prelude
  import opened Scheduling

  datatype Loop = Loop(sched: Sched, generating: bool)

  /** What an instruction does to the scheduler before its turn ends. */
  datatype Effect =
    | Nothing
    | Fork(p: Priority, pc: nat, root: nat)
    | Abort(target: CtxId)
    | Switch(band: Priority)

  /** A prompt, or a turn: its instruction cannot be fetched, halts, completes, or fails. */
  datatype LoopEvent =
    | Prompt(pc: nat, root: nat)
    | NoFetch
    | Halt
    | Complete(effect: Effect)
    | Fail

  /** `active_count` */
  function Active(s: Sched): set<CtxId> {
    set id | id in s.contexts && s.contexts[id].state != Terminated
  }

  ghost predicate AllEnded(s: Sched) {
    forall id :: id in s.contexts ==> s.contexts[id].state == Terminated
  }

  /** The guard of the branch that sets a terminated context 1 back to Ready without queueing it. */
  predicate Revives(l: Loop) {
    && !l.generating && |Active(l.sched)| > 0
    && CtxId(1) in l.sched.contexts && l.sched.contexts[CtxId(1)].state == Terminated
  }

  /** The scheduler when a prompt starts a generation. */
  function Started(l: Loop, pc: nat, root: nat): Sched {
    if |Active(l.sched)| == 0 then Create(l.sched, Green, pc, root)
    else if Revives(l) then l.sched.WithState(CtxId(1), Ready)
    else l.sched
  }

  function Affect(s: Sched, id: CtxId, effect: Effect): Sched {
    match effect
    case Nothing => s
    case Fork(p, pc, root) => Create(s, p, pc, root)
    case Abort(target) => Remove(s, target)
    case Switch(p) => Preempt(WithPriority(s, id, p))
  }

  /** A context still running after its instruction is made Ready before it yields. */
  function Rested(s: Sched, id: CtxId): Sched {
    if id in s.contexts && s.contexts[id].state == Running then s.WithState(id, Ready) else s
  }

  /** The turn of context `id`, just picked. */
  function Turn(s: Sched, id: CtxId, e: LoopEvent): Loop {
    match e
    case Prompt(_, _) => Loop(s, true)
    case NoFetch => Loop(s.WithState(id, Terminated), true)
    case Halt =>
      var t := s.WithState(id, Terminated);
      Loop(Yield(t), |Active(t)| > 0)
    case Complete(effect) =>
      var t := Yield(Rested(Affect(s, id, effect), id));
      Loop(t, |Active(t)| > 0)
    case Fail =>
      var t := Yield(s.WithState(id, Terminated));
      Loop(t, |Active(t)| > 0)
  }

  function Step(l: Loop, e: LoopEvent): Loop {
    if e.Prompt? then (if l.generating then l else Loop(Started(l, e.pc, e.root), true))
    else if !l.generating then l
    else
      match Pick(l.sched)
      case (s, Err(_)) => Loop(s, false)
      case (s, Ok(id)) => if id in s.contexts then Turn(s, id, e) else Loop(s, true)
  }

  /** The loop starts idle, with the one context that loading the program made (src/vm.rs:791-795). */
  function Begin(pc: nat, root: nat): Loop {
    Loop(Create(Empty(), Green, pc, root), false)
  }

  ghost function RunLoop(l: Loop, es: seq<LoopEvent>): Loop
    decreases |es|
  {
    if es == [] then l else RunLoop(Step(l, es[0]), es[1..])
  }

  // ---------------------------------------------------------------------
  // Each turn is a run of events the discipline allows
  // ---------------------------------------------------------------------

  lemma {:induction false} RunAppend(s: Sched, a: seq<Event>, b: seq<Event>)
    requires AllAllowed(s, a) && AllAllowed(Run(s, a), b)
    ensures AllAllowed(s, a + b) && Run(s, a + b) == Run(Run(s, a), b)
    decreases |a|
  {
    hide Allowed, Apply;
    if a == [] {
      assert a + b == b;
    } else {
      assert (a + b)[0] == a[0] && (a + b)[1..] == a[1..] + b;
      RunAppend(Apply(s, a[0]), a[1..], b);
    }
  }

  lemma RunOne(s: Sched, a: Event)
    requires Allowed(s, a)
    ensures AllAllowed(s, [a]) && Run(s, [a]) == Apply(s, a)
  {
    hide Allowed, Apply;
    assert [a][1..] == [];
  }

  lemma RunTwo(s: Sched, a: Event, b: Event)
    requires Allowed(s, a) && Allowed(Apply(s, a), b)
    ensures AllAllowed(s, [a, b]) && Run(s, [a, b]) == Apply(Apply(s, a), b)
  {
    hide Allowed, Apply;
    assert [a, b][1..] == [b];
    RunOne(Apply(s, a), b);
  }

  /** At the head of the loop: no context blocks, nothing runs, and an idle loop is fresh or finished. */
  ghost predicate LoopInv(l: Loop) {
    && Inv(l.sched) && !RunningNow(l.sched) && NoneBlocked(l.sched)
    && (!l.generating ==> AllEnded(l.sched) || NoneEnded(l.sched))
  }

  ghost predicate NoneBlocked(s: Sched) {
    forall id :: id in s.contexts ==> s.contexts[id].state != Blocked
  }

  ghost predicate NoneEnded(s: Sched) {
    forall id :: id in s.contexts ==> s.contexts[id].state != Terminated
  }

  lemma ActiveNone(s: Sched)
    ensures |Active(s)| == 0 <==> AllEnded(s)
  {
    if AllEnded(s) {
      assert Active(s) == {};
    }
    forall id | |Active(s)| == 0 && id in s.contexts ensures s.contexts[id].state == Terminated {
      assert id !in Active(s);
    }
  }

  /** A pick that finds nothing proves that every context has ended, as long as none blocks. */
  lemma FailedPickEnds(s: Sched)
    requires Inv(s) && !RunningNow(s) && NoneBlocked(s) && Pick(s).1.Err?
    ensures AllEnded(s) && Pick(s).0.contexts == s.contexts
  {
    var p, k := PickIsFirstRunnable(s);
    forall id | id in s.contexts ensures s.contexts[id].state == Terminated {
      if s.contexts[id].state == Ready {
        DeadMember(s, s.Queue(s.contexts[id].priority), id);
      }
    }
  }

  ghost predicate NoBlocking(es: seq<Event>) {
    forall i :: 0 <= i < |es| ==> es[i] != BlockCur
  }

  lemma NoneBlockedStep(s: Sched, e: Event)
    requires Inv(s) && Allowed(s, e) && NoneBlocked(s) && e != BlockCur
    ensures NoneBlocked(Apply(s, e))
  {
    hide Inv, Enqueue, Pick, Without;
    if e.PickNext? {
      var p, k := PickIsFirstRunnable(s);
    }
    forall t: Sched, id ensures Enqueue(t, id).contexts == t.contexts {
      EnqueueOnly(t, id);
    }
  }

  lemma EnqueueOnly(s: Sched, id: CtxId)
    ensures Enqueue(s, id).contexts == s.contexts
  {
  }

  lemma {:induction false} NoneBlockedRun(s: Sched, es: seq<Event>)
    requires Inv(s) && AllAllowed(s, es) && NoneBlocked(s) && NoBlocking(es)
    ensures NoneBlocked(Run(s, es))
    decreases |es|
  {
    hide Allowed, Apply, Inv, NoneBlocked;
    if es != [] {
      InvStep(s, es[0]);
      NoneBlockedStep(s, es[0]);
      assert NoBlocking(es[1..]);
      NoneBlockedRun(Apply(s, es[0]), es[1..]);
    }
  }

  /** A successful pick leaves the picked context current and running. */
  lemma Picked(s: Sched)
    requires Inv(s) && !RunningNow(s) && Pick(s).1.Ok?
    ensures var (r, res) := Pick(s);
            Inv(r) && r.current == Some(res.value) && res.value in r.contexts && r.contexts[res.value].state == Running
  {
    var p, k := PickIsFirstRunnable(s);
    PickInv(s);
  }

  /** Making the context Ready first changes nothing: yielding does the same. */
  lemma RestedYields(s: Sched, id: CtxId)
    requires Inv(s)
    ensures Yield(Rested(s, id)) == Yield(s)
  {
    hide Enqueue;
    if id in s.contexts && s.contexts[id].state == Running {
      assert s.current == Some(id);
      assert Rested(s, id).(current := None) == s.(current := None).WithState(id, Ready);
    }
  }

  /** The events an effect stands for. */
  function EffectEvents(effect: Effect): seq<Event> {
    match effect
    case Nothing => []
    case Fork(p, pc, root) => [CreateCtx(p, pc, root)]
    case Abort(target) => [RemoveCtx(target)]
    case Switch(p) => [SetPriorityCur(p), PreemptCur]
  }

  lemma EffectRuns(s: Sched, id: CtxId, effect: Effect)
    requires Inv(s) && s.current == Some(id) && RunningNow(s)
    ensures AllAllowed(s, EffectEvents(effect)) && Run(s, EffectEvents(effect)) == Affect(s, id, effect)
  {
    match effect {
      case Nothing =>
      case Fork(p, pc, root) => RunOne(s, CreateCtx(p, pc, root));
      case Abort(target) => RunOne(s, RemoveCtx(target));
      case Switch(p) => RunTwo(s, SetPriorityCur(p), PreemptCur);
    }
  }

  /** The events a turn of the picked context stands for. */
  function TurnEvents(id: CtxId, e: LoopEvent): seq<Event> {
    match e
    case Prompt(_, _) => []
    case NoFetch => [TerminateCtx(id)]
    case Halt => [TerminateCtx(id), YieldCur]
    case Complete(effect) => EffectEvents(effect) + [YieldCur]
    case Fail => [TerminateCtx(id), YieldCur]
  }

  lemma CompleteRuns(s: Sched, id: CtxId, effect: Effect)
    requires Inv(s) && s.current == Some(id) && RunningNow(s)
    ensures AllAllowed(s, EffectEvents(effect) + [YieldCur])
    ensures Run(s, EffectEvents(effect) + [YieldCur]) == Turn(s, id, Complete(effect)).sched
    ensures Turn(s, id, Complete(effect)).sched == Yield(Affect(s, id, effect))
  {
    hide Inv, Affect, Rested, RunningNow, Yield, EffectEvents;
    var t := Affect(s, id, effect);
    EffectRuns(s, id, effect);
    InvRun(s, EffectEvents(effect));
    RunOne(t, YieldCur);
    RunAppend(s, EffectEvents(effect), [YieldCur]);
    RestedYields(t, id);
  }

  lemma YieldIdle(s: Sched)
    ensures !RunningNow(Yield(s))
  {
  }

  lemma TurnRuns(s: Sched, id: CtxId, e: LoopEvent)
    requires Inv(s) && s.current == Some(id) && RunningNow(s) && !e.Prompt?
    ensures AllAllowed(s, TurnEvents(id, e)) && Run(s, TurnEvents(id, e)) == Turn(s, id, e).sched
    ensures !RunningNow(Turn(s, id, e).sched) && NoBlocking(TurnEvents(id, e))
    ensures !Turn(s, id, e).generating ==> AllEnded(Turn(s, id, e).sched)
  {
    hide Inv, Affect, Rested;
    match e {
      case NoFetch => RunOne(s, TerminateCtx(id));
      case Halt =>
        RunTwo(s, TerminateCtx(id), YieldCur);
        ActiveNone(s.WithState(id, Terminated));
      case Complete(effect) =>
        CompleteRuns(s, id, effect);
        YieldIdle(Affect(s, id, effect));
        ActiveNone(Turn(s, id, e).sched);
      case Fail =>
        RunTwo(s, TerminateCtx(id), YieldCur);
        ActiveNone(Yield(s.WithState(id, Terminated)));
    }
  }

  /** The events one round of the loop stands for. */
  function StepEvents(l: Loop, e: LoopEvent): seq<Event> {
    if e.Prompt? then (if !l.generating && |Active(l.sched)| == 0 then [CreateCtx(Green, e.pc, e.root)] else [])
    else if !l.generating then []
    else [PickNext] + (if Pick(l.sched).1.Ok? then TurnEvents(Pick(l.sched).1.value, e) else [])
  }

  lemma RoundRuns(l: Loop, e: LoopEvent)
    requires LoopInv(l) && l.generating && !e.Prompt?
    ensures AllAllowed(l.sched, StepEvents(l, e)) && Run(l.sched, StepEvents(l, e)) == Step(l, e).sched
    ensures NoBlocking(StepEvents(l, e)) && !RunningNow(Step(l, e).sched)
    ensures !Step(l, e).generating ==> AllEnded(Step(l, e).sched)
  {
    hide Inv, Turn, TurnEvents, NoneBlocked;
    var s := l.sched;
    RunOne(s, PickNext);
    if Pick(s).1.Ok? {
      Picked(s);
      var (r, id) := (Pick(s).0, Pick(s).1.value);
      TurnRuns(r, id, e);
      RunAppend(s, [PickNext], TurnEvents(id, e));
    } else {
      FailedPickEnds(s);
      StillIdle(s);
    }
  }

  lemma StillIdle(s: Sched)
    requires !RunningNow(s) && Pick(s).1.Err?
    ensures !RunningNow(Pick(s).0)
  {
    var p, k := PickIsFirstRunnable(s);
  }

  /** A prompt only ever creates a context: the guard of the revival never holds. */
  lemma PromptRuns(l: Loop, e: LoopEvent)
    requires LoopInv(l) && e.Prompt?
    ensures !Revives(l)
    ensures AllAllowed(l.sched, StepEvents(l, e)) && Run(l.sched, StepEvents(l, e)) == Step(l, e).sched
    ensures NoBlocking(StepEvents(l, e)) && !RunningNow(Step(l, e).sched) && Step(l, e).generating
  {
    ActiveNone(l.sched);
    RunOne(l.sched, CreateCtx(Green, e.pc, e.root));
    CreateIdle(l.sched, Green, e.pc, e.root);
  }

  lemma CreateIdle(s: Sched, p: Priority, pc: nat, root: nat)
    requires !RunningNow(s) && Inv(s)
    ensures !RunningNow(Create(s, p, pc, root))
  {
  }

  /** Every round keeps the loop's invariant and is a run of allowed events. */
  lemma StepKeeps(l: Loop, e: LoopEvent)
    requires LoopInv(l)
    ensures LoopInv(Step(l, e))
    ensures AllAllowed(l.sched, StepEvents(l, e)) && Run(l.sched, StepEvents(l, e)) == Step(l, e).sched
    ensures NoBlocking(StepEvents(l, e))
  {
    hide Inv, NoneBlocked, StepEvents, RunningNow, AllEnded, NoneEnded, Started;
    if e.Prompt? {
      PromptRuns(l, e);
    } else if l.generating {
      RoundRuns(l, e);
    } else {
      IdleRuns(l, e);
    }
    InvRun(l.sched, StepEvents(l, e));
    NoneBlockedRun(l.sched, StepEvents(l, e));
  }

  lemma IdleRuns(l: Loop, e: LoopEvent)
    requires !l.generating && !e.Prompt?
    ensures StepEvents(l, e) == []
  {
  }

  lemma BeginKeeps(pc: nat, root: nat)
    ensures LoopInv(Begin(pc, root)) && Allowed(Empty(), CreateCtx(Green, pc, root))
  {
    InvStep(Empty(), CreateCtx(Green, pc, root));
  }

  /** The loop and the events it stands for, from any point of a run. */
  lemma {:induction false} LoopRuns(l: Loop, es: seq<LoopEvent>) returns (evs: seq<Event>)
    requires LoopInv(l)
    ensures LoopInv(RunLoop(l, es))
    ensures AllAllowed(l.sched, evs) && Run(l.sched, evs) == RunLoop(l, es).sched && NoBlocking(evs)
    decreases |es|
  {
    hide LoopInv, Step, StepEvents, Allowed, Apply;
    evs := [];
    if es != [] {
      StepKeeps(l, es[0]);
      var rest := LoopRuns(Step(l, es[0]), es[1..]);
      evs := StepEvents(l, es[0]) + rest;
      RunAppend(l.sched, StepEvents(l, es[0]), rest);
    }
  }

  // ---------------------------------------------------------------------
  // What the loop promises
  // ---------------------------------------------------------------------

  /** The loop meets the scheduler's discipline: what holds of every allowed run holds of it. */
  lemma LoopIsAllowed(pc: nat, root: nat, es: seq<LoopEvent>) returns (evs: seq<Event>)
    ensures AllAllowed(Empty(), evs) && Run(Empty(), evs) == RunLoop(Begin(pc, root), es).sched
  {
    hide LoopInv, Allowed, Apply;
    BeginKeeps(pc, root);
    var rest := LoopRuns(Begin(pc, root), es);
    evs := [CreateCtx(Green, pc, root)] + rest;
    BeginApplied(pc, root);
    RunOne(Empty(), CreateCtx(Green, pc, root));
    RunAppend(Empty(), [CreateCtx(Green, pc, root)], rest);
  }

  lemma BeginApplied(pc: nat, root: nat)
    ensures Apply(Empty(), CreateCtx(Green, pc, root)) == Begin(pc, root).sched
  {
  }

  /**
    The loop goes idle only when every context has ended, so a prompt to an idle loop finds
    either the untouched first context or none that is active; the branch that would make a
    terminated context 1 Ready without queueing it is never taken.
  */
  lemma RevivalNeverTaken(pc: nat, root: nat, es: seq<LoopEvent>)
    ensures var l := RunLoop(Begin(pc, root), es);
            && !Revives(l)
            && (!l.generating ==> AllEnded(l.sched) || NoneEnded(l.sched))
            && (l.generating && Pick(l.sched).1.Err? ==> AllEnded(l.sched))
  {
    var l := RunLoop(Begin(pc, root), es);
    hide RunLoop, Begin;
    BeginKeeps(pc, root);
    var evs := LoopRuns(Begin(pc, root), es);
    PromptRuns(l, Prompt(0, 0));
    if Pick(l.sched).1.Err? {
      FailedPickEnds(l.sched);
    }
  }

  /**
    No context is stranded by the loop: a Ready one is queued once, in its own band, and the loop then
    finds something to run.
  */
  lemma LoopStrandsNone(pc: nat, root: nat, es: seq<LoopEvent>, id: CtxId, p: Priority)
    ensures var s := RunLoop(Begin(pc, root), es).sched;
            id in s.contexts && s.contexts[id].state == Ready ==>
              Count(s.Queue(p), id) == (if p == s.contexts[id].priority then 1 else 0) && Pick(s).1.Ok?
  {
    hide RunLoop, Begin;
    var evs := LoopIsAllowed(pc, root, es);
    NeverStranded(evs, id, p);
  }

  /** In any allowed run in which no context blocks, a pick between turns fails only when every context has ended. */
  lemma FailedPickIsTheEnd(evs: seq<Event>)
    requires AllAllowed(Empty(), evs) && NoBlocking(evs)
    ensures var s := Run(Empty(), evs); !RunningNow(s) && Pick(s).1.Err? ==> AllEnded(s)
  {
    hide Run, AllAllowed;
    InvRun(Empty(), evs);
    NoneBlockedRun(Empty(), evs);
    var s := Run(Empty(), evs);
    if !RunningNow(s) && Pick(s).1.Err? {
      FailedPickEnds(s);
    }
  }
}
