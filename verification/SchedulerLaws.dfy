/**
  What each operation of the scheduler leaves behind, queue by queue (src/context.rs),
  and what that means over runs: a context that yields comes back, and none is ended or
  lost by picking, yielding and preempting.
*/
module SchedulingLaws {
  import opened Prelude
  import opened Scheduling
  import opened InteractiveLoop

  /** The queues of `r` are those of `s`, with `id` at the end of band `p`. */
  predicate QueuedLast(s: Sched, r: Sched, p: Priority, id: CtxId) {
    && r.red == s.red + (if p == Red then [id] else [])
    && r.blue == s.blue + (if p == Blue then [id] else [])
    && r.green == s.green + (if p == Green then [id] else [])
  }

  predicate SameQueues(s: Sched, r: Sched) {
    r.red == s.red && r.blue == s.blue && r.green == s.green
  }

  // ---------------------------------------------------------------------
  // Single operations
  // ---------------------------------------------------------------------

  /** A running context that yields is Ready, with everything else it had, at the end of its queue. */
  lemma YieldRequeues(s: Sched, id: CtxId)
    requires s.current == Some(id) && id in s.contexts && s.contexts[id].state == Running
    ensures var r, c := Yield(s), s.contexts[id];
            && r.current == None && r.nextId == s.nextId
            && r.contexts == s.contexts[id := Context(c.id, c.priority, Ready, c.pc, c.rootVersion)]
            && QueuedLast(s, r, c.priority, id)
  {
  }

  /** Any other yield only empties the slot, unless the context is Ready: then it is queued as well. */
  lemma YieldClears(s: Sched)
    ensures s.current == None ==> Yield(s) == s
    ensures s.current.Some? ==>
              var id, r := s.current.value, Yield(s);
              && (id !in s.contexts || s.contexts[id].state == Blocked || s.contexts[id].state == Terminated ==>
                r == s.(current := None))
              && (id in s.contexts && s.contexts[id].state == Ready ==>
                && QueuedLast(s, r, s.contexts[id].priority, id)
                && r.contexts == s.contexts && r.nextId == s.nextId && r.current == None)
  {
  }

  /** A context of a lower band leaves the slot when a Red entry waits; otherwise nothing happens. */
  lemma PreemptYields(s: Sched)
    ensures var r := Preempt(s);
            if |s.red| > 0 && s.current.Some? && s.current.value in s.contexts &&
               (s.contexts[s.current.value].priority == Blue || s.contexts[s.current.value].priority == Green) then
              var id, c := s.current.value, s.contexts[s.current.value];
              && r.current == None && r.red == s.red && r.nextId == s.nextId
              && (c.state == Running ==>
                && r.contexts == s.contexts[id := Context(c.id, c.priority, Ready, c.pc, c.rootVersion)]
                && QueuedLast(s, r, c.priority, id))
              && (c.state == Blocked || c.state == Terminated ==> r == s.(current := None))
            else r == s
  {
    hide Enqueue;
    if s.current.Some? {
      YieldClears(s);
      if s.current.value in s.contexts && s.contexts[s.current.value].state == Running {
        YieldRequeues(s, s.current.value);
      }
    }
    hide Yield;
  }

  /** A created context has the next id and the priority asked for, and waits last in its band. */
  lemma CreateQueues(s: Sched, p: Priority, pc: nat, root: nat)
    ensures var r, id := Create(s, p, pc, root), CtxId(s.nextId);
            && r.contexts == s.contexts[id := Context(id, p, Ready, pc, root)]
            && QueuedLast(s, r, p, id) && r.current == s.current && r.nextId == s.nextId + 1
    ensures Inv(s) ==> CtxId(s.nextId) !in s.contexts
  {
    if Inv(s) {
      FreshId(s);
    }
  }

  /**
    An inserted context is kept as it is and waits last in its band, unless it has ended;
    ids given later are above its own.
  */
  lemma InsertQueues(s: Sched, c: Context)
    ensures var r := Insert(s, c);
            && r.contexts == s.contexts[c.id := c] && r.current == s.current
            && c.id.n < r.nextId && s.nextId <= r.nextId && (c.id.n < s.nextId ==> r.nextId == s.nextId)
            && (c.id.n >= s.nextId ==> r.nextId == c.id.n + 1)
            && if c.state == Terminated then SameQueues(s, r) else QueuedLast(s, r, c.priority, c.id)
  {
  }

  /** A blocked context that is woken is Ready and waits last in its band. */
  lemma WakeQueues(s: Sched, id: CtxId)
    requires id in s.contexts
    ensures var r, c := Apply(s, WakeCtx(id)), s.contexts[id];
            && r.contexts == s.contexts[id := Context(c.id, c.priority, Ready, c.pc, c.rootVersion)]
            && QueuedLast(s, r, c.priority, id) && r.current == s.current && r.nextId == s.nextId
  {
  }

  /** Blocking, ending and changing the priority of a context touch nothing else. */
  lemma SingleChanges(s: Sched, id: CtxId, p: Priority)
    requires s.current == Some(id) && id in s.contexts
    ensures var c := s.contexts[id];
            && Apply(s, BlockCur) ==
               s.(contexts := s.contexts[id := Context(c.id, c.priority, Blocked, c.pc, c.rootVersion)])
            && Apply(s, TerminateCtx(id)) ==
               s.(contexts := s.contexts[id := Context(c.id, c.priority, Terminated, c.pc, c.rootVersion)])
            && Apply(s, SetPriorityCur(p)) ==
               s.(contexts := s.contexts[id := Context(c.id, p, c.state, c.pc, c.rootVersion)])
  {
  }

  /** Removing takes the context out of the map, of the slot and of every queue, and leaves the others in order. */
  lemma RemoveTakesOut(s: Sched, id: CtxId)
    ensures var r := Remove(s, id);
            && r.contexts == s.contexts - {id} && r.nextId == s.nextId
            && r.current == (if s.current == Some(id) then None else s.current)
            && id !in r.red && id !in r.blue && id !in r.green
            && IsFiltered(s.red, r.red, id) && IsFiltered(s.blue, r.blue, id) && IsFiltered(s.green, r.green, id)
  {
    WithoutFilters(s.red, id);
    WithoutFilters(s.blue, id);
    WithoutFilters(s.green, id);
  }

  /** `r` is `q` without `id`: for each other entry, as many before it as were there. */
  ghost predicate IsFiltered(q: seq<CtxId>, r: seq<CtxId>, id: CtxId) {
    && |r| == Others(q, id)
    && forall i :: 0 <= i < |q| && q[i] != id ==> KeptAt(q, r, id, i)
  }

  ghost predicate KeptAt(q: seq<CtxId>, r: seq<CtxId>, id: CtxId, i: nat)
    requires i < |q|
  {
    Others(q[..i], id) < |r| && r[Others(q[..i], id)] == q[i]
  }

  /** How many entries are not `id`. */
  ghost function Others(q: seq<CtxId>, id: CtxId): nat {
    if q == [] then 0 else (if q[0] == id then 0 else 1) + Others(q[1..], id)
  }

  lemma {:induction false} WithoutFilters(q: seq<CtxId>, id: CtxId)
    ensures IsFiltered(q, Without(q, id), id)
  {
    if q != [] {
      WithoutFilters(q[1..], id);
      forall i | 0 <= i < |q| && q[i] != id ensures KeptAt(q, Without(q, id), id, i) {
        if i > 0 {
          assert q[..i][1..] == q[1..][..i - 1];
          assert KeptAt(q[1..], Without(q[1..], id), id, i - 1);
        }
      }
    }
  }

  // ---------------------------------------------------------------------
  // Picking
  // ---------------------------------------------------------------------

  /** Only contexts known to be blocked or ended cannot run. */
  predicate CanRun(s: Sched, id: CtxId) {
    id in s.contexts ==> s.contexts[id].state == Ready || s.contexts[id].state == Running
  }

  ghost predicate NoneRuns(s: Sched, q: seq<CtxId>) {
    forall i :: 0 <= i < |q| ==> !CanRun(s, q[i])
  }

  /** `id` is the first entry of the queue that can run. */
  ghost predicate FirstOf(s: Sched, q: seq<CtxId>, id: CtxId) {
    exists k :: 0 <= k < |q| && q[k] == id && CanRun(s, q[k]) && NoneRuns(s, q[..k])
  }

  /**
    Red before Blue before Green: the pick is the first entry that can run of the first
    band that has one, it becomes current and running, and no other context changes.
  */
  lemma PickByBand(s: Sched)
    ensures var (r, res) := Pick(s);
            if !NoneRuns(s, s.red) then res.Ok? && FirstOf(s, s.red, res.value)
            else if !NoneRuns(s, s.blue) then res.Ok? && FirstOf(s, s.blue, res.value)
            else if !NoneRuns(s, s.green) then res.Ok? && FirstOf(s, s.green, res.value)
            else res == Err(NoReadyContext) && r == s.(red := [], blue := [], green := [])
    ensures var (r, res) := Pick(s);
            res.Ok? ==>
              && r.current == Some(res.value) && r.nextId == s.nextId && r.contexts.Keys == s.contexts.Keys
              && forall id :: id in s.contexts ==>
                   r.contexts[id] == if id == res.value then s.contexts[id].(state := Running) else s.contexts[id]
  {
    var p, k := PickIsFirstRunnable(s);
    hide Pick;
    forall o ensures AllDead(s, s.Queue(o)) <==> NoneRuns(s, s.Queue(o)) {
      DeadCannotRun(s, s.Queue(o));
    }
    assert s.Queue(Red) == s.red && s.Queue(Blue) == s.blue && s.Queue(Green) == s.green;
    var r := Pick(s).0;
    assert r.Queue(Red) == r.red && r.Queue(Blue) == r.blue && r.Queue(Green) == r.green;
    if Pick(s).1.Ok? {
      DeadCannotRun(s, s.Queue(p)[..k]);
      assert CanRun(s, s.Queue(p)[k]) && FirstOf(s, s.Queue(p), Pick(s).1.value);
    } else {
      assert Pick(s).1.error.NoReadyContext?;
    }
  }

  lemma DeadCannotRun(s: Sched, q: seq<CtxId>)
    ensures AllDead(s, q) <==> NoneRuns(s, q)
  {
    assert forall i :: 0 <= i < |q| ==> (Dead(s, q[i]) <==> !CanRun(s, q[i]));
  }

  // ---------------------------------------------------------------------
  // Runs
  // ---------------------------------------------------------------------

  ghost predicate Spares(es: seq<Event>, id: CtxId) {
    forall i :: 0 <= i < |es| ==> es[i] != TerminateCtx(id) && es[i] != RemoveCtx(id)
  }

  /** The same context, not ended. */
  predicate Lives(s: Sched, id: CtxId, pc: nat, root: nat) {
    && id in s.contexts && s.contexts[id].state != Terminated
    && s.contexts[id].pc == pc && s.contexts[id].rootVersion == root
  }

  lemma LivesStep(s: Sched, e: Event, id: CtxId, pc: nat, root: nat)
    requires Inv(s) && Allowed(s, e) && Lives(s, id, pc, root) && e != TerminateCtx(id) && e != RemoveCtx(id)
    ensures Lives(Apply(s, e), id, pc, root)
  {
    hide Pick, Yield, Enqueue, Remove, Create, Insert, Preempt;
    match e {
      case CreateCtx(p, pc', root') => CreateQueues(s, p, pc', root');
      case InsertCtx(c) => InsertQueues(s, c);
      case PickNext => PickByBand(s);
      case YieldCur => YieldLives(s, id, pc, root);
      case PreemptCur => PreemptLives(s, id, pc, root);
      case WakeCtx(x) => WakeQueues(s, x);
      case RemoveCtx(x) => RemoveTakesOut(s, x);
      case _ =>
    }
  }

  lemma YieldLives(s: Sched, id: CtxId, pc: nat, root: nat)
    requires Lives(s, id, pc, root)
    ensures Lives(Yield(s), id, pc, root)
  {
    hide Yield;
    YieldClears(s);
    if s.current.Some? && s.current.value in s.contexts && s.contexts[s.current.value].state == Running {
      YieldRequeues(s, s.current.value);
    }
  }

  lemma PreemptLives(s: Sched, id: CtxId, pc: nat, root: nat)
    requires Lives(s, id, pc, root)
    ensures Lives(Preempt(s), id, pc, root)
  {
    hide Yield;
    YieldLives(s, id, pc, root);
  }

  /**
    No allowed run ends, loses or alters a context that is neither terminated nor
    removed by it; if it is Ready then, it waits in its queue, and if it is Running it
    has the slot.
  */
  lemma {:induction false} NoneIsLost(s: Sched, es: seq<Event>, id: CtxId, pc: nat, root: nat)
    requires Inv(s) && AllAllowed(s, es) && Spares(es, id) && Lives(s, id, pc, root)
    ensures var r := Run(s, es);
            && Lives(r, id, pc, root)
            && (r.contexts[id].state == Ready ==> id in r.Queue(r.contexts[id].priority))
            && (r.contexts[id].state == Running ==> r.current == Some(id))
    decreases |es|
  {
    hide Lives, Apply, Allowed;
    if es == [] {
      Tracks(s, id, pc, root);
    } else {
      assert Spares(es[1..], id) by {
        assert forall i :: 0 <= i < |es[1..]| ==> es[1..][i] == es[i + 1];
      }
      InvStep(s, es[0]);
      LivesStep(s, es[0], id, pc, root);
      NoneIsLost(Apply(s, es[0]), es[1..], id, pc, root);
    }
  }

  lemma Tracks(s: Sched, id: CtxId, pc: nat, root: nat)
    requires Inv(s) && Lives(s, id, pc, root)
    ensures id in s.contexts
    ensures s.contexts[id].state == Ready ==> id in s.Queue(s.contexts[id].priority)
    ensures s.contexts[id].state == Running ==> s.current == Some(id)
  {
  }

  /**
    Round robin: a context that yields its slice is run again within one pick for each
    context that waited in its band and one more, while no band above has any to run.
  */
  lemma RunsAgain(s: Sched, es: seq<Event>, id: CtxId)
    requires Inv(s) && s.current == Some(id) && s.contexts[id].state == Running
    requires var p := s.contexts[id].priority;
             && AllAllowed(Yield(s), es) && Spares(es, id) && QuietAbove(Yield(s), es, p)
             && PickCount(es) > |s.Queue(p)|
    ensures Picks(Yield(s), es, id)
  {
    hide Yield, AllAllowed, QuietAbove, Picks;
    var p := s.contexts[id].priority;
    assert Inv(Yield(s)) by {
      YieldInv(s);
    }
    YieldRequeues(s, id);
    assert Yield(s).Queue(p) == s.Queue(p) + [id];
    BoundedWait(Yield(s), es, id, p, |s.Queue(p)|);
  }

  // ---------------------------------------------------------------------
  // Turns of the interactive loop
  // ---------------------------------------------------------------------

  /** What one turn does with the context it runs. */
  lemma TurnEnds(s: Sched, id: CtxId, e: LoopEvent)
    requires s.current == Some(id) && id in s.contexts && s.contexts[id].state == Running && !e.Prompt?
    requires e.Complete? ==> e.effect == Nothing
    ensures var r, c := Turn(s, id, e).sched, s.contexts[id];
            && r.nextId == s.nextId
            && (e.NoFetch? ==> SameQueues(s, r) && r.current == Some(id))
            && (e.Halt? || e.Fail? ==> SameQueues(s, r) && r.current == None)
            && (e.Complete? ==> QueuedLast(s, r, c.priority, id) && r.current == None)
            && var st := if e.Complete? then Ready else Terminated;
               r.contexts == s.contexts[id := Context(c.id, c.priority, st, c.pc, c.rootVersion)]
  {
  }

  /** The new context is queued first, then the one that made it. */
  predicate ChildThenParent(s: Sched, r: Sched, p: Priority, child: CtxId, q: Priority, parent: CtxId) {
    && r.red == s.red + (if p == Red then [child] else []) + (if q == Red then [parent] else [])
    && r.blue == s.blue + (if p == Blue then [child] else []) + (if q == Blue then [parent] else [])
    && r.green == s.green + (if p == Green then [child] else []) + (if q == Green then [parent] else [])
  }

  /** An instruction that makes a context queues it before the one that made it. */
  lemma ForkQueuesBoth(s: Sched, id: CtxId, p: Priority, pc: nat, root: nat)
    requires s.current == Some(id) && id in s.contexts && s.contexts[id].state == Running && CtxId(s.nextId) != id
    ensures var r, c, child := Turn(s, id, Complete(Fork(p, pc, root))).sched, s.contexts[id], CtxId(s.nextId);
            && r.contexts == s.contexts[child := Context(child, p, Ready, pc, root)][id := c.(state := Ready)]
            && r.nextId == s.nextId + 1 && r.current == None && ChildThenParent(s, r, p, child, c.priority, id)
  {
    hide Create, Yield;
    CreateQueues(s, p, pc, root);
    var t := Create(s, p, pc, root);
    YieldClears(t.WithState(id, Ready));
  }

  /** An instruction that aborts a context removes it; its own context then waits, unless that was the one. */
  lemma AbortRemoves(s: Sched, id: CtxId, target: CtxId)
    requires s.current == Some(id) && id in s.contexts && s.contexts[id].state == Running
    ensures var r := Turn(s, id, Complete(Abort(target))).sched;
            && r.current == None && target !in r.contexts
            && target !in r.red && target !in r.blue && target !in r.green
            && (target != id ==>
              && r.contexts == (s.contexts - {target})[id := s.contexts[id].(state := Ready)]
              && id in r.Queue(s.contexts[id].priority))
  {
    hide Remove, Yield;
    RemoveTakesOut(s, target);
    var t := Remove(s, target);
    YieldClears(t.WithState(id, Ready));
    YieldClears(t);
  }

  /** An instruction that changes its band sends its context to the end of the new one. */
  lemma SwitchMoves(s: Sched, id: CtxId, p: Priority)
    requires s.current == Some(id) && id in s.contexts && s.contexts[id].state == Running
    ensures var r, c := Turn(s, id, Complete(Switch(p))).sched, s.contexts[id];
            && r.contexts == s.contexts[id := c.(priority := p, state := Ready)]
            && r.nextId == s.nextId && r.current == None && QueuedLast(s, r, p, id)
  {
    hide Preempt, Yield;
    var t := WithPriority(s, id, p);
    PreemptYields(t);
    YieldClears(t.WithState(id, Ready));
    YieldClears(Preempt(t));
  }

  /**
    A generation goes on exactly while some context has not ended, except that a turn
    without an instruction never stops it.
  */
  lemma GoesOnWhileAlive(s: Sched, id: CtxId, e: LoopEvent)
    requires s.current == Some(id) && id in s.contexts && s.contexts[id].state == Running && !e.Prompt?
    requires e.Complete? ==> e.effect == Nothing
    ensures var l := Turn(s, id, e);
            l.generating <==>
              e.NoFetch? || exists x :: x in l.sched.contexts && l.sched.contexts[x].state != Terminated
  {
    TurnEnds(s, id, e);
    var r := Turn(s, id, e).sched;
    ActiveNone(r);
  }

  // ---------------------------------------------------------------------
  // Rounds of the interactive loop
  // ---------------------------------------------------------------------

  /**
    A prompt starts a generation: with a new Green context at the entry when every other
    has ended, else with those there are.
  */
  lemma PromptStarts(l: Loop, pc: nat, root: nat)
    ensures var r := InteractiveLoop.Step(l, Prompt(pc, root));
            && r.generating && (l.generating ==> r == l)
            && (!l.generating && AllEnded(l.sched) ==>
              var id := CtxId(l.sched.nextId);
              && r.sched.contexts == l.sched.contexts[id := Context(id, Green, Ready, pc, root)]
              && QueuedLast(l.sched, r.sched, Green, id) && r.sched.current == l.sched.current)
            && (!l.generating && !AllEnded(l.sched) && !Revives(l) ==> r.sched == l.sched)
  {
    hide Create;
    ActiveNone(l.sched);
    CreateQueues(l.sched, Green, pc, root);
  }

  /** A round of a generation runs the context picked: it is Ready again or has ended, and no other changes. */
  lemma RoundRunsOne(l: Loop, e: LoopEvent)
    requires !e.Prompt? && (e.Complete? ==> e.effect == Nothing)
    ensures var r, picked := InteractiveLoop.Step(l, e), Pick(l.sched).1;
            && (!l.generating ==> r == l)
            && (l.generating && picked.Err? ==> !r.generating && r.sched.contexts == l.sched.contexts)
            && (l.generating && picked.Ok? && picked.value in l.sched.contexts ==>
              var st := if e.Complete? then Ready else Terminated;
              r.sched.contexts == l.sched.contexts[picked.value := l.sched.contexts[picked.value].(state := st)])
  {
    hide Pick, Turn, NoneRuns, FirstOf;
    PickByBand(l.sched);
    var (s, picked) := Pick(l.sched);
    if picked.Ok? && picked.value in l.sched.contexts {
      TurnEnds(s, picked.value, e);
      var c := l.sched.contexts[picked.value];
      assert s.contexts == l.sched.contexts[picked.value := c.(state := Running)];
    }
  }
}
