/**
  The strict-priority scheduler (src/context.rs): three FIFO queues, a context map
  and a current slot. Dead queue entries are dropped only when they reach the head.
*/
module Scheduling {
  import opened Prelude

  datatype CtxId = CtxId(n: nat)

  datatype Priority = Green | Blue | Red

  datatype CtxState = Ready | Running | Blocked | Terminated

  /** The scheduling part of a context, and where it runs. */
  datatype Context = Context(id: CtxId, priority: Priority, state: CtxState, pc: nat, rootVersion: nat)

  datatype SchedError = NoReadyContext

  datatype Sched = Sched(
    red: seq<CtxId>,
    blue: seq<CtxId>,
    green: seq<CtxId>,
    contexts: map<CtxId, Context>,
    nextId: nat,
    current: Option<CtxId>)
  {
    function Queue(p: Priority): seq<CtxId> {
      match p case Red => red case Blue => blue case Green => green
    }

    function WithQueue(p: Priority, q: seq<CtxId>): (s: Sched)
      ensures s.Queue(p) == q && forall o :: o != p ==> s.Queue(o) == Queue(o)
      ensures s.contexts == contexts && s.nextId == nextId && s.current == current
    {
      match p case Red => this.(red := q) case Blue => this.(blue := q) case Green => this.(green := q)
    }

    function WithState(id: CtxId, st: CtxState): (s: Sched)
      ensures forall p :: s.Queue(p) == Queue(p)
      ensures s.nextId == nextId && s.current == current && s.contexts.Keys == contexts.Keys
    {
      if id in contexts then this.(contexts := contexts[id := contexts[id].(state := st)]) else this
    }
  }

  function Empty(): Sched {
    Sched([], [], [], map[], 1, None)
  }

  /** `enqueue` */
  function Enqueue(s: Sched, id: CtxId): Sched {
    if id !in s.contexts || s.contexts[id].state == Terminated then s
    else s.WithQueue(s.contexts[id].priority, s.Queue(s.contexts[id].priority) + [id])
  }

  /** `create_context` */
  function Create(s: Sched, p: Priority, pc: nat, root: nat): Sched {
    var id := CtxId(s.nextId);
    Enqueue(s.(nextId := s.nextId + 1, contexts := s.contexts[id := Context(id, p, Ready, pc, root)]), id)
  }

  /** `insert_context` */
  function Insert(s: Sched, c: Context): Sched {
    var next := if c.id.n >= s.nextId then c.id.n + 1 else s.nextId;
    Enqueue(s.(nextId := next, contexts := s.contexts[c.id := c]), c.id)
  }

  /** `VecDeque::retain(|x| x != id)` */
  function Without(q: seq<CtxId>, id: CtxId): (r: seq<CtxId>)
    ensures forall x :: x in r <==> x in q && x != id
  {
    if q == [] then []
    else if q[0] == id then Without(q[1..], id)
    else [q[0]] + Without(q[1..], id)
  }

  /** `remove` */
  function Remove(s: Sched, id: CtxId): Sched {
    Sched(Without(s.red, id), Without(s.blue, id), Without(s.green, id), s.contexts - {id}, s.nextId,
      if s.current == Some(id) then None else s.current)
  }

  /** A queue entry the scheduler drops: an id with no context counts as runnable. */
  predicate Dead(s: Sched, id: CtxId) {
    id in s.contexts && (s.contexts[id].state == Terminated || s.contexts[id].state == Blocked)
  }

  function Entries(s: Sched): nat {
    |s.red| + |s.blue| + |s.green|
  }

  function Top(s: Sched): Option<Priority> {
    if s.red != [] then Some(Red) else if s.blue != [] then Some(Blue) else if s.green != [] then Some(Green) else None
  }

  /** `pick_next` */
  function Pick(s: Sched): (Sched, Result<CtxId, SchedError>)
    decreases Entries(s)
  {
    match Top(s)
    case None => (s, Err(NoReadyContext))
    case Some(p) =>
      var id, rest := s.Queue(p)[0], s.WithQueue(p, s.Queue(p)[1..]);
      if Dead(s, id) then Pick(rest) else (rest.WithState(id, Running).(current := Some(id)), Ok(id))
  }

  /** `yield_current` */
  function Yield(s: Sched): Sched {
    match s.current
    case None => s
    case Some(id) =>
      var r := s.(current := None);
      if id !in s.contexts then r
      else
        var ready := if s.contexts[id].state == Running then r.WithState(id, Ready) else r;
        if ready.contexts[id].state == Ready then Enqueue(ready, id) else ready
  }

  /** `maybe_preempt` */
  function Preempt(s: Sched): Sched {
    if s.red != [] && s.current.Some? && s.current.value in s.contexts && s.contexts[s.current.value].priority != Red
    then Yield(s) else s
  }

  // ---------------------------------------------------------------------
  // What pick_next returns
  // ---------------------------------------------------------------------

  predicate Above(p: Priority, q: Priority) {
    match q case Red => false case Blue => p == Red case Green => p != Green
  }

  ghost predicate AllDead(s: Sched, q: seq<CtxId>) {
    forall i :: 0 <= i < |q| ==> Dead(s, q[i])
  }

  /** The entry at `k` of band `p` is the first runnable one, bands first, then positions. */
  ghost predicate FirstRunnable(s: Sched, p: Priority, k: nat) {
    && k < |s.Queue(p)| && !Dead(s, s.Queue(p)[k]) && AllDead(s, s.Queue(p)[..k])
    && forall o :: Above(o, p) ==> AllDead(s, s.Queue(o))
  }

  /** `r` and `res` are the outcome of running entry `k` of band `p`, or of finding nothing to run. */
  ghost predicate Outcome(s: Sched, r: Sched, res: Result<CtxId, SchedError>, p: Priority, k: nat) {
    match res
    case Err(_) =>
      && (forall o :: AllDead(s, s.Queue(o)) && r.Queue(o) == [])
      && r.contexts == s.contexts && r.current == s.current && r.nextId == s.nextId
    case Ok(id) =>
      && FirstRunnable(s, p, k) && id == s.Queue(p)[k]
      && r.Queue(p) == s.Queue(p)[k + 1..]
      && (forall o :: Above(o, p) ==> r.Queue(o) == [])
      && (forall o :: Above(p, o) ==> r.Queue(o) == s.Queue(o))
      && r.contexts == s.WithState(id, Running).contexts
      && r.current == Some(id) && r.nextId == s.nextId
  }

  lemma DropDeadHead(s: Sched, t: Priority, r: Sched, res: Result<CtxId, SchedError>, p: Priority, k: nat)
    requires Top(s) == Some(t) && Dead(s, s.Queue(t)[0])
    requires Outcome(s.WithQueue(t, s.Queue(t)[1..]), r, res, p, k)
    ensures Outcome(s, r, res, p, if p == t then k + 1 else k)
  {
    var q := s.Queue(t);
    var rest := s.WithQueue(t, q[1..]);
    forall o | AllDead(rest, rest.Queue(o)) ensures AllDead(s, s.Queue(o)) {
      DeadTail(s, rest, s.Queue(o), t, o);
    }
    if res.Ok? {
      FirstBehindDead(s, t, p, k);
    }
  }

  lemma FirstBehindDead(s: Sched, t: Priority, p: Priority, k: nat)
    requires Top(s) == Some(t) && Dead(s, s.Queue(t)[0])
    requires FirstRunnable(s.WithQueue(t, s.Queue(t)[1..]), p, k)
    ensures FirstRunnable(s, p, if p == t then k + 1 else k)
  {
    var q := s.Queue(t);
    var rest := s.WithQueue(t, q[1..]);
    forall o | Above(o, p) ensures AllDead(s, s.Queue(o)) {
      DeadTail(s, rest, s.Queue(o), t, o);
    }
    if p == t {
      forall i | 0 <= i < k + 1 ensures Dead(s, q[i]) {
        if i > 0 {
          assert q[i] == q[1..][..k][i - 1];
        }
      }
    } else {
      assert s.Queue(p)[..k] == rest.Queue(p)[..k];
    }
  }

  lemma DeadTail(s: Sched, rest: Sched, q: seq<CtxId>, t: Priority, o: Priority)
    requires Top(s) == Some(t) && Dead(s, s.Queue(t)[0]) && q == s.Queue(o)
    requires rest == s.WithQueue(t, s.Queue(t)[1..]) && AllDead(rest, rest.Queue(o))
    ensures AllDead(s, q)
  {
    if o == t {
      forall i | 0 <= i < |q| ensures Dead(s, q[i]) {
        if i > 0 {
          assert q[i] == q[1..][i - 1];
        }
      }
    }
  }

  /**
    `pick_next` runs the first runnable context of the highest band that has one. It
    drops the dead entries in front of it and nothing else, and fails exactly when
    every entry is dead.
  */
  lemma {:induction false} PickIsFirstRunnable(s: Sched) returns (p: Priority, k: nat)
    ensures Outcome(s, Pick(s).0, Pick(s).1, p, k)
    ensures Pick(s).1.Err? <==> forall o :: AllDead(s, s.Queue(o))
    decreases Entries(s)
  {
    hide Outcome;
    match Top(s) {
      case None =>
        p, k := Red, 0;
        NothingQueued(s);
      case Some(t) =>
        var rest := s.WithQueue(t, s.Queue(t)[1..]);
        if Dead(s, s.Queue(t)[0]) {
          p, k := PickIsFirstRunnable(rest);
          DropDeadHead(s, t, Pick(s).0, Pick(s).1, p, k);
          k := if p == t then k + 1 else k;
        } else {
          p, k := t, 0;
          RunHead(s, t);
        }
    }
    OutcomeErr(s, Pick(s).0, Pick(s).1, p, k);
  }

  lemma NothingQueued(s: Sched)
    requires Top(s) == None
    ensures Outcome(s, s, Err(NoReadyContext), Red, 0)
  {
    forall o ensures s.Queue(o) == [] {
    }
  }

  lemma RunHead(s: Sched, t: Priority)
    requires Top(s) == Some(t) && !Dead(s, s.Queue(t)[0])
    ensures var id := s.Queue(t)[0];
            Outcome(s, s.WithQueue(t, s.Queue(t)[1..]).WithState(id, Running).(current := Some(id)), Ok(id), t, 0)
  {
  }

  lemma OutcomeErr(s: Sched, r: Sched, res: Result<CtxId, SchedError>, p: Priority, k: nat)
    requires Outcome(s, r, res, p, k)
    ensures res.Err? <==> forall o :: AllDead(s, s.Queue(o))
  {
    if res.Ok? {
      assert !Dead(s, s.Queue(p)[k]);
    }
  }

  // ---------------------------------------------------------------------
  // No context is ever stranded
  // ---------------------------------------------------------------------

  ghost predicate NoDup(q: seq<CtxId>) {
    forall i, j :: 0 <= i < j < |q| ==> q[i] != q[j]
  }

  /** What may stand in the queue of band `p`. */
  predicate Entry(s: Sched, p: Priority, id: CtxId) {
    && id in s.contexts && s.contexts[id].priority == p
    && (s.contexts[id].state == Ready || s.contexts[id].state == Terminated)
  }

  ghost predicate Queued(s: Sched) {
    forall p :: NoDup(s.Queue(p)) && forall id :: id in s.Queue(p) ==> Entry(s, p, id)
  }

  /** Every Ready context but `lost` is in its queue, the Running one is current, and ids are below the counter. */
  ghost predicate Tracked(s: Sched, lost: Option<CtxId>) {
    forall id :: id in s.contexts ==>
      var c := s.contexts[id];
      && c.id == id && id.n < s.nextId
      && (c.state == Ready && lost != Some(id) ==> id in s.Queue(c.priority))
      && (c.state == Running ==> s.current == Some(id))
  }

  ghost predicate CurrentOut(s: Sched) {
    s.current.Some? ==>
      var id := s.current.value;
      id in s.contexts && s.contexts[id].state != Ready && id !in s.Queue(s.contexts[id].priority)
  }

  ghost predicate Inv(s: Sched) {
    Queued(s) && Tracked(s, None) && CurrentOut(s)
  }

  /** Queueing the one Ready context that is in no queue restores the invariant. */
  lemma Joins(s: Sched, id: CtxId)
    requires Queued(s) && Tracked(s, Some(id)) && CurrentOut(s) && s.current != Some(id)
    requires id in s.contexts && s.contexts[id].state == Ready && id !in s.Queue(s.contexts[id].priority)
    ensures Inv(Enqueue(s, id))
  {
    var r := Enqueue(s, id);
    forall p ensures NoDup(r.Queue(p)) && forall x :: x in r.Queue(p) ==> Entry(r, p, x) {
      assert NoDup(s.Queue(p));
    }
  }

  /** What the run loop, the instructions and the host do to the scheduler. */
  datatype Event =
    | CreateCtx(p: Priority, pc: nat, root: nat)
    | InsertCtx(c: Context)
    | PickNext
    | YieldCur
    | PreemptCur
    | BlockCur
    | SetPriorityCur(p: Priority)
    | TerminateCtx(id: CtxId)
    | WakeCtx(id: CtxId)
    | RemoveCtx(id: CtxId)

  ghost predicate RunningNow(s: Sched) {
    s.current.Some? && s.current.value in s.contexts && s.contexts[s.current.value].state == Running
  }

  /**
    The loop's discipline: it picks only when nothing is running; contexts block and
    change priority only while they run; a new context's id is new; only blocked
    contexts that have left the current slot are woken.
  */
  ghost predicate Allowed(s: Sched, e: Event) {
    match e
    case InsertCtx(c) => c.id !in s.contexts && c.state == Ready
    case PickNext => !RunningNow(s)
    case BlockCur => RunningNow(s)
    case SetPriorityCur(_) => RunningNow(s)
    case TerminateCtx(id) => id in s.contexts
    case WakeCtx(id) => id in s.contexts && s.contexts[id].state == Blocked && s.current != Some(id)
    case _ => true
  }

  function WithPriority(s: Sched, id: CtxId, p: Priority): Sched {
    if id in s.contexts then s.(contexts := s.contexts[id := s.contexts[id].(priority := p)]) else s
  }

  function Apply(s: Sched, e: Event): Sched {
    match e
    case CreateCtx(p, pc, root) => Create(s, p, pc, root)
    case InsertCtx(c) => Insert(s, c)
    case PickNext => Pick(s).0
    case YieldCur => Yield(s)
    case PreemptCur => Preempt(s)
    case BlockCur => if s.current.Some? then s.WithState(s.current.value, Blocked) else s
    case SetPriorityCur(p) => if s.current.Some? then WithPriority(s, s.current.value, p) else s
    case TerminateCtx(id) => s.WithState(id, Terminated)
    case WakeCtx(id) => Enqueue(s.WithState(id, Ready), id)
    case RemoveCtx(id) => Remove(s, id)
  }

  lemma NewContext(s: Sched, c: Context, next: nat)
    requires Inv(s) && c.id !in s.contexts && c.state == Ready && c.id.n < next && s.nextId <= next
    ensures Inv(Enqueue(s.(nextId := next, contexts := s.contexts[c.id := c]), c.id))
  {
    var r := s.(nextId := next, contexts := s.contexts[c.id := c]);
    forall p ensures r.Queue(p) == s.Queue(p) {
    }
    forall p, id | id in s.Queue(p) ensures Entry(r, p, id) && id != c.id {
      assert Entry(s, p, id);
    }
    Joins(r, c.id);
  }

  lemma YieldInv(s: Sched)
    requires Inv(s)
    ensures Inv(Yield(s))
  {
    if s.current.Some? {
      var id := s.current.value;
      var r := s.(current := None);
      forall p ensures r.Queue(p) == s.Queue(p) {
      }
      if s.contexts[id].state == Running {
        var t := r.WithState(id, Ready);
        forall p, x | x in t.Queue(p) ensures Entry(t, p, x) {
          assert Entry(s, p, x);
        }
        Joins(t, id);
      }
    }
  }

  lemma DeadMember(s: Sched, q: seq<CtxId>, x: CtxId)
    requires AllDead(s, q) && x in q
    ensures Dead(s, x)
  {
  }

  lemma DeadPrefix(s: Sched, q: seq<CtxId>, k: nat, i: nat)
    requires k <= |q| && AllDead(s, q[..k]) && i < k
    ensures Dead(s, q[i])
  {
    assert q[..k][i] == q[i];
  }

  lemma PickInv(s: Sched)
    requires Inv(s) && !RunningNow(s)
    ensures Inv(Pick(s).0)
  {
    var p, k := PickIsFirstRunnable(s);
    var (r, res) := Pick(s);
    if res.Ok? {
      var id := res.value;
      assert id in s.Queue(p) && Entry(s, p, id);
      forall o ensures NoDup(r.Queue(o)) && forall x :: x in r.Queue(o) ==>
        x in s.Queue(o) && x != id && Entry(r, o, x) {
        assert NoDup(s.Queue(o));
        forall x | x in r.Queue(o) ensures x in s.Queue(o) && x != id && Entry(r, o, x) {
          assert Entry(s, o, x);
        }
      }
      forall x | x in r.contexts && r.contexts[x].state == Ready ensures x in r.Queue(r.contexts[x].priority) {
        StillQueued(s, r, p, k, x);
      }
    } else {
      forall x | x in s.contexts ensures s.contexts[x].state != Ready {
        if s.contexts[x].state == Ready {
          DeadMember(s, s.Queue(s.contexts[x].priority), x);
        }
      }
    }
  }

  /** A Ready context that is not the one picked is left in its queue. */
  lemma StillQueued(s: Sched, r: Sched, p: Priority, k: nat, x: CtxId)
    requires k < |s.Queue(p)| && Outcome(s, r, Ok(s.Queue(p)[k]), p, k)
    requires x in s.contexts && s.contexts[x].state == Ready && x in s.Queue(s.contexts[x].priority)
        && x != s.Queue(p)[k]
    ensures x in r.Queue(s.contexts[x].priority)
  {
    var o := s.contexts[x].priority;
    var i :| 0 <= i < |s.Queue(o)| && s.Queue(o)[i] == x;
    assert !Dead(s, s.Queue(o)[i]);
    if o == p {
      if i < k {
        DeadPrefix(s, s.Queue(p), k, i);
      } else {
        assert r.Queue(p)[i - k - 1] == x;
      }
    }
  }

  lemma WithoutIs(q: seq<CtxId>, id: CtxId)
    ensures NoDup(q) ==> NoDup(Without(q, id))
    ensures |Without(q, id)| <= |q|
  {
    if q != [] {
      WithoutIs(q[1..], id);
      if NoDup(q) {
        assert NoDup(q[1..]);
        assert q[0] !in q[1..];
      }
    }
  }

  lemma RemoveInv(s: Sched, id: CtxId)
    requires Inv(s)
    ensures Inv(Remove(s, id))
  {
    var r := Remove(s, id);
    forall p ensures r.Queue(p) == Without(s.Queue(p), id) {
    }
    forall p ensures NoDup(r.Queue(p)) {
      WithoutIs(s.Queue(p), id);
    }
    forall p, x | x in r.Queue(p) ensures Entry(r, p, x) {
      assert Entry(s, p, x);
    }
  }

  lemma TerminateInv(s: Sched, id: CtxId)
    requires Inv(s)
    ensures Inv(s.WithState(id, Terminated))
  {
    var r := s.WithState(id, Terminated);
    forall p, x | x in r.Queue(p) ensures Entry(r, p, x) {
      assert Entry(s, p, x);
    }
  }

  lemma CurrentInv(s: Sched, c: Context)
    requires Inv(s) && RunningNow(s) && c.id == s.current.value && (c.state == Running || c.state == Blocked)
    ensures Inv(s.(contexts := s.contexts[c.id := c]))
  {
    var r := s.(contexts := s.contexts[c.id := c]);
    forall p ensures r.Queue(p) == s.Queue(p) {
    }
    forall p, x | x in r.Queue(p) ensures Entry(r, p, x) && x != c.id {
      assert Entry(s, p, x);
    }
  }

  lemma WakeInv(s: Sched, id: CtxId)
    requires Inv(s) && id in s.contexts && s.contexts[id].state == Blocked && s.current != Some(id)
    ensures Inv(Enqueue(s.WithState(id, Ready), id))
  {
    var r := s.WithState(id, Ready);
    forall p, x | x in r.Queue(p) ensures Entry(r, p, x) && x != id {
      assert Entry(s, p, x);
    }
    Joins(r, id);
  }

  lemma InvStep(s: Sched, e: Event)
    requires Inv(s) && Allowed(s, e)
    ensures Inv(Apply(s, e))
  {
    hide Queued, Tracked, Enqueue, Pick, Yield, Remove;
    match e {
      case CreateCtx(p, pc, root) =>
        FreshId(s);
        NewContext(s, Context(CtxId(s.nextId), p, Ready, pc, root), s.nextId + 1);
      case InsertCtx(c) => NewContext(s, c, if c.id.n >= s.nextId then c.id.n + 1 else s.nextId);
      case PickNext => PickInv(s);
      case YieldCur => YieldInv(s);
      case PreemptCur => YieldInv(s);
      case BlockCur =>
        OwnId(s, s.current.value);
        CurrentInv(s, s.contexts[s.current.value].(state := Blocked));
      case SetPriorityCur(p) =>
        OwnId(s, s.current.value);
        CurrentInv(s, s.contexts[s.current.value].(priority := p));
      case TerminateCtx(id) => TerminateInv(s, id);
      case WakeCtx(id) => WakeInv(s, id);
      case RemoveCtx(id) => RemoveInv(s, id);
    }
  }

  lemma FreshId(s: Sched)
    requires Inv(s)
    ensures CtxId(s.nextId) !in s.contexts
  {
  }

  lemma OwnId(s: Sched, id: CtxId)
    requires Inv(s) && id in s.contexts
    ensures s.contexts[id].id == id
  {
  }

  ghost function Run(s: Sched, es: seq<Event>): Sched
    decreases |es|
  {
    if es == [] then s else Run(Apply(s, es[0]), es[1..])
  }

  ghost predicate AllAllowed(s: Sched, es: seq<Event>)
    decreases |es|
  {
    es == [] || (Allowed(s, es[0]) && AllAllowed(Apply(s, es[0]), es[1..]))
  }

  lemma {:induction false} InvRun(s: Sched, es: seq<Event>)
    requires Inv(s) && AllAllowed(s, es)
    ensures Inv(Run(s, es))
    decreases |es|
  {
    if es != [] {
      InvStep(s, es[0]);
      InvRun(Apply(s, es[0]), es[1..]);
    }
  }

  /** The places at which `id` stands in a queue. */
  ghost function Count(q: seq<CtxId>, id: CtxId): nat {
    if q == [] then 0 else (if q[0] == id then 1 else 0) + Count(q[1..], id)
  }

  lemma {:induction false} CountOnce(q: seq<CtxId>, id: CtxId)
    requires NoDup(q)
    ensures Count(q, id) == if id in q then 1 else 0
  {
    if q != [] {
      assert NoDup(q[1..]);
      assert q[0] !in q[1..];
      CountOnce(q[1..], id);
      assert id in q <==> id == q[0] || id in q[1..];
    }
  }

  /**
    No context is stranded: in any allowed run every Ready context stands exactly
    once in the queue of its priority and in no other, the Running one is current and
    in none, and `NoReadyContext` is returned only when no context is Ready.
  */
  lemma NeverStranded(es: seq<Event>, id: CtxId, p: Priority)
    requires AllAllowed(Empty(), es)
    ensures var s := Run(Empty(), es);
            id in s.contexts ==>
              var c := s.contexts[id];
              && (c.state == Ready ==> Count(s.Queue(p), id) == if p == c.priority then 1 else 0)
              && (c.state == Running ==> s.current == Some(id) && id !in s.Queue(p))
              && (c.state == Ready ==> Pick(s).1.Ok?)
  {
    InvRun(Empty(), es);
    var s := Run(Empty(), es);
    CountOnce(s.Queue(p), id);
    if id in s.contexts && s.contexts[id].state == Ready {
      if id in s.Queue(p) {
        assert Entry(s, p, id);
      }
      var o, k := PickIsFirstRunnable(s);
      if Pick(s).1.Err? {
        DeadMember(s, s.Queue(s.contexts[id].priority), id);
      }
    }
    if id in s.Queue(p) {
      assert Entry(s, p, id);
    }
  }

  /**
    When picking is safe: exactly when nothing is running, or nothing can be picked.
    Otherwise the context that was running is left marked so, outside every queue.
  */
  lemma PickSafeExactly(s: Sched)
    requires Inv(s)
    ensures Inv(Pick(s).0) <==> !RunningNow(s) || Pick(s).1.Err?
  {
    var p, k := PickIsFirstRunnable(s);
    if !RunningNow(s) {
      PickInv(s);
    } else if Pick(s).1.Err? {
      PickErrInv(s, p, k);
    } else {
      assert Entry(s, p, Pick(s).1.value);
    }
  }

  lemma PickErrInv(s: Sched, p: Priority, k: nat)
    requires Inv(s) && Pick(s).1.Err? && Outcome(s, Pick(s).0, Pick(s).1, p, k)
    ensures Inv(Pick(s).0)
  {
    forall x | x in s.contexts && s.contexts[x].state == Ready ensures false {
      DeadMember(s, s.Queue(s.contexts[x].priority), x);
    }
  }

  /** Some pick of the run returns `id`. */
  ghost predicate Picks(s: Sched, es: seq<Event>, id: CtxId)
    decreases |es|
  {
    es != [] && ((es[0].PickNext? && Pick(s).1 == Ok(id)) || Picks(Apply(s, es[0]), es[1..], id))
  }

  // ---------------------------------------------------------------------
  // Bounded wait
  // ---------------------------------------------------------------------

  function PickCount(es: seq<Event>): nat {
    if es == [] then 0 else (if es[0].PickNext? then 1 else 0) + PickCount(es[1..])
  }

  /** No pick of the run finds a runnable context in a band above `p`. */
  ghost predicate QuietAbove(s: Sched, es: seq<Event>, p: Priority)
    decreases |es|
  {
    es == [] ||
    ((es[0].PickNext? ==> forall o :: Above(o, p) ==> AllDead(s, s.Queue(o)))
      && QuietAbove(Apply(s, es[0]), es[1..], p))
  }

  /** `id` waits at position `k` of its queue. */
  ghost predicate WaitsAt(s: Sched, id: CtxId, p: Priority, k: nat) {
    id in s.contexts && s.contexts[id].state == Ready && s.contexts[id].priority == p && k < |s.Queue(p)|
      && s.Queue(p)[k] == id
  }

  /** Nothing but picks shortens the way to the head, and nothing lengthens it. */
  lemma WaitStep(s: Sched, e: Event, id: CtxId, p: Priority, k: nat) returns (j: nat)
    requires Inv(s) && Allowed(s, e) && WaitsAt(s, id, p, k)
    requires !e.PickNext? && e != TerminateCtx(id) && e != RemoveCtx(id)
    ensures j <= k && WaitsAt(Apply(s, e), id, p, j)
  {
    j := k;
    hide Pick, Without, Enqueue;
    match e {
      case RemoveCtx(x) =>
        j := WithoutPosition(s.Queue(p), x, k);
        assert Remove(s, x).Queue(p) == Without(s.Queue(p), x);
      case CreateCtx(o, pc, root) =>
        FreshId(s);
        var x := CtxId(s.nextId);
        EnqueueBehind(s.(nextId := s.nextId + 1, contexts := s.contexts[x := Context(x, o, Ready, pc, root)]), x, id,
          p, k);
      case InsertCtx(c) =>
        var next := if c.id.n >= s.nextId then c.id.n + 1 else s.nextId;
        EnqueueBehind(s.(nextId := next, contexts := s.contexts[c.id := c]), c.id, id, p, k);
      case WakeCtx(x) => EnqueueBehind(s.WithState(x, Ready), x, id, p, k);
      case YieldCur => YieldBehind(s, id, p, k);
      case PreemptCur => YieldBehind(s, id, p, k);
      case _ =>
    }
  }

  lemma EnqueueBehind(s: Sched, x: CtxId, id: CtxId, p: Priority, k: nat)
    requires WaitsAt(s, id, p, k)
    ensures WaitsAt(Enqueue(s, x), id, p, k)
  {
  }

  lemma YieldBehind(s: Sched, id: CtxId, p: Priority, k: nat)
    requires Inv(s) && WaitsAt(s, id, p, k)
    ensures WaitsAt(Yield(s), id, p, k)
  {
    hide Enqueue;
    if s.current.Some? {
      var r := s.(current := None);
      EnqueueBehind(r, s.current.value, id, p, k);
      EnqueueBehind(r.WithState(s.current.value, Ready), s.current.value, id, p, k);
    }
  }

  lemma WithoutPosition(q: seq<CtxId>, x: CtxId, k: nat) returns (j: nat)
    requires k < |q| && q[k] != x
    ensures j <= k && j < |Without(q, x)| && Without(q, x)[j] == q[k]
  {
    if q[0] == x {
      j := WithoutPosition(q[1..], x, k - 1);
    } else if k == 0 {
      j := 0;
    } else {
      j := WithoutPosition(q[1..], x, k - 1);
      j := j + 1;
    }
  }

  lemma PickAdvances(s: Sched, id: CtxId, p: Priority, k: nat) returns (j: nat)
    requires Inv(s) && WaitsAt(s, id, p, k) && forall o :: Above(o, p) ==> AllDead(s, s.Queue(o))
    ensures Pick(s).1.Ok?
    ensures Pick(s).1 != Ok(id) ==> j < k && WaitsAt(Pick(s).0, id, p, j)
  {
    hide Pick, Dead, AllDead, WaitsAt, Inv, NoDup;
    j := 0;
    var o, i := PickIsFirstRunnable(s);
    FirstIsNoLater(s, id, p, k, o, i);
    NoDups(s, p);
    if i < k {
      j := k - i - 1;
      BehindPicked(s, Pick(s).0, id, p, k, i);
    }
  }

  lemma NoDups(s: Sched, p: Priority)
    requires Inv(s)
    ensures NoDup(s.Queue(p))
  {
  }

  lemma BehindPicked(s: Sched, r: Sched, id: CtxId, p: Priority, k: nat, i: nat)
    requires NoDup(s.Queue(p)) && WaitsAt(s, id, p, k) && i < k
    requires Outcome(s, r, Ok(s.Queue(p)[i]), p, i)
    ensures s.Queue(p)[i] != id && WaitsAt(r, id, p, k - i - 1)
  {
    hide Dead, AllDead;
  }

  lemma FirstIsNoLater(s: Sched, id: CtxId, p: Priority, k: nat, o: Priority, i: nat)
    requires WaitsAt(s, id, p, k) && forall b :: Above(b, p) ==> AllDead(s, s.Queue(b))
    requires Outcome(s, Pick(s).0, Pick(s).1, o, i) && (Pick(s).1.Err? <==> forall b :: AllDead(s, s.Queue(b)))
    ensures Pick(s).1.Ok? && o == p && i <= k && (i == k ==> Pick(s).1 == Ok(id))
  {
    assert !AllDead(s, s.Queue(p)) by {
      assert !Dead(s, s.Queue(p)[k]);
    }
    if i > k && o == p {
      DeadPrefix(s, s.Queue(p), i, k);
    }
  }

  /**
    Bounded wait: a context waiting at position `k` is run within `k + 1` picks,
    whatever else happens, as long as no band above has anything to run and the
    context is not itself ended or removed.
  */
  lemma {:induction false} BoundedWait(s: Sched, es: seq<Event>, id: CtxId, p: Priority, k: nat)
    requires Inv(s) && AllAllowed(s, es) && WaitsAt(s, id, p, k) && QuietAbove(s, es, p)
    requires forall i :: 0 <= i < |es| ==> es[i] != TerminateCtx(id) && es[i] != RemoveCtx(id)
    requires PickCount(es) >= k + 1
    ensures Picks(s, es, id)
    decreases |es|
  {
    var e := es[0];
    InvStep(s, e);
    if e.PickNext? {
      var j := PickAdvances(s, id, p, k);
      if Pick(s).1 != Ok(id) {
        BoundedWait(Apply(s, e), es[1..], id, p, j);
      }
    } else {
      var j := WaitStep(s, e, id, p, k);
      BoundedWait(Apply(s, e), es[1..], id, p, j);
    }
  }

  // ---------------------------------------------------------------------
  // The object
  // ---------------------------------------------------------------------

  class Scheduler {
    var redQ: seq<CtxId>
    var blueQ: seq<CtxId>
    var greenQ: seq<CtxId>
    var contexts: map<CtxId, Context>
    var nextId: nat
    var current: Option<CtxId>

    ghost function State(): Sched
      reads this
    {
      Sched(redQ, blueQ, greenQ, contexts, nextId, current)
    }

    constructor ()
      ensures State() == Empty() && Inv(State())
    {
      redQ, blueQ, greenQ, contexts := [], [], [], map[];
      nextId, current := 1, None;
    }

    method CreateContext(p: Priority, pc: nat, root: nat) returns (id: CtxId)
      modifies this
      ensures State() == Create(old(State()), p, pc, root) && id == CtxId(old(nextId))
    {
      id := CtxId(nextId);
      nextId := nextId + 1;
      contexts := contexts[id := Context(id, p, Ready, pc, root)];
      EnqueueId(id);
    }

    method InsertContext(c: Context)
      modifies this
      ensures State() == Insert(old(State()), c)
    {
      if c.id.n >= nextId {
        nextId := c.id.n + 1;
      }
      contexts := contexts[c.id := c];
      EnqueueId(c.id);
    }

    method EnqueueId(id: CtxId)
      modifies `redQ, `blueQ, `greenQ
      ensures State() == Enqueue(old(State()), id)
    {
      if id in contexts {
        if contexts[id].state == Terminated {
          return;
        }
        match contexts[id].priority {
          case Red => redQ := redQ + [id];
          case Blue => blueQ := blueQ + [id];
          case Green => greenQ := greenQ + [id];
        }
      }
    }

    method RemoveContext(id: CtxId) returns (c: Option<Context>)
      modifies this
      ensures State() == Remove(old(State()), id)
      ensures c == if id in old(contexts) then Some(old(contexts)[id]) else None
    {
      redQ, blueQ, greenQ := Without(redQ, id), Without(blueQ, id), Without(greenQ, id);
      if current == Some(id) {
        current := None;
      }
      c := if id in contexts then Some(contexts[id]) else None;
      contexts := contexts - {id};
    }

    /** The tail shared by the three bands: the entry becomes current and running. */
    method Dispatch(id: CtxId)
      modifies `current, `contexts
      ensures State() == old(State()).WithState(id, Running).(current := Some(id))
    {
      current := Some(id);
      if id in contexts {
        contexts := contexts[id := contexts[id].(state := Running)];
      }
    }

    method PickNextContext() returns (r: Result<CtxId, SchedError>)
      modifies `redQ, `blueQ, `greenQ, `current, `contexts
      ensures State() == Pick(old(State())).0 && r == Pick(old(State())).1
      decreases |redQ| + |blueQ| + |greenQ|
    {
      if redQ != [] {
        var id := redQ[0];
        redQ := redQ[1..];
        if id in contexts && (contexts[id].state == Terminated || contexts[id].state == Blocked) {
          r := PickNextContext();
          return;
        }
        Dispatch(id);
        return Ok(id);
      }
      if blueQ != [] {
        var id := blueQ[0];
        blueQ := blueQ[1..];
        if id in contexts && (contexts[id].state == Terminated || contexts[id].state == Blocked) {
          r := PickNextContext();
          return;
        }
        Dispatch(id);
        return Ok(id);
      }
      if greenQ != [] {
        var id := greenQ[0];
        greenQ := greenQ[1..];
        if id in contexts && (contexts[id].state == Terminated || contexts[id].state == Blocked) {
          r := PickNextContext();
          return;
        }
        Dispatch(id);
        return Ok(id);
      }
      return Err(NoReadyContext);
    }

    method YieldCurrent()
      modifies `redQ, `blueQ, `greenQ, `current, `contexts
      ensures State() == Yield(old(State()))
    {
      if current.Some? {
        var id := current.value;
        current := None;
        if id in contexts {
          if contexts[id].state == Running {
            contexts := contexts[id := contexts[id].(state := Ready)];
          }
          if contexts[id].state == Ready {
            match contexts[id].priority {
              case Red => redQ := redQ + [id];
              case Blue => blueQ := blueQ + [id];
              case Green => greenQ := greenQ + [id];
            }
          }
        }
      }
    }

    method MaybePreempt()
      modifies `redQ, `blueQ, `greenQ, `current, `contexts
      ensures State() == Preempt(old(State()))
    {
      if redQ != [] {
        if current.Some? && current.value in contexts {
          if contexts[current.value].priority != Red {
            YieldCurrent();
          }
        }
      }
    }
  }
}
