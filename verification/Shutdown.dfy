/**
 Vector callbacks, which run in their callers' tasks, against the
 shutdown of the handler: one semaphore, one pointer to the handler, and one
 I/O request that belongs to whoever is inside.
 */
module Shutdown {
  import opened Basics

  type Task = nat

  /** The handler's own task. */
  const HANDLER: Task := 0

  /** What all tasks share. A task waits in the queue of the semaphore, owns it,
      or is outside; leaving says that the owner has given its request back. */
  datatype State = State(
    attached: bool,
    owner: Option<Task>,
    leaving: bool,
    queue: seq<Task>,
    objects: nat,
    request: Option<Task>,
    closed: bool)

  /** One step of one task that nothing comes between. */
  datatype Action =
    | Acquire(task: Task)
    | Create(task: Task)
    | Destroy(task: Task)
    | MakeRequest(task: Task)
    | ReturnRequest(task: Task)
    | Release(task: Task)
    | HandlerLock
    | BeginShutdown

  predicate Outside(s: State, t: Task) {
    s.owner != Some(t) && t !in s.queue
  }

  // ----- the semaphore -----

  /** A task gets the semaphore, or joins its queue. */
  function Obtain(s: State, t: Task): State {
    if s.owner == None then s.(owner := Some(t), leaving := false) else s.(queue := s.queue + [t])
  }

  /** The semaphore goes to the first task that waits for it. */
  function Pass(s: State): State {
    if s.queue == [] then s.(owner := None, leaving := false)
    else s.(owner := Some(s.queue[0]), queue := s.queue[1..], leaving := false)
  }

  // ----- the steps -----

  /** Whether a task is where it can take a step. */
  predicate Enabled(s: State, a: Action) {
    match a
    case Acquire(t) => t != HANDLER && Outside(s, t)
    case Create(t) => s.owner == Some(t) && !s.leaving && (t == HANDLER ==> !s.closed)
    case Destroy(t) => s.owner == Some(t) && !s.leaving && s.objects > 0
    case MakeRequest(t) => s.owner == Some(t) && !s.leaving && t != HANDLER
    case ReturnRequest(t) => s.owner == Some(t) && !s.leaving && t != HANDLER
    case Release(t) => s.owner == Some(t) && (s.leaving || t == HANDLER)
    case HandlerLock => Outside(s, HANDLER)
    case BeginShutdown => Outside(s, HANDLER) && !s.closed
  }

  /** Whether an attempt to shut down would succeed. */
  predicate Idle(s: State) {
    s.owner == None && s.objects == 0
  }

  /** Acquire looks the handler up and joins the semaphore in one step, since
      task switching is off; so does the attempt to shut down, which never waits. */
  function Next(s: State, a: Action): State {
    match a
    case Acquire(t) => if s.attached then Obtain(s, t) else s
    case Create(_) => s.(objects := s.objects + 1)
    case Destroy(_) => if s.objects > 0 then s.(objects := s.objects - 1) else s
    case MakeRequest(t) => if s.request == None then s.(request := Some(t)) else s
    case ReturnRequest(t) => s.(request := if s.request == Some(t) then None else s.request, leaving := true)
    case Release(_) => Pass(s)
    case HandlerLock => Obtain(s, HANDLER)
    case BeginShutdown => if Idle(s) then s.(attached := false, closed := true) else s
  }

  predicate Starts(s: State) {
    s.owner == None && !s.leaving && s.queue == [] && s.objects == 0 && s.request == None && !s.closed
  }

  /** A run of steps, each of them enabled. */
  predicate Runs(s: State, actions: seq<Action>)
    decreases |actions|
  {
    actions == [] || (Runs(s, actions[..|actions| - 1]) && Enabled(After(s, actions[..|actions| - 1]), actions[|actions| - 1]))
  }

  function After(s: State, actions: seq<Action>): State
    decreases |actions|
  {
    if actions == [] then s else Next(After(s, actions[..|actions| - 1]), actions[|actions| - 1])
  }

  // ----- what every step keeps -----

  ghost predicate Inv(s: State) {
    && (s.owner == None ==> s.queue == [] && !s.leaving)
    && NoDup(s.queue) && (s.owner.Some? ==> s.owner.value !in s.queue)
    && (s.leaving ==> s.owner != Some(HANDLER))
    // a request out is that of the owner, which is not on its way out
    && (s.request.Some? ==> s.owner == s.request && s.request != Some(HANDLER) && !s.leaving)
    // once closed, only the handler itself comes in, and there are no objects
    && (s.closed ==> !s.attached && s.objects == 0 && OnlyHandler(s))
  }

  /** Nobody but the handler holds the semaphore or waits for it. */
  ghost predicate OnlyHandler(s: State) {
    (s.owner.Some? ==> s.owner.value == HANDLER) && forall i :: 0 <= i < |s.queue| ==> s.queue[i] == HANDLER
  }

  lemma {:induction false} StepKeepsInv(s: State, a: Action)
    requires Inv(s) && Enabled(s, a)
    ensures Inv(Next(s, a))
  {
    match a
    case Acquire(t) => NoDupAppend(s.queue, t);
    case HandlerLock => NoDupAppend(s.queue, HANDLER);
    case Release(_) => NoDupTail(s.queue);
    case _ =>
  }

  lemma {:induction false} NoDupAppend(l: seq<Task>, t: Task)
    ensures NoDup(l) && t !in l ==> NoDup(l + [t])
  {
  }

  lemma {:induction false} NoDupTail(l: seq<Task>)
    ensures l != [] && NoDup(l) ==> NoDup(l[1..]) && l[0] !in l[1..]
  {
  }

  lemma {:induction false} RunKeepsInv(s: State, actions: seq<Action>)
    requires Inv(s) && Runs(s, actions)
    ensures Inv(After(s, actions))
    decreases |actions|
  {
    hide Inv, Next, Enabled;
    if actions != [] {
      RunKeepsInv(s, actions[..|actions| - 1]);
      StepKeepsInv(After(s, actions[..|actions| - 1]), actions[|actions| - 1]);
    }
  }

  lemma {:induction false} StartKeepsInv(s: State)
    requires Starts(s)
    ensures Inv(s)
  {
  }

  // ----- what holds of every run -----

  /** Once an attempt to shut down has succeeded, then ever after nobody but the
      handler holds the semaphore or waits for it, no lookup finds the handler,
      and there is no lock and no file handle. */
  lemma {:induction false} ClosedIsQuiet(s: State, before: seq<Action>, after: seq<Action>)
    requires Starts(s) && Runs(s, before) && Runs(After(s, before), after)
    requires After(s, before).closed
    ensures var e := After(After(s, before), after);
            && e.closed && !e.attached && e.objects == 0
            && OnlyHandler(e) && (forall t: Task :: Next(e, Acquire(t)) == e)
  {
    StartKeepsInv(s);
    RunKeepsInv(s, before);
    RunKeepsInv(After(s, before), after);
    StaysClosed(After(s, before), after);
  }

  lemma {:induction false} StaysClosed(s: State, actions: seq<Action>)
    requires s.closed
    ensures After(s, actions).closed
    decreases |actions|
  {
    if actions != [] {
      StaysClosed(s, actions[..|actions| - 1]);
    }
  }

  /** Whenever the semaphore is free, and whenever it is being released, no
      caller's I/O request is out; a task never meets that of another. */
  lemma {:induction false} RequestsStayInside(s: State, actions: seq<Action>)
    requires Starts(s) && Runs(s, actions)
    ensures var e := After(s, actions);
            && (e.owner == None ==> e.request == None)
            && (forall t: Task :: Enabled(e, Release(t)) ==> e.request == None && Next(e, Release(t)).request == None)
            && (forall t: Task :: Enabled(e, MakeRequest(t)) ==> Next(e, MakeRequest(t)).request == Some(t))
  {
    StartKeepsInv(s);
    RunKeepsInv(s, actions);
  }

  /** An attempt to shut down succeeds exactly when nobody is inside and there
      are no objects; and then nobody waits either. */
  lemma {:induction false} ShutdownOnlyWhenIdle(s: State, actions: seq<Action>)
    requires Starts(s) && Runs(s, actions) && Enabled(After(s, actions), BeginShutdown)
    ensures var e := After(s, actions);
            && (Next(e, BeginShutdown).closed <==> e.owner == None && e.objects == 0)
            && (Next(e, BeginShutdown).closed ==> e.queue == [] && e.request == None)
            && (!Next(e, BeginShutdown).closed ==> Next(e, BeginShutdown) == e)
  {
    StartKeepsInv(s);
    RunKeepsInv(s, actions);
  }

  /** Looking the handler up and joining its semaphore must not come apart: a
      task that had found the handler before it closed would get in afterwards. */
  lemma {:induction false} LookupMustJoinAtOnce(s: State, t: Task)
    requires Inv(s) && Enabled(s, Acquire(t)) && Enabled(s, BeginShutdown) && s.attached && Idle(s)
    ensures var c := Next(s, BeginShutdown);
            && c.closed && Next(c, Acquire(t)) == c
            && Obtain(c, t).owner == Some(t) && !Inv(Obtain(c, t))
  {
  }

  // ----- the guard itself -----

  /** The shared fields, and the two sections that run with task switching off. */
  class Guard {
    var attached: bool
    var owner: Option<Task>
    var leaving: bool
    var queue: seq<Task>
    var objects: nat
    var request: Option<Task>
    var closed: bool

    function Shared(): State
      reads this
    {
      State(attached, owner, leaving, queue, objects, request, closed)
    }

    constructor (attached: bool)
      ensures Starts(Shared()) && this.attached == attached
    {
      this.attached := attached;
      owner, leaving, queue, objects, request, closed := None, false, [], 0, None, false;
    }

    method ObtainSemaphore(t: Task)
      modifies this`owner, this`leaving, this`queue
      ensures Shared() == Obtain(old(Shared()), t)
    {
      if owner == None {
        owner, leaving := Some(t), false;
      } else {
        queue := queue + [t];
      }
    }

    method AttemptSemaphore(t: Task) returns (ok: bool)
      requires owner != Some(t)
      modifies this`owner, this`leaving
      ensures ok <==> old(owner) == None
      ensures Shared() == if ok then Obtain(old(Shared()), t) else old(Shared())
    {
      ok := owner == None;
      if ok {
        owner, leaving := Some(t), false;
      }
    }

    method ReleaseSemaphore()
      modifies this`owner, this`leaving, this`queue
      ensures Shared() == Pass(old(Shared()))
    {
      leaving := false;
      if queue == [] {
        owner := None;
      } else {
        owner, queue := Some(queue[0]), queue[1..];
      }
    }

    /** Look the handler up for a callback, and wait for its turn. */
    method AcquireHandler(t: Task) returns (found: bool)
      requires Enabled(Shared(), Acquire(t))
      modifies this`owner, this`leaving, this`queue
      ensures Shared() == Next(old(Shared()), Acquire(t))
      ensures found <==> attached
      ensures found <==> !Outside(Shared(), t)
    {
      found := attached;
      if found {
        ObtainSemaphore(t);
      }
    }

    /** Leave the handler: the caller's request goes before the semaphore. */
    method Unlock(t: Task)
      requires Inv(Shared()) && Enabled(Shared(), ReturnRequest(t))
      modifies this
      ensures Shared() == Next(Next(old(Shared()), ReturnRequest(t)), Release(t))
      ensures request == None
    {
      if request == Some(t) {
        request := None;
      }
      leaving := true;
      ReleaseSemaphore();
    }

    /** Close the handler to callbacks, unless it is in use. */
    method TryShutdown() returns (idle: bool)
      requires Inv(Shared()) && Enabled(Shared(), BeginShutdown)
      modifies this
      ensures Shared() == Next(old(Shared()), BeginShutdown)
      ensures idle <==> Shared().closed
      ensures idle <==> old(owner == None && objects == 0)
    {
      var free := AttemptSemaphore(HANDLER);
      if !free {
        return false;
      }
      idle := objects == 0;
      if idle {
        attached := false;
        closed := true;
      }
      ReleaseSemaphore();
    }
  }
}
