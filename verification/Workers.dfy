/** `coreimpl`: the worker threads, the shared backlog and the queues, as a transition system.
    A step is what one thread does between two points where others may interfere. */
module Workers {
  import opened Common

  type Ident = int
  type Task = int

  const OUT: Ident := -1  // m_out->ident(), distinct from every descriptor
  const BACKLOG_SIZE: nat := 256
  const TASK_QUEUE_LIMIT: nat := 16
  const NOBODY := -1

  /** Where a worker is in `coreimpl::operator()`. */
  datatype Pc =
    | Retry                    // about to lock m_mutex at the head of the loop
    | Check                    // holds the lock, about to read m_end_flag
    | Decide                   // holds the lock, saw the end flag unset
    | Waiting                  // blocked in m_cond.wait
    | Woken                    // out of the wait, must lock m_mutex again
    | Polling                  // in m_port.wait, without the lock
    | Polled(num: nat)         // events are in m_backlog, about to lock m_mutex again
    | Dispatch                 // holds the lock, about to take an event from the backlog
    | Handling(e: Ident)       // runs the handler of the event
    | Removing(e: Ident)       // the handler failed: about to shot_remove
    | Resetting(e: Ident)      // about to reset_handler
    | Reactivating(e: Ident)   // about to shot_reactivate
    | OutTask(fd: int)         // in write_event
    | RunTask(t: Task)         // runs a submitted task
    | Returned
  {
    predicate HoldsLock() { Check? || Decide? || Dispatch? }
    predicate InPoll() { Polling? || Polled? }
    /** The worker is responsible for the fired registration of `i`. */
    predicate HoldsEvent(i: Ident) { (Handling? || Removing? || Reactivating?) && e == i }
  }

  /** EPOLLONESHOT disarms a registration when its event is returned. */
  datatype Reg = Armed | Fired

  /** `port` are the registrations, `handlers` the non-null entries of m_state, and `adding` the
      calls of add_handler between setting the handler and adding the descriptor. */
  datatype Tables = Tables(port: map<Ident, Reg>, handlers: set<Ident>, adding: set<Ident>)

  /** `locker` is the thread that holds m_mutex and `poller` the one between setting m_pollable
      to false and to true. */
  datatype State = State(
    w: seq<Pc>, locker: int, poller: int,
    off: nat, num: nat, pollable: bool, backlog: seq<Ident>, ended: bool, broadcasted: bool,
    tasks: seq<Task>, outq: seq<int>,
    reg: Tables)
  {
    function Goto(t: nat, pc: Pc): State
      requires t < |w|
    {
      this.(w := w[t := pc])
    }

    function Unlock(t: nat, pc: Pc): State
      requires t < |w|
    {
      Goto(t, pc).(locker := NOBODY)
    }

    predicate At(t: nat, pc: Pc) {
      t < |w| && w[t] == pc
    }

    /** Whom `m_cond.signal()` may wake: some waiter, if there is one. */
    predicate CanWake(wake: nat) {
      (exists t :: 0 <= t < |w| && w[t] == Waiting) ==> At(wake, Waiting)
    }

    function Signal(wake: nat): State {
      if At(wake, Waiting) then Goto(wake, Woken) else this
    }
  }

  function Start(n: nat): State {
    State(seq(n, _ => Retry), NOBODY, NOBODY, 0, 0, true, [], false, false, [], [],
          Tables(map[OUT := Armed], {OUT}, {}))
  }

  datatype Step =
    // one worker
    | Lock(t: nat, wake: nat)              // lock m_mutex; after a poll, install the backlog
    | ReadEnd(t: nat)
    | Choose(t: nat, wake: nat)            // the branches after the end test
    | Take(t: nat, ready: seq<int>)        // take an event; poll_event finds `ready`
    | PollReturns(t: nat, events: seq<Ident>)
    | PollTimeout(t: nat)
    | HandlerReturns(t: nat, cont: bool)
    | ShotRemove(t: nat)
    | ResetHandler(t: nat)
    | ShotReactivate(t: nat)
    | TaskReturns(t: nat)
    | SpuriousWakeup(t: nat)
    // any thread
    | Submit(task: Task, wake: nat)
    | SetHandler(i: Ident)
    | AddFd(i: Ident)
    | SetEndFlag
    | Broadcast

  predicate ByWorker(st: Step) {
    !(st.Submit? || st.SetHandler? || st.AddFd? || st.SetEndFlag? || st.Broadcast? || st.SpuriousWakeup?)
  }

  predicate Distinct(s: seq<int>) {
    forall i, j :: 0 <= i < j < |s| ==> s[i] != s[j]
  }

  ghost predicate Enabled(s: State, st: Step) {
    match st
    case Lock(t, wake) =>
      && t < |s.w| && s.locker == NOBODY && (s.w[t].Retry? || s.w[t].Woken? || s.w[t].Polled?)
      && (s.w[t].Polled? ==> s.CanWake(wake))
    case ReadEnd(t) => s.At(t, Check)
    case Choose(t, wake) => s.At(t, Decide) && s.CanWake(wake)
    case Take(t, ready) => s.At(t, Dispatch) && s.off < |s.backlog|
    case PollReturns(t, events) =>
      && s.At(t, Polling) && 0 < |events| <= BACKLOG_SIZE && Distinct(events)
      && forall e :: e in events ==> e in s.reg.port && s.reg.port[e] == Armed
    case PollTimeout(t) => s.At(t, Polling)
    case HandlerReturns(t, _) => t < |s.w| && s.w[t].Handling?
    case ShotRemove(t) => t < |s.w| && s.w[t].Removing?
    case ResetHandler(t) => t < |s.w| && s.w[t].Resetting?
    case ShotReactivate(t) => t < |s.w| && s.w[t].Reactivating?
    case TaskReturns(t) => t < |s.w| && (s.w[t].OutTask? || s.w[t].RunTask?)
    case SpuriousWakeup(t) => s.At(t, Waiting)
    case Submit(_, wake) => s.locker == NOBODY && s.CanWake(wake)
    // a handler in m_state keeps its descriptor open, so a new descriptor has none
    case SetHandler(i) => i !in s.reg.handlers
    case AddFd(i) => i in s.reg.adding
    case SetEndFlag => true
    case Broadcast => s.ended && s.locker == NOBODY
  }

  /** do_task: pops a task and passes the signal on if more are queued. */
  function DoTask(s: State, t: nat, wake: nat): State
    requires t < |s.w| && s.tasks != []
  {
    var s' := s.(tasks := s.tasks[1..]);
    var s'' := if s'.tasks != [] then s'.Signal(wake) else s';
    s''.Unlock(t, RunTask(s.tasks[0]))
  }

  function Chosen(s: State, t: nat, wake: nat): State
    requires t < |s.w|
  {
    if !s.pollable then
      if s.outq != [] then s.(outq := s.outq[1..]).Unlock(t, OutTask(s.outq[0]))
      else if s.tasks != [] then DoTask(s, t, wake)
      else s.Unlock(t, Waiting)
    else if |s.tasks| > TASK_QUEUE_LIMIT then DoTask(s, t, wake)
    else if s.num == s.off then s.(pollable := false, poller := t).Unlock(t, Polling)
    else s.Goto(t, Dispatch)
  }

  /** EPOLL_CTL_MOD: nothing happens to an ident that is not registered. */
  function Rearm(port: map<Ident, Reg>, e: Ident): map<Ident, Reg> {
    if e in port then port[e := Armed] else port
  }

  /** The port disarms what it returns. */
  function FireAll(port: map<Ident, Reg>, events: seq<Ident>): map<Ident, Reg> {
    map i | i in port :: if i in events then Fired else port[i]
  }

  function WakeAll(w: seq<Pc>): (r: seq<Pc>)
    ensures |r| == |w|
    ensures forall t :: 0 <= t < |w| ==> r[t] == if w[t] == Waiting then Woken else w[t]
    ensures forall pc :: pc != Waiting && pc != Woken ==> multiset(r)[pc] == multiset(w)[pc]
  {
    if w == [] then []
    else
      assert w == [w[0]] + w[1..];
      [if w[0] == Waiting then Woken else w[0]] + WakeAll(w[1..])
  }

  ghost function Apply(s: State, st: Step): State
    requires Enabled(s, st)
  {
    match st
    case Lock(t, wake) =>
      if s.w[t].Polled? then
        s.(off := 0, num := s.w[t].num, pollable := true, poller := NOBODY)
         .Signal(wake).Goto(t, Dispatch).(locker := t)
      else s.Goto(t, Check).(locker := t)
    case ReadEnd(t) => if s.ended then s.Unlock(t, Returned) else s.Goto(t, Decide)
    case Choose(t, wake) => Chosen(s, t, wake)
    case Take(t, ready) =>
      var e := s.backlog[s.off];
      var s' := s.(off := s.off + 1);
      if e == OUT then s'.(outq := s.outq + ready).Unlock(t, Reactivating(e))
      else s'.Unlock(t, Handling(e))
    case PollReturns(t, events) =>
      s.(backlog := events, reg := s.reg.(port := FireAll(s.reg.port, events)))
       .Goto(t, Polled(|events|))
    case PollTimeout(t) =>
      if s.ended then s.(pollable := true, poller := NOBODY).Goto(t, Returned) else s
    case HandlerReturns(t, cont) =>
      s.Goto(t, if cont then Reactivating(s.w[t].e) else Removing(s.w[t].e))
    case ShotRemove(t) => s.(reg := s.reg.(port := s.reg.port - {s.w[t].e})).Goto(t, Resetting(s.w[t].e))
    case ResetHandler(t) => s.(reg := s.reg.(handlers := s.reg.handlers - {s.w[t].e})).Goto(t, Retry)
    case ShotReactivate(t) =>
      s.(reg := s.reg.(port := Rearm(s.reg.port, s.w[t].e))).Goto(t, Retry)
    case TaskReturns(t) => s.Goto(t, Retry)
    case SpuriousWakeup(t) => s.Goto(t, Woken)
    case Submit(task, wake) =>
      s.(tasks := s.tasks + [task]).Signal(wake)
    case SetHandler(i) => s.(reg := s.reg.(handlers := s.reg.handlers + {i}, adding := s.reg.adding + {i}))
    case AddFd(i) => s.(reg := s.reg.(adding := s.reg.adding - {i}, port := s.reg.port[i := Armed]))
    case SetEndFlag => s.(ended := true)
    case Broadcast =>
      s.(w := WakeAll(s.w), broadcasted := true)
  }

  // ----- the invariant, in parts

  /** The lock is held by exactly the worker inside a critical section. */
  ghost predicate LockInv(s: State) {
    && (s.locker == NOBODY || (0 <= s.locker < |s.w| && s.w[s.locker].HoldsLock()))
    && forall t :: 0 <= t < |s.w| && s.w[t].HoldsLock() ==> t == s.locker
  }

  /** m_pollable is false exactly while one worker polls, and no other one does. */
  ghost predicate PollInv(s: State) {
    && (s.pollable <==> s.poller == NOBODY)
    && (!s.pollable ==> 0 <= s.poller < |s.w| && s.w[s.poller].InPoll())
    && forall t :: 0 <= t < |s.w| && s.w[t].InPoll() ==> t == s.poller
  }

  /** The events not yet dispatched: the new batch, or the rest of the backlog. */
  ghost function Rest(s: State): seq<Ident>
    requires PollInv(s) && CursorInv(s)
  {
    if !s.pollable && s.w[s.poller].Polled? then s.backlog else s.backlog[s.off..s.num]
  }

  /** The backlog is only overwritten when it is used up, and only read below m_num. */
  ghost predicate CursorInv(s: State)
    requires PollInv(s)
  {
    && s.off <= s.num <= BACKLOG_SIZE && |s.backlog| <= BACKLOG_SIZE
    && (!s.pollable ==> s.off == s.num)
    && (!s.pollable && s.w[s.poller].Polled? ==> s.w[s.poller].num == |s.backlog| > 0)
    && (s.pollable || s.w[s.poller].Polling? ==> s.num <= |s.backlog|)
    && forall t :: 0 <= t < |s.w| && s.w[t] == Dispatch ==> s.pollable && s.off < s.num
  }

  /** Some thread is up for the work there is. */
  ghost predicate UpBut(s: State, other: int) {
    exists t :: 0 <= t < |s.w| && t != other && s.w[t] != Waiting
  }

  ghost predicate TwoUp(s: State) {
    exists t, u :: 0 <= t < |s.w| && 0 <= u < |s.w| && t != u && s.w[t] != Waiting && s.w[u] != Waiting
  }

  /** No wakeup is lost: while nobody polls, two workers are up; while somebody polls and there
      is work in a queue, another one is up. */
  ghost predicate WakeInv(s: State) {
    |s.w| >= 2 && !s.ended ==>
      && (s.pollable ==> TwoUp(s))
      && (!s.pollable && (s.outq != [] || s.tasks != []) ==> UpBut(s, s.poller))
  }

  /** After the broadcast nobody is blocked, or on the way to. */
  ghost predicate EndInv(s: State) {
    s.broadcasted ==> s.ended && forall t :: 0 <= t < |s.w| ==> s.w[t] != Waiting && s.w[t] != Decide
  }

  /** What matters to registrations: the events left to dispatch, where the workers are, and
      the tables. */
  datatype View = View(rest: multiset<Ident>, w: multiset<Pc>, reg: Tables)

  ghost function ViewOf(s: State): View
    requires PollInv(s) && CursorInv(s)
  {
    View(multiset(Rest(s)), multiset(s.w), s.reg)
  }

  /** The events of `e` on their way: not yet dispatched, or with a worker. */
  ghost function Copies(v: View, e: Ident): nat {
    v.rest[e] + v.w[Handling(e)] + v.w[Removing(e)] + v.w[Reactivating(e)]
  }

  /** A registered ident has a handler and one event on its way exactly while it is disarmed.
      Otherwise a handler is only set on the way in or out: by one call that is adding it or by
      one worker that is about to reset it. */
  ghost predicate IdentOk(v: View, e: Ident) {
    if e in v.reg.port then
      && Copies(v, e) == (if v.reg.port[e] == Fired then 1 else 0)
      && e in v.reg.handlers && e !in v.reg.adding && v.w[Resetting(e)] == 0
    else
      && Copies(v, e) == 0
      && v.w[Resetting(e)] + (if e in v.reg.adding then 1 else 0) == if e in v.reg.handlers then 1 else 0
  }

  ghost predicate ViewOk(v: View) {
    && (forall e :: IdentOk(v, e))
    && OUT in v.reg.port && v.w[Handling(OUT)] == 0 && v.w[Removing(OUT)] == 0
  }

  ghost predicate RegInv(s: State)
    requires PollInv(s) && CursorInv(s)
  {
    ViewOk(ViewOf(s))
  }

  /** The part of the invariant about the lock, the poller and the backlog cursor. */
  ghost predicate ControlInv(s: State) {
    LockInv(s) && PollInv(s) && CursorInv(s) && EndInv(s)
  }

  ghost predicate Inv(s: State) {
    ControlInv(s) && WakeInv(s) && RegInv(s)
  }

  // ----- steps keep the control invariant

  /** Workers outside the critical sections and the poll move among themselves. */
  ghost predicate Quiet(s: State, s': State) {
    && |s'.w| == |s.w|
    && (forall u :: 0 <= u < |s.w| ==>
          s'.w[u] == s.w[u] || (!s.w[u].HoldsLock() && !s.w[u].InPoll() && !s'.w[u].HoldsLock() && !s'.w[u].InPoll()))
    && (forall u :: 0 <= u < |s.w| && s'.w[u] == Waiting ==> s.w[u] == Waiting)
  }

  ghost predicate SameControl(s: State, s': State) {
    && s'.locker == s.locker && s'.poller == s.poller && s'.pollable == s.pollable
    && s'.off == s.off && s'.num == s.num && s'.backlog == s.backlog
  }

  predicate IsQuiet(st: Step) {
    !(st.Lock? || st.ReadEnd? || st.Choose? || st.Take? || st.PollReturns? || st.PollTimeout?)
  }

  lemma QuietSteps(s: State, st: Step)
    requires Enabled(s, st) && IsQuiet(st)
    ensures Quiet(s, Apply(s, st)) && SameControl(s, Apply(s, st))
  {
    if ByWorker(st) {
      QuietWorkerSteps(s, st);
    }
  }

  lemma QuietWorkerSteps(s: State, st: Step)
    requires Enabled(s, st) && IsQuiet(st) && ByWorker(st)
    ensures Quiet(s, Apply(s, st)) && SameControl(s, Apply(s, st))
  {
    var s' := Apply(s, st);
    assert s'.w == s.w[st.t := s'.w[st.t]];
  }

  lemma QuietKeepsControl(s: State, s': State)
    requires ControlInv(s) && Quiet(s, s') && SameControl(s, s')
    requires s'.broadcasted ==> s'.ended
    requires s'.broadcasted && !s.broadcasted ==>
      s.locker == NOBODY && forall u :: 0 <= u < |s'.w| ==> s'.w[u] != Waiting
    ensures ControlInv(s')
  {
  }

  lemma LockKeepsControl(s: State, t: nat, wake: nat)
    requires ControlInv(s) && Enabled(s, Lock(t, wake))
    ensures ControlInv(Apply(s, Lock(t, wake)))
  {
  }

  lemma ReadEndKeepsControl(s: State, t: nat)
    requires ControlInv(s) && Enabled(s, ReadEnd(t))
    ensures ControlInv(Apply(s, ReadEnd(t)))
  {
  }

  lemma ChooseKeepsControl(s: State, t: nat, wake: nat)
    requires ControlInv(s) && Enabled(s, Choose(t, wake))
    ensures ControlInv(Apply(s, Choose(t, wake)))
  {
    hide DoTask;
    if s.tasks != [] {
      DoTaskKeepsControl(s, t, wake);
    }
  }

  lemma DoTaskKeepsControl(s: State, t: nat, wake: nat)
    requires ControlInv(s) && Enabled(s, Choose(t, wake)) && s.tasks != []
    ensures ControlInv(DoTask(s, t, wake))
  {
  }

  lemma TakeKeepsControl(s: State, t: nat, ready: seq<int>)
    requires ControlInv(s) && Enabled(s, Take(t, ready))
    ensures ControlInv(Apply(s, Take(t, ready)))
  {
  }

  lemma PollKeepsControl(s: State, st: Step)
    requires ControlInv(s) && Enabled(s, st) && (st.PollReturns? || st.PollTimeout?)
    ensures ControlInv(Apply(s, st))
  {
  }

  lemma StepKeepsControl(s: State, st: Step)
    requires ControlInv(s) && Enabled(s, st)
    ensures ControlInv(Apply(s, st))
  {
    if IsQuiet(st) {
      QuietSteps(s, st);
      QuietKeepsControl(s, Apply(s, st));
    } else {
      hide LockInv, PollInv, CursorInv, EndInv;
      match st
      case Lock(t, wake) => LockKeepsControl(s, t, wake);
      case ReadEnd(t) => ReadEndKeepsControl(s, t);
      case Choose(t, wake) => ChooseKeepsControl(s, t, wake);
      case Take(t, ready) => TakeKeepsControl(s, t, ready);
      case PollReturns(_, _) => PollKeepsControl(s, st);
      case PollTimeout(_) => PollKeepsControl(s, st);
    }
  }

  // ----- steps keep events and tasks

  ghost predicate HasBatch(s: State)
    requires PollInv(s)
  {
    !s.pollable && s.w[s.poller].Polled?
  }

  lemma RestSame(s: State, s': State)
    requires PollInv(s) && PollInv(s') && CursorInv(s) && CursorInv(s')
    requires s'.off == s.off && s'.num == s.num && s'.backlog == s.backlog && (HasBatch(s') <==> HasBatch(s))
    ensures Rest(s') == Rest(s)
  {
  }

  lemma BatchUnchanged(s: State, st: Step)
    requires ControlInv(s) && Enabled(s, st) && ControlInv(Apply(s, st))
    requires IsQuiet(st) || st.ReadEnd? || st.PollTimeout? || (st.Lock? && !s.w[st.t].Polled?)
    ensures HasBatch(Apply(s, st)) <==> HasBatch(s)
  {
    if IsQuiet(st) {
      QuietSteps(s, st);
      hide Apply, Enabled;
    }
  }

  lemma TakeRest(s: State, t: nat, ready: seq<int>)
    requires ControlInv(s) && Enabled(s, Take(t, ready)) && ControlInv(Apply(s, Take(t, ready)))
    ensures Rest(s) != [] && Rest(s)[0] == s.backlog[s.off] && Rest(Apply(s, Take(t, ready))) == Rest(s)[1..]
  {
  }

  lemma PollReturnsRest(s: State, t: nat, events: seq<Ident>)
    requires ControlInv(s) && Enabled(s, PollReturns(t, events)) && ControlInv(Apply(s, PollReturns(t, events)))
    ensures Rest(s) == [] && Rest(Apply(s, PollReturns(t, events))) == events
  {
  }

  lemma LockRest(s: State, t: nat, wake: nat)
    requires ControlInv(s) && Enabled(s, Lock(t, wake)) && ControlInv(Apply(s, Lock(t, wake)))
    ensures Rest(Apply(s, Lock(t, wake))) == Rest(s)
  {
    if s.w[t].Polled? {
      assert s.backlog[0..|s.backlog|] == s.backlog;
    } else {
      BatchUnchanged(s, Lock(t, wake));
      hide Apply;
    }
  }

  lemma DoTaskRest(s: State, t: nat, wake: nat)
    requires ControlInv(s) && Enabled(s, Choose(t, wake)) && s.tasks != [] && ControlInv(DoTask(s, t, wake))
    ensures Rest(DoTask(s, t, wake)) == Rest(s)
  {
  }

  lemma ChooseRest(s: State, t: nat, wake: nat)
    requires ControlInv(s) && Enabled(s, Choose(t, wake)) && ControlInv(Apply(s, Choose(t, wake)))
    ensures Rest(Apply(s, Choose(t, wake))) == Rest(s)
  {
    if s.tasks != [] {
      DoTaskKeepsControl(s, t, wake);
      DoTaskRest(s, t, wake);
    }
    hide DoTask;
  }

  /** How the events that are left to dispatch change. */
  lemma RestAfter(s: State, st: Step)
    requires ControlInv(s) && Enabled(s, st) && ControlInv(Apply(s, st))
    ensures st.Take? ==> Rest(s) != [] && Rest(s)[0] == s.backlog[s.off] && Rest(Apply(s, st)) == Rest(s)[1..]
    ensures st.PollReturns? ==> Rest(s) == [] && Rest(Apply(s, st)) == st.events
    ensures !st.Take? && !st.PollReturns? ==> Rest(Apply(s, st)) == Rest(s)
  {
    if IsQuiet(st) {
      QuietSteps(s, st);
      BatchUnchanged(s, st);
      hide Apply, Enabled;
      RestSame(s, Apply(s, st));
    } else if st.ReadEnd? || st.PollTimeout? {
      BatchUnchanged(s, st);
      RestSame(s, Apply(s, st));
    } else {
      hide Apply, Enabled;
      match st
      case Lock(t, wake) => LockRest(s, t, wake);
      case Choose(t, wake) => ChooseRest(s, t, wake);
      case Take(t, ready) => TakeRest(s, t, ready);
      case PollReturns(t, events) => PollReturnsRest(s, t, events);
    }
  }

  /** What goes into and out of the backlog, the out queue and the task queue. */
  datatype Traffic = Traffic(eventsIn: seq<Ident>, eventsOut: seq<Ident>, outIn: seq<int>, outOut: seq<int>,
                             tasksIn: seq<Task>, tasksOut: seq<Task>)

  const NO_TRAFFIC := Traffic([], [], [], [], [], [])

  /** What a step is seen to bring, and what its worker is seen to do in the state behind it: an
      event is out once the handler of its ident runs, or once the out port was polled for it. */
  function Seen(st: Step, s': State): Traffic {
    match st
    case PollReturns(_, events) => NO_TRAFFIC.(eventsIn := events)
    case Submit(task, _) => NO_TRAFFIC.(tasksIn := [task])
    case Take(t, ready) =>
      if t < |s'.w| && s'.w[t].Handling? && s'.w[t].e != OUT then NO_TRAFFIC.(eventsOut := [s'.w[t].e])
      else if s'.At(t, Reactivating(OUT)) then NO_TRAFFIC.(eventsOut := [OUT], outIn := ready)
      else NO_TRAFFIC
    case Choose(t, _) =>
      if t < |s'.w| && s'.w[t].OutTask? then NO_TRAFFIC.(outOut := [s'.w[t].fd])
      else if t < |s'.w| && s'.w[t].RunTask? then NO_TRAFFIC.(tasksOut := [s'.w[t].t])
      else NO_TRAFFIC
    case _ => NO_TRAFFIC
  }

  function Joined(a: Traffic, b: Traffic): Traffic {
    Traffic(a.eventsIn + b.eventsIn, a.eventsOut + b.eventsOut, a.outIn + b.outIn, a.outOut + b.outOut,
            a.tasksIn + b.tasksIn, a.tasksOut + b.tasksOut)
  }

  /** Between two states everything that went in came out in the same order, or is still there. */
  ghost predicate Flows(s: State, x: Traffic, s': State)
    requires PollInv(s) && CursorInv(s) && PollInv(s') && CursorInv(s')
  {
    && Rest(s) + x.eventsIn == x.eventsOut + Rest(s')
    && s.outq + x.outIn == x.outOut + s'.outq
    && s.tasks + x.tasksIn == x.tasksOut + s'.tasks
  }

  lemma StepFlows(s: State, st: Step)
    requires ControlInv(s) && Enabled(s, st) && ControlInv(Apply(s, st))
    ensures Flows(s, Seen(st, Apply(s, st)), Apply(s, st))
  {
    hide Apply, Enabled, LockInv, PollInv, CursorInv, EndInv, Rest, Seen;
    RestAfter(s, st);
    match st
    case Choose(t, wake) => ChosenFlows(s, t, wake);
    case Take(t, ready) => TakeFlows(s, t, ready);
    case _ => PlainFlows(s, st);
  }

  lemma TakeFlows(s: State, t: nat, ready: seq<int>)
    requires Enabled(s, Take(t, ready))
    ensures var s' := Apply(s, Take(t, ready));
            var x := Seen(Take(t, ready), s');
            && x == NO_TRAFFIC.(eventsOut := [s.backlog[s.off]], outIn := x.outIn)
            && s.outq + x.outIn == s'.outq && s'.tasks == s.tasks
  {
  }

  lemma PlainFlows(s: State, st: Step)
    requires Enabled(s, st) && !st.Choose? && !st.Take?
    ensures var s', x := Apply(s, st), Seen(st, Apply(s, st));
            && x == NO_TRAFFIC.(eventsIn := if st.PollReturns? then st.events else [],
                                tasksIn := if st.Submit? then [st.task] else [])
            && s'.outq == s.outq && s'.tasks == s.tasks + x.tasksIn
  {
    hide WakeAll, FireAll, Rearm, Chosen;
  }

  lemma ChosenFlows(s: State, t: nat, wake: nat)
    requires Enabled(s, Choose(t, wake))
    ensures var s', x := Apply(s, Choose(t, wake)), Seen(Choose(t, wake), Apply(s, Choose(t, wake)));
            && x.eventsIn == x.eventsOut == x.outIn == x.tasksIn == []
            && s.outq == x.outOut + s'.outq && s.tasks == x.tasksOut + s'.tasks
  {
    hide Chosen, WakeAll, FireAll, Rearm;
    ChosenPops(s, t, wake);
  }

  /** At most one queue loses its head, to the worker. */
  lemma ChosenPops(s: State, t: nat, wake: nat)
    requires t < |s.w|
    ensures var s' := Chosen(s, t, wake);
            && |s'.w| == |s.w|
            && s.outq == (if s'.w[t].OutTask? then [s'.w[t].fd] else []) + s'.outq
            && s.tasks == (if s'.w[t].RunTask? then [s'.w[t].t] else []) + s'.tasks
  {
    hide DoTask;
    if s.tasks != [] {
      DoTaskFlows(s, t, wake);
    }
    if s.outq != [] {
      assert s.outq == [s.outq[0]] + s.outq[1..];
    }
    assert [] + s.outq == s.outq && [] + s.tasks == s.tasks;
  }

  lemma DoTaskFlows(s: State, t: nat, wake: nat)
    requires t < |s.w| && s.tasks != []
    ensures var s' := DoTask(s, t, wake);
            && |s'.w| == |s.w| && s'.w[t] == RunTask(s.tasks[0])
            && s'.outq == s.outq && s.tasks == [s.tasks[0]] + s'.tasks
  {
  }

  lemma FlowsJoin(s: State, a: Traffic, m: State, b: Traffic, s': State)
    requires PollInv(s) && CursorInv(s) && PollInv(m) && CursorInv(m) && PollInv(s') && CursorInv(s')
    requires Flows(s, a, m) && Flows(m, b, s')
    ensures Flows(s, Joined(a, b), s')
  {
    hide PollInv, CursorInv, Rest;
    Chain(Rest(s), a.eventsIn, a.eventsOut, Rest(m), b.eventsIn, b.eventsOut, Rest(s'));
    Chain(s.outq, a.outIn, a.outOut, m.outq, b.outIn, b.outOut, s'.outq);
    Chain(s.tasks, a.tasksIn, a.tasksOut, m.tasks, b.tasksIn, b.tasksOut, s'.tasks);
  }

  lemma Chain(q: seq<int>, i: seq<int>, o: seq<int>, q1: seq<int>, i1: seq<int>, o1: seq<int>, q2: seq<int>)
    requires q + i == o + q1 && q1 + i1 == o1 + q2
    ensures q + (i + i1) == (o + o1) + q2
  {
    calc {
      q + (i + i1);
      (q + i) + i1;
      (o + q1) + i1;
      o + (q1 + i1);
      o + (o1 + q2);
      (o + o1) + q2;
    }
  }

  // ----- steps keep the wakeup invariant

  /** Nobody starts to wait. */
  ghost predicate NoNewWaiter(s: State, s': State) {
    |s'.w| == |s.w| && forall u :: 0 <= u < |s.w| && s'.w[u] == Waiting ==> s.w[u] == Waiting
  }

  lemma UpStaysUp(s: State, s': State)
    requires NoNewWaiter(s, s')
    ensures TwoUp(s) ==> TwoUp(s')
    ensures forall o :: UpBut(s, o) ==> UpBut(s', o)
  {
    if TwoUp(s) {
      var t, u :| 0 <= t < |s.w| && 0 <= u < |s.w| && t != u && s.w[t] != Waiting && s.w[u] != Waiting;
      assert s'.w[t] != Waiting && s'.w[u] != Waiting;
    }
    forall o | UpBut(s, o)
      ensures UpBut(s', o)
    {
      var t :| 0 <= t < |s.w| && t != o && s.w[t] != Waiting;
      assert s'.w[t] != Waiting;
    }
  }

  /** After a signal somebody besides `o`, who does not wait, is up. */
  lemma SignalGetsSomebodyUp(s: State, wake: nat, o: nat)
    requires |s.w| >= 2 && o < |s.w| && s.w[o] != Waiting && s.CanWake(wake)
    ensures UpBut(s.Signal(wake), o)
  {
    var s' := s.Signal(wake);
    if s.At(wake, Waiting) {
      assert s'.w[wake] == Woken;
    } else {
      var u := if o == 0 then 1 else 0;
      assert s'.w[u] != Waiting;
    }
  }

  lemma LockKeepsWake(s: State, t: nat, wake: nat)
    requires ControlInv(s) && WakeInv(s) && Enabled(s, Lock(t, wake))
    ensures WakeInv(Apply(s, Lock(t, wake)))
  {
    var s' := Apply(s, Lock(t, wake));
    if |s.w| >= 2 && !s.ended {
      if s.w[t].Polled? {
        SignalGetsSomebodyUp(s, wake, t);
        var u :| 0 <= u < |s.w| && u != t && s.Signal(wake).w[u] != Waiting;
        assert s'.w[t] != Waiting && s'.w[u] != Waiting;
      } else {
        assert NoNewWaiter(s, s');
        UpStaysUp(s, s');
      }
    }
  }

  lemma DoTaskKeepsWake(s: State, t: nat, wake: nat)
    requires ControlInv(s) && WakeInv(s) && Enabled(s, Choose(t, wake)) && s.tasks != []
    ensures WakeInv(DoTask(s, t, wake))
    ensures NoNewWaiter(s, DoTask(s, t, wake)) && DoTask(s, t, wake).w[t].RunTask?
  {
    var s' := DoTask(s, t, wake);
    assert NoNewWaiter(s, s');
    UpStaysUp(s, s');
    assert s'.w[t] == RunTask(s.tasks[0]) && t != s.poller;
    assert UpBut(s', s.poller);
  }

  lemma ChooseKeepsWake(s: State, t: nat, wake: nat)
    requires ControlInv(s) && WakeInv(s) && Enabled(s, Choose(t, wake))
    ensures WakeInv(Apply(s, Choose(t, wake)))
  {
    hide DoTask, CursorInv, EndInv;
    var s' := Apply(s, Choose(t, wake));
    if s.tasks != [] {
      DoTaskKeepsWake(s, t, wake);
    }
    if |s.w| >= 2 && !s.ended {
      if s'.w[t] == Polling {
        var a, b :| 0 <= a < |s.w| && 0 <= b < |s.w| && a != b && s.w[a] != Waiting && s.w[b] != Waiting;
        var u := if a == t then b else a;
        assert s'.w[u] != Waiting && u != t;
      } else if s'.w[t] == Dispatch {
        assert NoNewWaiter(s, s');
        UpStaysUp(s, s');
      } else if !s.pollable && s.outq != [] {
        assert s'.w[t] != Waiting && t != s'.poller;
      }
    }
  }

  lemma SubmitKeepsWake(s: State, task: Task, wake: nat)
    requires ControlInv(s) && WakeInv(s) && Enabled(s, Submit(task, wake))
    ensures WakeInv(Apply(s, Submit(task, wake)))
  {
    var s' := Apply(s, Submit(task, wake));
    assert NoNewWaiter(s, s');
    UpStaysUp(s, s');
    if |s.w| >= 2 && !s.pollable {
      var s0 := s.(tasks := s.tasks + [task]);
      SignalGetsSomebodyUp(s0, wake, s.poller);
    }
  }

  /** Every other step makes nobody wait, and leaves m_pollable and the queues alone unless it
      holds the lock with m_pollable set. */
  lemma OtherStepKeepsWake(s: State, st: Step)
    requires ControlInv(s) && WakeInv(s) && Enabled(s, st)
    requires !st.Lock? && !st.Choose? && !st.Submit?
    ensures WakeInv(Apply(s, st))
  {
    hide Apply, Enabled;
    if ByWorker(st) {
      WorkerStepIsCalm(s, st);
    } else {
      ThreadStepIsCalm(s, st);
    }
    UpStaysUp(s, Apply(s, st));
  }

  /** Nobody starts to wait, and no work appears that nobody may be up for. */
  ghost predicate Calm(s: State, s': State) {
    && NoNewWaiter(s, s') && (s.ended ==> s'.ended)
    && (!s'.ended ==> s'.pollable == s.pollable && s'.poller == s.poller && s'.tasks == s.tasks)
    && (!s'.ended ==> s'.outq == s.outq || s.pollable)
  }

  lemma WorkerStepIsCalm(s: State, st: Step)
    requires ControlInv(s) && Enabled(s, st) && ByWorker(st) && !st.Lock? && !st.Choose?
    ensures Calm(s, Apply(s, st))
  {
    hide EndInv, FireAll, Rearm, Chosen;
    assert Apply(s, st).w == s.w[st.t := Apply(s, st).w[st.t]];
  }

  lemma ThreadStepIsCalm(s: State, st: Step)
    requires Enabled(s, st) && !ByWorker(st) && !st.Submit?
    ensures Calm(s, Apply(s, st))
  {
    hide Chosen, FireAll, Rearm;
  }

  lemma StepKeepsWake(s: State, st: Step)
    requires ControlInv(s) && WakeInv(s) && Enabled(s, st)
    ensures WakeInv(Apply(s, st))
  {
    hide ControlInv, WakeInv, Apply;
    match st
    case Lock(t, wake) => LockKeepsWake(s, t, wake);
    case Choose(t, wake) => ChooseKeepsWake(s, t, wake);
    case Submit(task, wake) => SubmitKeepsWake(s, task, wake);
    case _ => OtherStepKeepsWake(s, st);
  }

  // ----- steps keep the registrations

  predicate IsHolder(pc: Pc) {
    pc.Handling? || pc.Removing? || pc.Reactivating? || pc.Resetting?
  }

  ghost predicate SameHolders(w: seq<Pc>, w': seq<Pc>) {
    forall pc :: IsHolder(pc) ==> multiset(w')[pc] == multiset(w)[pc]
  }

  lemma GotoCounts(w: seq<Pc>, t: nat, pc: Pc)
    requires t < |w|
    ensures multiset(w[t := pc]) == multiset(w) - multiset{w[t]} + multiset{pc}
    ensures multiset(w)[w[t]] > 0
  {
  }

  predicate MovesHolder(st: Step) {
    st.Take? || st.HandlerReturns? || st.ShotRemove? || st.ResetHandler? || st.ShotReactivate?
  }

  lemma GotoKeepsHolders(w: seq<Pc>, t: nat, pc: Pc)
    requires t < |w| && !IsHolder(w[t]) && !IsHolder(pc)
    ensures SameHolders(w, w[t := pc])
  {
    GotoCounts(w, t, pc);
  }

  /** A signal and then a move of another worker. */
  lemma SignalKeepsHolders(s: State, wake: nat, t: nat, pc: Pc)
    requires t < |s.w| && s.w[t] != Waiting && !IsHolder(s.w[t]) && !IsHolder(pc)
    ensures SameHolders(s.w, s.Signal(wake).w)
    ensures SameHolders(s.w, s.Signal(wake).w[t := pc])
  {
    if s.At(wake, Waiting) {
      GotoKeepsHolders(s.w, wake, Woken);
    }
    GotoKeepsHolders(s.Signal(wake).w, t, pc);
  }

  lemma ChosenKeepsHolders(s: State, t: nat, wake: nat)
    requires s.At(t, Decide)
    ensures SameHolders(s.w, Chosen(s, t, wake).w)
  {
    ChosenWorkers(s, t, wake);
    hide Chosen, SameHolders;
    var pc := Chosen(s, t, wake).w[t];
    GotoKeepsHolders(s.w, t, pc);
    SignalKeepsHolders(s, wake, t, pc);
  }

  lemma ChosenWorkers(s: State, t: nat, wake: nat)
    requires s.At(t, Decide)
    ensures var w := Chosen(s, t, wake).w;
            && |w| == |s.w| && !IsHolder(w[t])
            && (w == s.w[t := w[t]] || w == s.Signal(wake).w[t := w[t]])
  {
    if s.tasks != [] {
      DoTaskWorkers(s, t, wake);
    }
    hide DoTask;
  }

  lemma DoTaskWorkers(s: State, t: nat, wake: nat)
    requires s.At(t, Decide) && s.tasks != []
    ensures var w := DoTask(s, t, wake).w;
            w == s.w[t := RunTask(s.tasks[0])] || w == s.Signal(wake).w[t := RunTask(s.tasks[0])]
  {
  }

  lemma LockKeepsHolders(s: State, t: nat, wake: nat)
    requires Enabled(s, Lock(t, wake))
    ensures SameHolders(s.w, Apply(s, Lock(t, wake)).w)
  {
    SignalKeepsHolders(s, wake, t, Dispatch);
    GotoKeepsHolders(s.w, t, Check);
    hide SameHolders;
  }

  lemma HoldersKept(s: State, st: Step)
    requires Enabled(s, st) && !MovesHolder(st)
    ensures SameHolders(s.w, Apply(s, st).w)
  {
    match st
    case Choose(t, wake) => ChosenKeepsHolders(s, t, wake);
    case Lock(t, wake) => LockKeepsHolders(s, t, wake);
    case Submit(_, wake) => if s.At(wake, Waiting) { GotoKeepsHolders(s.w, wake, Woken); }
    case ReadEnd(t) => GotoKeepsHolders(s.w, t, Apply(s, st).w[t]);
    case PollReturns(t, events) => GotoKeepsHolders(s.w, t, Polled(|events|));
    case PollTimeout(t) => GotoKeepsHolders(s.w, t, Returned);
    case TaskReturns(t) => GotoKeepsHolders(s.w, t, Retry);
    case SpuriousWakeup(t) => GotoKeepsHolders(s.w, t, Woken);
    case _ =>
  }

  /** Steps that move no holder of an event leave the view alone, but for the tables. */
  lemma HoldersStand(v: View, v': View)
    requires ViewOk(v) && v'.rest == v.rest && v'.reg == v.reg
    requires forall pc :: IsHolder(pc) ==> v'.w[pc] == v.w[pc]
    ensures ViewOk(v')
  {
    forall e ensures IdentOk(v', e) {
      assert IdentOk(v, e);
    }
  }

  function Moved(v: View, from: Pc, to: Pc): View {
    v.(w := v.w - multiset{from} + multiset{to})
  }

  lemma TakeView(v: View, e: Ident, v': View)
    requires ViewOk(v) && v.rest[e] > 0 && v.w[Dispatch] > 0
    requires v' == Moved(v, Dispatch, if e == OUT then Reactivating(e) else Handling(e)).(rest := v.rest - multiset{e})
    ensures ViewOk(v')
  {
    forall i ensures IdentOk(v', i) {
      assert IdentOk(v, i);
      TakeCopies(v, e, v', i);
      hide Copies, Moved;
    }
  }

  lemma MoveCount(w: multiset<Pc>, from: Pc, to: Pc, pc: Pc)
    requires w[from] > 0
    ensures (w - multiset{from} + multiset{to})[pc]
         == w[pc] - (if pc == from then 1 else 0) + (if pc == to then 1 else 0)
  {
  }

  lemma TakeCopies(v: View, e: Ident, v': View, i: Ident)
    requires v.rest[e] > 0 && v.w[Dispatch] > 0
    requires v' == Moved(v, Dispatch, if e == OUT then Reactivating(e) else Handling(e)).(rest := v.rest - multiset{e})
    ensures Copies(v', i) == Copies(v, i) && v'.w[Resetting(i)] == v.w[Resetting(i)] && v'.reg == v.reg
  {
    TakeCounts(v.w, if e == OUT then Reactivating(e) else Handling(e), e, i);
    assert v'.rest[i] == v.rest[i] - if i == e then 1 else 0;
  }

  lemma TakeCounts(w: multiset<Pc>, to: Pc, e: Ident, i: Ident)
    requires w[Dispatch] > 0 && (to == Reactivating(e) || to == Handling(e))
    ensures var w' := w - multiset{Dispatch} + multiset{to};
            && w'[Handling(i)] + w'[Removing(i)] + w'[Reactivating(i)]
               == w[Handling(i)] + w[Removing(i)] + w[Reactivating(i)] + (if i == e then 1 else 0)
            && w'[Resetting(i)] == w[Resetting(i)]
  {
    MoveCount(w, Dispatch, to, Handling(i));
    MoveCount(w, Dispatch, to, Removing(i));
    MoveCount(w, Dispatch, to, Reactivating(i));
    MoveCount(w, Dispatch, to, Resetting(i));
  }

  lemma PollView(v: View, events: seq<Ident>, v': View)
    requires ViewOk(v) && v.rest == multiset{} && Distinct(events)
    requires forall e :: e in events ==> e in v.reg.port && v.reg.port[e] == Armed
    requires v' == v.(rest := multiset(events), w := v'.w, reg := v.reg.(port := FireAll(v.reg.port, events)))
    requires forall pc :: IsHolder(pc) ==> v'.w[pc] == v.w[pc]
    ensures ViewOk(v')
  {
    DistinctCounts(events);
    forall i ensures IdentOk(v', i) { assert IdentOk(v, i); }
  }

  lemma HandlerReturnsView(v: View, e: Ident, cont: bool, v': View)
    requires ViewOk(v) && v.w[Handling(e)] > 0
    requires v' == Moved(v, Handling(e), if cont then Reactivating(e) else Removing(e))
    ensures ViewOk(v')
  {
    assert e != OUT;
    forall i ensures IdentOk(v', i) { assert IdentOk(v, i); }
  }

  lemma RemoveView(v: View, e: Ident, v': View)
    requires ViewOk(v) && v.w[Removing(e)] > 0
    requires v' == Moved(v, Removing(e), Resetting(e)).(reg := v.reg.(port := v.reg.port - {e}))
    ensures ViewOk(v')
  {
    assert e != OUT;
    forall i ensures IdentOk(v', i) { assert IdentOk(v, i); }
  }

  lemma ResetView(v: View, e: Ident, v': View)
    requires ViewOk(v) && v.w[Resetting(e)] > 0
    requires v' == Moved(v, Resetting(e), Retry).(reg := v.reg.(handlers := v.reg.handlers - {e}))
    ensures ViewOk(v')
  {
    forall i ensures IdentOk(v', i) { assert IdentOk(v, i); }
  }

  lemma ReactivateView(v: View, e: Ident, v': View)
    requires ViewOk(v) && v.w[Reactivating(e)] > 0
    requires v' == Moved(v, Reactivating(e), Retry).(reg := v.reg.(port := Rearm(v.reg.port, e)))
    ensures ViewOk(v')
  {
    assert IdentOk(v, e);
    forall i ensures IdentOk(v', i) { assert IdentOk(v, i); }
  }

  lemma SetHandlerView(v: View, e: Ident, v': View)
    requires ViewOk(v) && e !in v.reg.handlers
    requires v' == v.(reg := v.reg.(handlers := v.reg.handlers + {e}, adding := v.reg.adding + {e}))
    ensures ViewOk(v')
  {
    forall i ensures IdentOk(v', i) { assert IdentOk(v, i); }
  }

  lemma AddFdView(v: View, e: Ident, v': View)
    requires ViewOk(v) && e in v.reg.adding
    requires v' == v.(reg := v.reg.(adding := v.reg.adding - {e}, port := v.reg.port[e := Armed]))
    ensures ViewOk(v')
  {
    forall i ensures IdentOk(v', i) { assert IdentOk(v, i); }
  }

  /** How the tables change when no holder of an event moves. */
  function TablesMoved(reg: Tables, st: Step): Tables {
    match st
    case PollReturns(_, events) => reg.(port := FireAll(reg.port, events))
    case SetHandler(i) => reg.(handlers := reg.handlers + {i}, adding := reg.adding + {i})
    case AddFd(i) => reg.(adding := reg.adding - {i}, port := reg.port[i := Armed])
    case _ => reg
  }

  lemma TablesAfter(s: State, st: Step)
    requires Enabled(s, st) && !MovesHolder(st)
    ensures Apply(s, st).reg == TablesMoved(s.reg, st)
  {
    hide FireAll, WakeAll;
    if st.Choose? {
      ChosenTables(s, st.t, st.wake);
    }
    hide Chosen;
  }

  lemma ChosenTables(s: State, t: nat, wake: nat)
    requires t < |s.w|
    ensures Chosen(s, t, wake).reg == s.reg
  {
  }

  /** How the events left to dispatch change, as a multiset. */
  lemma RestView(s: State, st: Step)
    requires ControlInv(s) && Enabled(s, st) && ControlInv(Apply(s, st))
    ensures var r, r' := ViewOf(s).rest, ViewOf(Apply(s, st)).rest;
            if st.Take? then r[s.backlog[s.off]] > 0 && r' == r - multiset{s.backlog[s.off]}
            else if st.PollReturns? then r == multiset{} && r' == multiset(st.events)
            else r' == r
  {
    hide Apply, Rest;
    RestAfter(s, st);
    if st.Take? {
      assert Rest(s) == [Rest(s)[0]] + Rest(s)[1..];
    }
  }

  /** How the view changes when a holder of an event moves. */
  lemma MoverView(s: State, st: Step)
    requires Enabled(s, st) && MovesHolder(st)
    ensures var s' := Apply(s, st);
            multiset(s'.w) == multiset(s.w) - multiset{s.w[st.t]} + multiset{s'.w[st.t]} && multiset(s.w)[s.w[st.t]] > 0
  {
    var s' := Apply(s, st);
    assert s'.w == s.w[st.t := s'.w[st.t]];
    GotoCounts(s.w, st.t, s'.w[st.t]);
  }

  /** Where the holder goes, and what becomes of the tables. */
  lemma MoverTables(s: State, st: Step)
    requires Enabled(s, st) && MovesHolder(st)
    ensures var pc, pc', reg, reg' := s.w[st.t], Apply(s, st).w[st.t], s.reg, Apply(s, st).reg;
            match st
            case Take(_, _) =>
              var e := s.backlog[s.off];
              pc == Dispatch && pc' == (if e == OUT then Reactivating(e) else Handling(e)) && reg' == reg
            case HandlerReturns(_, cont) =>
              pc.Handling? && pc' == (if cont then Reactivating(pc.e) else Removing(pc.e)) && reg' == reg
            case ShotRemove(_) =>
              pc.Removing? && pc' == Resetting(pc.e) && reg' == reg.(port := reg.port - {pc.e})
            case ResetHandler(_) =>
              pc.Resetting? && pc' == Retry && reg' == reg.(handlers := reg.handlers - {pc.e})
            case ShotReactivate(_) =>
              pc.Reactivating? && pc' == Retry && reg' == reg.(port := Rearm(reg.port, pc.e))
  {
    hide Rearm;
  }

  lemma StepKeepsReg(s: State, st: Step)
    requires ControlInv(s) && RegInv(s) && Enabled(s, st) && ControlInv(Apply(s, st))
    ensures RegInv(Apply(s, st))
  {
    RestView(s, st);
    if MovesHolder(st) {
      HolderMoves(s, st);
    } else {
      HoldersKept(s, st);
      TablesAfter(s, st);
      TablesMove(s, st, ViewOf(s), ViewOf(Apply(s, st)));
    }
  }

  lemma TablesMove(s: State, st: Step, v: View, v': View)
    requires Enabled(s, st) && !MovesHolder(st) && ViewOk(v) && v.reg == s.reg
    requires v'.reg == TablesMoved(v.reg, st)
    requires forall pc :: IsHolder(pc) ==> v'.w[pc] == v.w[pc]
    requires if st.PollReturns? then v.rest == multiset{} && v'.rest == multiset(st.events) else v'.rest == v.rest
    ensures ViewOk(v')
  {
    var u := v.(w := v'.w);
    HoldersStand(v, u);
    hide ViewOk, FireAll;
    match st
    case PollReturns(_, events) => PollView(v, events, v');
    case SetHandler(i) => SetHandlerView(u, i, v');
    case AddFd(i) => AddFdView(u, i, v');
    case _ =>
  }

  lemma HolderMoves(s: State, st: Step)
    requires ControlInv(s) && RegInv(s) && Enabled(s, st) && ControlInv(Apply(s, st)) && MovesHolder(st)
    requires var r, r' := ViewOf(s).rest, ViewOf(Apply(s, st)).rest;
             if st.Take? then r[s.backlog[s.off]] > 0 && r' == r - multiset{s.backlog[s.off]} else r' == r
    ensures RegInv(Apply(s, st))
  {
    MoverView(s, st);
    MoverTables(s, st);
    var v, v' := ViewOf(s), ViewOf(Apply(s, st));
    hide ViewOk, ControlInv, LockInv, PollInv, CursorInv, EndInv, Rest, Apply, Enabled;
    match st
    case Take(t, _) => TakeView(v, s.backlog[s.off], v');
    case HandlerReturns(t, cont) => HandlerReturnsView(v, s.w[t].e, cont, v');
    case ShotRemove(t) => RemoveView(v, s.w[t].e, v');
    case ResetHandler(t) => ResetView(v, s.w[t].e, v');
    case ShotReactivate(t) => ReactivateView(v, s.w[t].e, v');
  }

  lemma StepKeepsInv(s: State, st: Step)
    requires Inv(s) && Enabled(s, st)
    ensures Inv(Apply(s, st))
  {
    hide Apply, Enabled, ControlInv, WakeInv, RegInv;
    StepKeepsControl(s, st);
    StepKeepsWake(s, st);
    StepKeepsReg(s, st);
  }

  // ----- whole runs

  ghost predicate Runs(s: State, steps: seq<Step>)
    decreases |steps|
  {
    steps == [] || (Enabled(s, steps[0]) && Runs(Apply(s, steps[0]), steps[1..]))
  }

  ghost function After(s: State, steps: seq<Step>): State
    requires Runs(s, steps)
    decreases |steps|
  {
    if steps == [] then s else After(Apply(s, steps[0]), steps[1..])
  }

  lemma StartInv(n: nat)
    ensures Inv(Start(n))
  {
    var s := Start(n);
    assert forall pc :: pc in s.w ==> pc == Retry;
    if n >= 2 {
      assert s.w[0] != Waiting && s.w[1] != Waiting;
    }
    forall e ensures IdentOk(ViewOf(s), e) {}
  }

  lemma {:induction false} RunKeepsInv(s: State, steps: seq<Step>)
    requires Inv(s) && Runs(s, steps)
    ensures Inv(After(s, steps))
    decreases |steps|
  {
    hide Inv, Apply, Enabled;
    if steps != [] {
      StepKeepsInv(s, steps[0]);
      RunKeepsInv(Apply(s, steps[0]), steps[1..]);
    }
  }

  lemma TwoAlike(w: seq<Pc>, t: nat, u: nat)
    requires t < |w| && u < |w| && t != u && w[t] == w[u]
    ensures multiset(w)[w[t]] >= 2
  {
    if w[t] != Retry {
      GotoCounts(w, t, Retry);
      assert w[t := Retry][u] == w[u];
      GotoCounts(w[t := Retry], u, Retry);
    } else {
      GotoCounts(w, t, Returned);
      assert w[t := Returned][u] == w[u];
      GotoCounts(w[t := Returned], u, Returned);
    }
  }

  /** In every interleaving: no two workers are responsible for the event of the same ident, so
      none run its handler at once; the handler of a dispatched ident is set; no event waits
      in the backlog for an ident that is being handled; and no event is lost: a disarmed
      ident is in the backlog or with a worker. */
  lemma HandlersAreExclusive(n: nat, steps: seq<Step>, t: nat, e: Ident)
    requires Runs(Start(n), steps)
    requires t < |After(Start(n), steps).w| && After(Start(n), steps).w[t].HoldsEvent(e)
    ensures var s := After(Start(n), steps);
            && e in s.reg.port && s.reg.port[e] == Fired && e in s.reg.handlers
            && (forall u :: 0 <= u < |s.w| && u != t ==> !s.w[u].HoldsEvent(e))
            && PollInv(s) && CursorInv(s) && e !in Rest(s)
  {
    StartInv(n);
    RunKeepsInv(Start(n), steps);
    HolderIsAlone(After(Start(n), steps), t, e);
  }

  lemma HolderIsAlone(s: State, t: nat, e: Ident)
    requires PollInv(s) && CursorInv(s) && RegInv(s) && t < |s.w| && s.w[t].HoldsEvent(e)
    ensures e in s.reg.port && s.reg.port[e] == Fired && e in s.reg.handlers
    ensures forall u :: 0 <= u < |s.w| && u != t ==> !s.w[u].HoldsEvent(e)
    ensures e !in Rest(s)
  {
    var v := ViewOf(s);
    assert IdentOk(v, e);
    GotoCounts(s.w, t, Retry);
    assert v.w[s.w[t]] > 0;
    forall u | 0 <= u < |s.w| && u != t
      ensures !s.w[u].HoldsEvent(e)
    {
      if s.w[u] == s.w[t] {
        TwoAlike(s.w, t, u);
      } else {
        GotoCounts(s.w, u, Retry);
      }
    }
  }

  /** A disarmed ident is never forgotten: its event is still to be dispatched or with a worker. */
  lemma FiredEventIsHeld(n: nat, steps: seq<Step>, e: Ident)
    requires Runs(Start(n), steps)
    requires e in After(Start(n), steps).reg.port && After(Start(n), steps).reg.port[e] == Fired
    ensures var s := After(Start(n), steps);
            && PollInv(s) && CursorInv(s)
            && (e in Rest(s) || exists t :: 0 <= t < |s.w| && s.w[t].HoldsEvent(e))
  {
    StartInv(n);
    RunKeepsInv(Start(n), steps);
    var s := After(Start(n), steps);
    assert IdentOk(ViewOf(s), e);
    if e !in Rest(s) {
      var pc := if Handling(e) in s.w then Handling(e) else if Removing(e) in s.w then Removing(e) else Reactivating(e);
      assert pc in s.w;
      var t :| 0 <= t < |s.w| && s.w[t] == pc;
      assert s.w[t].HoldsEvent(e);
    }
  }

  /** What a run brings and does. */
  ghost function TrafficOf(s: State, steps: seq<Step>): Traffic
    requires Runs(s, steps)
    decreases |steps|
  {
    if steps == [] then NO_TRAFFIC
    else Joined(Seen(steps[0], Apply(s, steps[0])), TrafficOf(Apply(s, steps[0]), steps[1..]))
  }

  lemma {:induction false} RunFlows(s: State, steps: seq<Step>)
    requires Inv(s) && Runs(s, steps)
    ensures Inv(After(s, steps)) && Flows(s, TrafficOf(s, steps), After(s, steps))
    decreases |steps|
  {
    hide Apply, Enabled, Seen, Joined, WakeInv, RegInv, LockInv, EndInv;
    if steps != [] {
      StepKeepsInv(s, steps[0]);
      StepFlows(s, steps[0]);
      RunFlows(Apply(s, steps[0]), steps[1..]);
      FlowsJoin(s, Seen(steps[0], Apply(s, steps[0])), Apply(s, steps[0]),
                TrafficOf(Apply(s, steps[0]), steps[1..]), After(s, steps));
    }
  }

  /** At most one worker is in the poll section and then nobody reads the backlog; the cursor
      stays within the batch, and every event the port ever returned has been dispatched to its
      handler exactly once, in order, or is still in the batch; every descriptor the out port
      reported was continued exactly once, in order, or is still queued; and every task submitted
      has been started exactly once, in order, or is still queued. */
  lemma EventsAreDispatchedOnce(n: nat, steps: seq<Step>)
    requires Runs(Start(n), steps)
    ensures var s, x := After(Start(n), steps), TrafficOf(Start(n), steps);
            && (forall t, u :: 0 <= t < |s.w| && 0 <= u < |s.w| && t != u ==>
                  !(s.w[t].InPoll() && (s.w[u].InPoll() || s.w[u] == Dispatch)))
            && s.off <= s.num <= 256
            && PollInv(s) && CursorInv(s)
            && x.eventsIn == x.eventsOut + Rest(s)
            && x.outIn == x.outOut + s.outq
            && x.tasksIn == x.tasksOut + s.tasks
            && (forall t :: 0 <= t < |s.w| && s.w[t] == Polling ==> x.eventsIn == x.eventsOut)
  {
    StartInv(n);
    RunFlows(Start(n), steps);
    var s, x := After(Start(n), steps), TrafficOf(Start(n), steps);
    hide RegInv, WakeInv, EndInv;
    NothingAtFirst(n);
    assert [] + x.eventsIn == x.eventsIn && [] + x.outIn == x.outIn && [] + x.tasksIn == x.tasksIn;
    forall t | 0 <= t < |s.w| && s.w[t] == Polling
      ensures x.eventsIn == x.eventsOut
    {
      assert Rest(s) == [];
    }
  }

  lemma NothingAtFirst(n: nat)
    requires PollInv(Start(n)) && CursorInv(Start(n))
    ensures Rest(Start(n)) == [] && Start(n).outq == [] && Start(n).tasks == []
  {
  }

  // ----- what becomes of a registration

  /** Steps that another thread takes. */
  predicate ByOther(st: Step, t: nat) {
    !(ByWorker(st) && st.t == t)
  }

  lemma OthersLeave(s: State, st: Step, t: nat)
    requires Enabled(s, st) && ByOther(st, t) && t < |s.w| && s.w[t] != Waiting
    ensures t < |Apply(s, st).w| && Apply(s, st).w[t] == s.w[t]
  {
    hide Enabled, Apply;
    if ByWorker(st) {
      WorkersLeave(s, st, t);
    } else {
      ThreadsLeave(s, st, t);
    }
  }

  lemma WorkersLeave(s: State, st: Step, t: nat)
    requires Enabled(s, st) && ByWorker(st) && st.t != t && t < |s.w| && s.w[t] != Waiting
    ensures t < |Apply(s, st).w| && Apply(s, st).w[t] == s.w[t]
  {
    hide FireAll, Rearm, Chosen, WakeAll;
    if st.Choose? {
      ChosenLeaves(s, st.t, st.wake, t);
    }
  }

  lemma ThreadsLeave(s: State, st: Step, t: nat)
    requires Enabled(s, st) && !ByWorker(st) && t < |s.w| && s.w[t] != Waiting
    ensures t < |Apply(s, st).w| && Apply(s, st).w[t] == s.w[t]
  {
    hide Chosen;
  }

  lemma ChosenLeaves(s: State, u: nat, wake: nat, t: nat)
    requires u < |s.w| && t < |s.w| && t != u && s.w[t] != Waiting
    ensures |Chosen(s, u, wake).w| == |s.w| && Chosen(s, u, wake).w[t] == s.w[t]
  {
  }

  lemma {:induction false} OthersLeaveIt(s: State, steps: seq<Step>, t: nat)
    requires Runs(s, steps) && t < |s.w| && s.w[t] != Waiting && forall st :: st in steps ==> ByOther(st, t)
    ensures t < |After(s, steps).w| && After(s, steps).w[t] == s.w[t]
    decreases |steps|
  {
    hide Apply, Enabled, ByOther;
    if steps != [] {
      OthersLeave(s, steps[0], t);
      OthersLeaveIt(Apply(s, steps[0]), steps[1..], t);
    }
  }

  /** From `s` other threads take the steps `mid`, and then worker `t` takes the step `st`. */
  ghost predicate NextOf(s: State, t: nat, mid: seq<Step>, st: Step) {
    && Runs(s, mid) && (forall o :: o in mid ==> ByOther(o, t))
    && Enabled(After(s, mid), st) && ByWorker(st) && st.t == t
  }

  ghost function Behind(s: State, t: nat, mid: seq<Step>, st: Step): State
    requires NextOf(s, t, mid, st)
  {
    Apply(After(s, mid), st)
  }

  lemma AfterReactivating(s: State, t: nat, e: Ident, mid: seq<Step>, st: Step)
    requires Inv(s) && t < |s.w| && s.w[t] == Reactivating(e) && NextOf(s, t, mid, st)
    ensures var s' := Behind(s, t, mid, st);
            e in s'.reg.port && s'.reg.port[e] == Armed && e in s'.reg.handlers
  {
    RunKeepsInv(s, mid);
    OthersLeaveIt(s, mid, t);
    HolderIsAlone(After(s, mid), t, e);
  }

  lemma AfterRemoving(s: State, t: nat, e: Ident, mid: seq<Step>, st: Step)
    requires Inv(s) && t < |s.w| && s.w[t] == Removing(e) && NextOf(s, t, mid, st)
    ensures var s' := Behind(s, t, mid, st);
            Inv(s') && t < |s'.w| && s'.w[t] == Resetting(e) && e !in s'.reg.port
  {
    RunKeepsInv(s, mid);
    OthersLeaveIt(s, mid, t);
    StepKeepsInv(After(s, mid), st);
    hide Inv;
  }

  lemma AfterResetting(s: State, t: nat, e: Ident, mid: seq<Step>, st: Step)
    requires t < |s.w| && s.w[t] == Resetting(e) && NextOf(s, t, mid, st)
    ensures e !in Behind(s, t, mid, st).reg.handlers
  {
    OthersLeaveIt(s, mid, t);
  }

  /** In every run, whatever other threads do in between: a handler that returns true has its
      descriptor armed again, and set, by the next step of its worker; one that returns false, or
      throws, has it removed from the port by the next step and its handler reset by the one
      after. */
  lemma HandlerDecides(n: nat, before: seq<Step>, t: nat, cont: bool, mid: seq<Step>, st: Step,
                       mid': seq<Step>, st': Step)
    requires Runs(Start(n), before) && t < |After(Start(n), before).w| && After(Start(n), before).w[t].Handling?
    requires NextOf(Apply(After(Start(n), before), HandlerReturns(t, cont)), t, mid, st)
    ensures var s0 := After(Start(n), before);
            var s1 := Behind(Apply(s0, HandlerReturns(t, cont)), t, mid, st);
            var e := s0.w[t].e;
            && (cont ==> e in s1.reg.port && s1.reg.port[e] == Armed && e in s1.reg.handlers)
            && (!cont ==> e !in s1.reg.port)
            && (!cont && NextOf(s1, t, mid', st') ==> e !in Behind(s1, t, mid', st').reg.handlers)
  {
    hide Inv, NextOf, Behind;
    StartInv(n);
    RunKeepsInv(Start(n), before);
    var s0 := After(Start(n), before);
    var e := s0.w[t].e;
    var s := Apply(s0, HandlerReturns(t, cont));
    StepKeepsInv(s0, HandlerReturns(t, cont));
    if cont {
      AfterReactivating(s, t, e, mid, st);
    } else {
      AfterRemoving(s, t, e, mid, st);
      if NextOf(Behind(s, t, mid, st), t, mid', st') {
        AfterResetting(Behind(s, t, mid, st), t, e, mid', st');
      }
    }
  }

  lemma AddingAfter(s: State, st: Step, i: Ident)
    requires Enabled(s, st) && i in s.reg.adding && st != AddFd(i)
    ensures i in Apply(s, st).reg.adding
  {
    hide Chosen, FireAll, Rearm, WakeAll;
    if st.Choose? {
      ChosenTables(s, st.t, st.wake);
    }
  }

  lemma {:induction false} AddingStays(s: State, steps: seq<Step>, i: Ident)
    requires Runs(s, steps) && i in s.reg.adding && AddFd(i) !in steps
    ensures i in After(s, steps).reg.adding
    decreases |steps|
  {
    hide Enabled, Apply;
    if steps != [] {
      AddingAfter(s, steps[0], i);
      AddingStays(Apply(s, steps[0]), steps[1..], i);
    }
  }

  /** `add_handler`, whatever other threads do between its two steps: the handler is set before
      the descriptor can fire, and then the descriptor is armed. */
  lemma HandlerIsSetFirst(s: State, i: Ident, mid: seq<Step>)
    requires Inv(s) && Enabled(s, SetHandler(i)) && Runs(Apply(s, SetHandler(i)), mid) && AddFd(i) !in mid
    ensures var s1 := After(Apply(s, SetHandler(i)), mid);
            && i in s1.reg.handlers && i !in s1.reg.port && Enabled(s1, AddFd(i))
            && var s2 := Apply(s1, AddFd(i));
               i in s2.reg.handlers && i in s2.reg.port && s2.reg.port[i] == Armed
  {
    hide Inv, Apply, Enabled;
    StepKeepsInv(s, SetHandler(i));
    RunKeepsInv(Apply(s, SetHandler(i)), mid);
    BeginsToAdd(s, i);
    AddingStays(Apply(s, SetHandler(i)), mid, i);
    var s1 := After(Apply(s, SetHandler(i)), mid);
    AddingIsSet(s1, i);
    Arms(s1, i);
  }

  lemma BeginsToAdd(s: State, i: Ident)
    requires Enabled(s, SetHandler(i))
    ensures i in Apply(s, SetHandler(i)).reg.adding
  {
  }

  lemma Arms(s: State, i: Ident)
    requires i in s.reg.adding && i in s.reg.handlers
    ensures Enabled(s, AddFd(i))
    ensures var s' := Apply(s, AddFd(i));
            i in s'.reg.handlers && i in s'.reg.port && s'.reg.port[i] == Armed
  {
  }

  lemma AddingIsSet(s: State, i: Ident)
    requires Inv(s) && i in s.reg.adding
    ensures i in s.reg.handlers && i !in s.reg.port
  {
    assert IdentOk(ViewOf(s), i);
  }

  // ----- what a worker turns to

  /** With the lock, and no end in sight: while somebody polls, the out queue goes first and then
      the tasks; else more than 16 tasks go first, then the events left, and then the next poll. */
  lemma WorkIsChosen(s: State, t: nat, wake: nat)
    requires Enabled(s, Choose(t, wake))
    ensures var s' := Apply(s, Choose(t, wake));
            && t < |s'.w|
            && (s'.w[t].OutTask? <==> !s.pollable && s.outq != [])
            && (s'.w[t].RunTask? <==> if s.pollable then |s.tasks| > 16 else s.outq == [] && s.tasks != [])
            && (s'.w[t].Waiting? <==> !s.pollable && s.outq == [] && s.tasks == [])
            && (s'.w[t].Dispatch? <==> s.pollable && |s.tasks| <= 16 && s.num != s.off)
            && (s'.w[t].Polling? <==> s.pollable && |s.tasks| <= 16 && s.num == s.off)
  {
  }

  /** A worker only returns when it has seen the end flag. */
  ghost predicate NobodyLeft(s: State) {
    !s.ended ==> forall t :: 0 <= t < |s.w| ==> s.w[t] != Returned
  }

  lemma StepLeavesNobody(s: State, st: Step)
    requires NobodyLeft(s) && Enabled(s, st)
    ensures NobodyLeft(Apply(s, st))
  {
    hide Apply, Enabled;
    if ByWorker(st) {
      WorkerLeavesNobody(s, st);
    } else {
      ThreadLeavesNobody(s, st);
    }
  }

  lemma WorkerLeavesNobody(s: State, st: Step)
    requires NobodyLeft(s) && Enabled(s, st) && ByWorker(st)
    ensures NobodyLeft(Apply(s, st))
  {
    hide FireAll, Rearm, WakeAll;
    if st.Choose? {
      ChosenLeavesNobody(s, st.t, st.wake);
      hide Chosen;
    }
  }

  lemma ChosenLeavesNobody(s: State, t: nat, wake: nat)
    requires NobodyLeft(s) && t < |s.w|
    ensures NobodyLeft(Chosen(s, t, wake)) && Chosen(s, t, wake).ended == s.ended
  {
  }

  lemma ThreadLeavesNobody(s: State, st: Step)
    requires NobodyLeft(s) && Enabled(s, st) && !ByWorker(st)
    ensures NobodyLeft(Apply(s, st))
  {
    hide FireAll, Rearm, Chosen;
  }

  lemma {:induction false} NobodyLeaves(s: State, steps: seq<Step>)
    requires NobodyLeft(s) && Runs(s, steps)
    ensures NobodyLeft(After(s, steps))
    decreases |steps|
  {
    hide NobodyLeft, Apply, Enabled;
    if steps != [] {
      StepLeavesNobody(s, steps[0]);
      NobodyLeaves(Apply(s, steps[0]), steps[1..]);
    }
  }

  /** Worker `t` neither is blocked nor has returned. */
  predicate IsUp(s: State, t: nat)
    requires t < |s.w|
  {
    s.w[t] != Waiting && s.w[t] != Returned
  }

  /** The flag is set by `end` alone, and so is the broadcast sent. */
  lemma {:induction false} EndIsSet(s: State, steps: seq<Step>)
    requires Runs(s, steps)
    ensures var s' := After(s, steps);
            && (s'.ended <==> s.ended || SetEndFlag in steps)
            && (s'.broadcasted <==> s.broadcasted || Broadcast in steps)
    decreases |steps|
  {
    if steps != [] {
      FlagAfter(s, steps[0]);
      hide Apply, Enabled;
      EndIsSet(Apply(s, steps[0]), steps[1..]);
      assert steps == [steps[0]] + steps[1..];
    }
  }

  lemma FlagAfter(s: State, st: Step)
    requires Enabled(s, st)
    ensures var s' := Apply(s, st);
            && (s'.ended <==> s.ended || st == SetEndFlag)
            && (s'.broadcasted <==> s.broadcasted || st == Broadcast)
  {
    hide FireAll, Rearm, WakeAll, Chosen;
    if st.Choose? {
      ChosenKeepsFlags(s, st.t, st.wake);
    }
  }

  lemma ChosenKeepsFlags(s: State, t: nat, wake: nat)
    requires t < |s.w|
    ensures Chosen(s, t, wake).ended == s.ended && Chosen(s, t, wake).broadcasted == s.broadcasted
  {
  }

  /** A step that signals m_cond: a submission, the end of a poll, and the start of a task while
      there are more. */
  ghost predicate Signals(s: State, st: Step, s': State) {
    || st.Submit?
    || (st.Lock? && st.t < |s.w| && s.w[st.t].Polled?)
    || (st.Choose? && st.t < |s'.w| && s'.w[st.t].RunTask? && s'.tasks != [])
  }

  /** What becomes of the waiter `u`. */
  ghost predicate Wakes(s: State, st: Step, s': State, u: nat)
    requires u < |s.w| == |s'.w|
  {
    s'.w[u] ==
    if st.Broadcast? || st == SpuriousWakeup(u) || (Signals(s, st, s') && st.wake == u) then Woken else Waiting
  }

  /** Who is woken: by a signal one waiter, if there is any; by the broadcast all of them; and
      nobody otherwise, unless spuriously. */
  lemma WhoIsWoken(s: State, st: Step, u: nat)
    requires Enabled(s, st) && u < |s.w| && s.w[u] == Waiting
    ensures |Apply(s, st).w| == |s.w| && Wakes(s, st, Apply(s, st), u)
    ensures Signals(s, st, Apply(s, st)) ==> st.wake < |s.w| && s.w[st.wake] == Waiting
  {
    StepKeepsWorkers(s, st);
    if st.Choose? {
      ChosenWakes(s, st.t, st.wake, u);
    } else if st.Submit? || st.Lock? || st.Broadcast? {
      SignalWakes(s, st, u);
    } else {
      PlainWakes(s, st, u);
    }
  }

  lemma ChosenWakes(s: State, t: nat, wake: nat, u: nat)
    requires Enabled(s, Choose(t, wake)) && u < |s.w| && s.w[u] == Waiting
    ensures var s' := Apply(s, Choose(t, wake));
            |s'.w| == |s.w| && Wakes(s, Choose(t, wake), s', u) && s.At(wake, Waiting)
  {
    hide WakeAll, FireAll, Rearm;
  }

  lemma SignalWakes(s: State, st: Step, u: nat)
    requires Enabled(s, st) && (st.Submit? || st.Lock? || st.Broadcast?) && u < |s.w| && s.w[u] == Waiting
    ensures |Apply(s, st).w| == |s.w| && Wakes(s, st, Apply(s, st), u)
    ensures Signals(s, st, Apply(s, st)) ==> s.At(st.wake, Waiting)
  {
    hide FireAll, Rearm, Chosen;
  }

  lemma PlainWakes(s: State, st: Step, u: nat)
    requires Enabled(s, st) && !(st.Submit? || st.Lock? || st.Broadcast? || st.Choose?)
    requires u < |s.w| && s.w[u] == Waiting
    ensures |Apply(s, st).w| == |s.w| && Wakes(s, st, Apply(s, st), u) && !Signals(s, st, Apply(s, st))
  {
    WaiterLeft(s, st, u);
    hide Apply, Enabled;
  }

  lemma WaiterLeft(s: State, st: Step, u: nat)
    requires Enabled(s, st) && !(st.Submit? || st.Lock? || st.Broadcast? || st.Choose?)
    requires u < |s.w| && s.w[u] == Waiting
    ensures |Apply(s, st).w| == |s.w|
    ensures Apply(s, st).w[u] == if st.SpuriousWakeup? && st.t == u then Woken else Waiting
  {
    hide FireAll, Rearm, Chosen, WakeAll;
  }

  /** What other parties may do at any time: nothing of it is left out of the runs. */
  lemma NothingIsExcluded(s: State, t: nat, task: Task, i: Ident, events: seq<Ident>, cont: bool)
    ensures Enabled(s, SetEndFlag)
    ensures s.locker == NOBODY ==> exists wake :: Enabled(s, Submit(task, wake))
    ensures i !in s.reg.handlers ==> Enabled(s, SetHandler(i))
    ensures t < |s.w| && s.w[t] == Waiting ==> Enabled(s, SpuriousWakeup(t))
    ensures t < |s.w| && s.w[t] == Polling ==>
              && Enabled(s, PollTimeout(t))
              && (0 < |events| <= 256 && (forall j, k :: 0 <= j < k < |events| ==> events[j] != events[k])
                  && (forall e :: e in events ==> e in s.reg.port && s.reg.port[e] == Armed) ==>
                    Enabled(s, PollReturns(t, events)))
    ensures t < |s.w| && s.w[t].Handling? ==> Enabled(s, HandlerReturns(t, cont))
    ensures t < |s.w| && s.w[t].Dispatch? && s.off < |s.backlog| ==> Enabled(s, Take(t, events))
  {
    var wake := SomebodyToWake(s);
    assert s.locker == NOBODY ==> Enabled(s, Submit(task, wake));
  }

  lemma SomebodyToWake(s: State) returns (wake: nat)
    ensures s.CanWake(wake)
  {
    wake := 0;
    if u :| 0 <= u < |s.w| && s.w[u] == Waiting {
      wake := u;
    }
  }

  /** No wakeup is lost, with two workers or more and before `end`: while nobody polls at least
      two workers are up, and while somebody polls and the task queue or the out queue holds
      work, another worker is up. */
  lemma NoLostWakeup(n: nat, steps: seq<Step>)
    requires n >= 2 && Runs(Start(n), steps) && SetEndFlag !in steps
    ensures var s := After(Start(n), steps);
            && (s.pollable ==> exists t, u :: 0 <= t < |s.w| && 0 <= u < |s.w| && t != u && IsUp(s, t) && IsUp(s, u))
            && (!s.pollable && (s.outq != [] || s.tasks != []) ==>
                  exists t :: 0 <= t < |s.w| && !s.w[t].InPoll() && IsUp(s, t))
  {
    hide Apply, Enabled;
    StartInv(n);
    EndIsSet(Start(n), steps);
    RunKeepsInv(Start(n), steps);
    WorkersStay(Start(n), steps);
    NobodyLeaves(Start(n), steps);
    UpWhereNeeded(After(Start(n), steps));
  }

  lemma UpWhereNeeded(s: State)
    requires PollInv(s) && WakeInv(s) && NobodyLeft(s) && |s.w| >= 2 && !s.ended
    ensures s.pollable ==> exists t, u :: 0 <= t < |s.w| && 0 <= u < |s.w| && t != u && IsUp(s, t) && IsUp(s, u)
    ensures !s.pollable && (s.outq != [] || s.tasks != []) ==>
              exists t :: 0 <= t < |s.w| && !s.w[t].InPoll() && IsUp(s, t)
  {
    if s.pollable {
      var t, u :| 0 <= t < |s.w| && 0 <= u < |s.w| && t != u && s.w[t] != Waiting && s.w[u] != Waiting;
      assert IsUp(s, t) && IsUp(s, u);
    } else if s.outq != [] || s.tasks != [] {
      var t :| 0 <= t < |s.w| && t != s.poller && s.w[t] != Waiting;
      assert IsUp(s, t);
    }
  }

  lemma {:induction false} WorkersStay(s: State, steps: seq<Step>)
    requires Runs(s, steps)
    ensures |After(s, steps).w| == |s.w|
    decreases |steps|
  {
    if steps != [] {
      WorkersStay(Apply(s, steps[0]), steps[1..]);
      StepKeepsWorkers(s, steps[0]);
    }
  }

  lemma StepKeepsWorkers(s: State, st: Step)
    requires Enabled(s, st)
    ensures |Apply(s, st).w| == |s.w|
  {
    if st.Choose? {
      ChosenKeepsWorkers(s, st.t, st.wake);
    }
    hide Chosen, FireAll, Rearm;
  }

  lemma ChosenKeepsWorkers(s: State, t: nat, wake: nat)
    requires t < |s.w|
    ensures |Chosen(s, t, wake).w| == |s.w|
  {
  }

  /** Whoever holds the lock can go on, so the lock is always released. */
  lemma HolderCanStep(s: State)
    requires ControlInv(s) && s.locker != NOBODY
    ensures exists st :: ByWorker(st) && st.t == s.locker && Enabled(s, st)
  {
    var t := s.locker;
    match s.w[t]
    case Check =>
      assert Enabled(s, ReadEnd(t));
    case Decide =>
      var wake := SomebodyToWake(s);
      assert Enabled(s, Choose(t, wake));
    case Dispatch =>
      assert Enabled(s, Take(t, []));
  }

  // ----- the end

  /** How many steps a worker still has to take once the end was broadcast. */
  function Rank(pc: Pc): nat {
    match pc
    case Returned => 0
    case Check => 1
    case Retry => 2
    case Woken => 2
    case OutTask(_) => 3
    case RunTask(_) => 3
    case Reactivating(_) => 3
    case Resetting(_) => 3
    case Removing(_) => 4
    case Handling(_) => 5
    case Dispatch => 6
    case Polled(_) => 7
    case Polling => 8
    case Decide => 9
    case Waiting => 9
  }

  function TotalRank(w: seq<Pc>): nat {
    if w == [] then 0 else Rank(w[0]) + TotalRank(w[1..])
  }

  lemma {:induction false} TotalRankGoto(w: seq<Pc>, t: nat, pc: Pc)
    requires t < |w|
    ensures TotalRank(w[t := pc]) == TotalRank(w) - Rank(w[t]) + Rank(pc)
  {
    if t > 0 {
      TotalRankGoto(w[1..], t - 1, pc);
      assert w[t := pc][1..] == w[1..][t - 1 := pc];
    }
  }

  lemma {:induction false} TotalRankZero(w: seq<Pc>)
    ensures TotalRank(w) == 0 <==> forall t :: 0 <= t < |w| ==> w[t] == Returned
  {
    if w != [] {
      TotalRankZero(w[1..]);
      assert w == [w[0]] + w[1..];
    }
  }

  /** After the broadcast every step of a worker brings that worker closer to returning. */
  lemma EndedWorkerStep(s: State, st: Step)
    requires ControlInv(s) && s.broadcasted && Enabled(s, st) && ByWorker(st)
    ensures var s' := Apply(s, st);
            && s'.broadcasted && |s'.w| == |s.w| && st.t < |s.w|
            && s'.w == s.w[st.t := s'.w[st.t]] && Rank(s'.w[st.t]) < Rank(s.w[st.t])
  {
    hide LockInv, PollInv, CursorInv, Chosen, FireAll, Rearm, WakeAll;
    var s' := Apply(s, st);
    assert !(st.Lock? && s.At(st.wake, Waiting));
    assert s'.w == s.w[st.t := s'.w[st.t]];
  }

  /** And no other thread puts a worker back. */
  lemma EndedOtherStep(s: State, st: Step)
    requires ControlInv(s) && s.broadcasted && Enabled(s, st) && !ByWorker(st)
    ensures Apply(s, st).broadcasted && Apply(s, st).w == s.w
  {
    hide LockInv, PollInv, CursorInv;
  }

  function WorkerSteps(steps: seq<Step>): nat {
    if steps == [] then 0 else (if ByWorker(steps[0]) then 1 else 0) + WorkerSteps(steps[1..])
  }

  lemma {:induction false} EndedStays(s: State, steps: seq<Step>)
    requires s.ended && Runs(s, steps)
    ensures After(s, steps).ended
    decreases |steps|
  {
    hide Apply, Enabled;
    if steps != [] {
      EndedAfter(s, steps[0]);
      EndedStays(Apply(s, steps[0]), steps[1..]);
    }
  }

  lemma EndedAfter(s: State, st: Step)
    requires s.ended && Enabled(s, st)
    ensures Apply(s, st).ended
  {
    hide FireAll, Rearm, WakeAll;
  }

  /** `end`, whatever other threads do between its two steps: from the first on, a worker that
      reads the flag returns; after the second nobody is blocked and the workers drain. */
  lemma EndTakesEffect(s: State, mid: seq<Step>, t: nat)
    requires Inv(s) && Enabled(s, SetEndFlag) && Runs(Apply(s, SetEndFlag), mid)
    ensures var s1 := After(Apply(s, SetEndFlag), mid);
            && s1.ended
            && (Enabled(s1, ReadEnd(t)) ==> Apply(s1, ReadEnd(t)).At(t, Returned))
            && (Enabled(s1, Broadcast) <==> s1.locker == NOBODY)
            && (s1.locker == NOBODY ==>
                  var s2 := Apply(s1, Broadcast);
                  Inv(s2) && s2.broadcasted && forall u :: 0 <= u < |s2.w| ==> s2.w[u] != Waiting)
  {
    hide Inv, Apply, Enabled;
    StepKeepsInv(s, SetEndFlag);
    RunKeepsInv(Apply(s, SetEndFlag), mid);
    FlagIsSet(s);
    EndedStays(Apply(s, SetEndFlag), mid);
    var s1 := After(Apply(s, SetEndFlag), mid);
    FlagIsRead(s1, t);
    if s1.locker == NOBODY {
      StepKeepsInv(s1, Broadcast);
    }
  }

  lemma FlagIsSet(s: State)
    requires Enabled(s, SetEndFlag)
    ensures Apply(s, SetEndFlag).ended
  {
  }

  lemma FlagIsRead(s: State, t: nat)
    requires s.ended
    ensures Enabled(s, ReadEnd(t)) ==> Apply(s, ReadEnd(t)).At(t, Returned)
    ensures Enabled(s, Broadcast) <==> s.locker == NOBODY
    ensures s.locker == NOBODY ==>
              var s' := Apply(s, Broadcast);
              s'.broadcasted && forall u :: 0 <= u < |s'.w| ==> s'.w[u] != Waiting
  {
  }

  /** Once `end` has broadcast, nobody is blocked or ever blocks again, and the workers take at
      most eight more steps each, whatever else happens. */
  lemma {:induction false} EndDrains(s: State, steps: seq<Step>)
    requires Inv(s) && s.broadcasted && Runs(s, steps)
    ensures var s' := After(s, steps);
            && Inv(s') && s'.broadcasted
            && (forall t :: 0 <= t < |s'.w| ==> s'.w[t] != Waiting)
            && WorkerSteps(steps) + TotalRank(s'.w) <= TotalRank(s.w)
    decreases |steps|
  {
    if steps != [] {
      var st := steps[0];
      var s' := Apply(s, st);
      StepKeepsInv(s, st);
      if ByWorker(st) {
        EndedWorkerStep(s, st);
        TotalRankGoto(s.w, st.t, s'.w[st.t]);
      } else {
        EndedOtherStep(s, st);
      }
      hide Inv, Apply, Enabled;
      EndDrains(s', steps[1..]);
    }
  }

  /** A worker that has not returned can take a step, unless another one has the lock and can
      take one: provided polls and handlers return, all workers do. */
  lemma EndedWorkersCanStep(s: State)
    requires Inv(s) && s.broadcasted && TotalRank(s.w) > 0
    ensures exists st :: ByWorker(st) && Enabled(s, st)
  {
    if s.locker != NOBODY {
      HolderCanStep(s);
    } else {
      TotalRankZero(s.w);
      var t :| 0 <= t < |s.w| && s.w[t] != Returned;
      UnlockedCanStep(s, t);
    }
  }

  lemma UnlockedCanStep(s: State, t: nat)
    requires ControlInv(s) && s.broadcasted && s.locker == NOBODY && t < |s.w| && s.w[t] != Returned
    ensures exists st :: ByWorker(st) && Enabled(s, st)
  {
    hide PollInv, CursorInv;
    match s.w[t]
    case Polling => assert Enabled(s, PollTimeout(t));
    case Handling(_) => assert Enabled(s, HandlerReturns(t, true));
    case Removing(_) => assert Enabled(s, ShotRemove(t));
    case Resetting(_) => assert Enabled(s, ResetHandler(t));
    case Reactivating(_) => assert Enabled(s, ShotReactivate(t));
    case OutTask(_) => assert Enabled(s, TaskReturns(t));
    case RunTask(_) => assert Enabled(s, TaskReturns(t));
    case Retry => assert Enabled(s, Lock(t, 0));
    case Woken => assert Enabled(s, Lock(t, 0));
    case Polled(_) => assert Enabled(s, Lock(t, 0));
    case _ =>
  }

  /** The bound is at most eight steps a worker, and used up exactly when all have returned. */
  lemma EndedMeansReturned(s: State)
    requires EndInv(s) && s.broadcasted
    ensures TotalRank(s.w) == 0 <==> forall t :: 0 <= t < |s.w| ==> s.w[t] == Returned
    ensures TotalRank(s.w) <= 8 * |s.w|
  {
    TotalRankZero(s.w);
    TotalRankBound(s.w);
  }

  lemma {:induction false} TotalRankBound(w: seq<Pc>)
    requires forall t :: 0 <= t < |w| ==> w[t] != Waiting && w[t] != Decide
    ensures TotalRank(w) <= 8 * |w|
  {
    if w != [] {
      TotalRankBound(w[1..]);
    }
  }
}
