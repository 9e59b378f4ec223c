/** `out` as a whole: all descriptors, its port and its event queue, shared by the workers. */
module OutSystem {
  import opened Common
  import opened XferEngine
  import opened OutQueue

  /** `batch` are events the port returned that `poll_event` has yet to push, `queue` is
      m_queue, and `held` are the events popped by workers on their way into `write_event`. */
  datatype Sys = Sys(fds: map<int, Fd>, batch: seq<int>, queue: seq<int>, held: multiset<int>)

  datatype Step =
    | Writing(fd: int, op: Op)   // write, commit or commit_raw by any thread
    | Wait(events: seq<int>)     // the port returns armed descriptors and disarms them
    | Push                       // one turn of the loop of poll_event
    | Next                       // a worker pops an event
    | Handle(fd: int, op: Op)    // and runs write_event

  /** How many copies of the descriptor's write event are on their way to `write_event`. */
  ghost function Copies(s: Sys, fd: int): nat {
    multiset(s.batch)[fd] + multiset(s.queue)[fd] + s.held[fd]
  }

  ghost predicate CanStep(s: Sys, st: Step) {
    match st
    case Writing(fd, op) => fd in s.fds && op.Commit? && Enabled(s.fds[fd], op)
    case Wait(events) =>
      && s.batch == []
      && (forall e :: e in events ==> e in s.fds && Enabled(s.fds[e], Fire))
      && (forall i, j :: 0 <= i < j < |events| ==> events[i] != events[j])
    case Push => s.batch != []
    case Next => s.queue != []
    case Handle(fd, op) => fd in s.held && fd in s.fds && op.Event? && Enabled(s.fds[fd], op)
  }

  ghost function StepTo(s: Sys, st: Step): Sys
    requires CanStep(s, st)
  {
    match st
    case Writing(fd, op) => s.(fds := s.fds[fd := Apply(s.fds[fd], op)])
    case Wait(events) =>
      s.(fds := map e | e in s.fds :: if e in events then Apply(s.fds[e], Fire) else s.fds[e], batch := events)
    case Push => s.(batch := s.batch[1..], queue := s.queue + [s.batch[0]])
    case Next => s.(queue := s.queue[1..], held := s.held + multiset{s.queue[0]})
    case Handle(fd, op) =>
      s.(fds := s.fds[fd := Apply(s.fds[fd], op)], held := s.held - multiset{fd})
  }

  /** A descriptor keeps its own invariant, and its write event is in flight exactly once
      while its registration has fired, and never otherwise. */
  ghost predicate FdOk(s: Sys, fd: int) {
    if fd in s.fds then Inv(s.fds[fd]) && Copies(s, fd) == if s.fds[fd].reg == InFlight then 1 else 0
    else Copies(s, fd) == 0
  }

  ghost predicate SysInv(s: Sys) {
    forall fd :: FdOk(s, fd)
  }

  /** A step of one descriptor under its lock, seen by that descriptor. */
  lemma OwnStepKeepsFdOk(s: Sys, st: Step, fd: int)
    requires FdOk(s, fd) && CanStep(s, st)
    requires (st.Writing? || st.Handle?) && st.fd == fd
    ensures FdOk(StepTo(s, st), fd)
  {
    StepKeepsInv(s.fds[fd], st.op);
    if st.Writing? {
      WritingKeepsFlight(s.fds[fd], st.op);
    } else {
      ApplyReal(s.fds[fd], st.op);
    }
    hide Inv, Apply, Enabled;
  }

  lemma WaitKeepsFdOk(s: Sys, events: seq<int>, fd: int)
    requires FdOk(s, fd) && CanStep(s, Wait(events))
    ensures FdOk(StepTo(s, Wait(events)), fd)
  {
    DistinctCounts(events);
    if fd in events {
      StepKeepsInv(s.fds[fd], Fire);
      ApplyReal(s.fds[fd], Fire);
    }
    hide Inv, Apply, Enabled;
  }

  lemma SysStepKeepsInv(s: Sys, st: Step)
    requires SysInv(s) && CanStep(s, st)
    ensures SysInv(StepTo(s, st))
  {
    hide FdOk, CanStep, StepTo;
    forall fd ensures FdOk(StepTo(s, st), fd) {
      if st.Wait? {
        WaitKeepsFdOk(s, st.events, fd);
      } else if (st.Writing? || st.Handle?) && st.fd == fd {
        OwnStepKeepsFdOk(s, st, fd);
      } else {
        OtherStepKeepsFdOk(s, st, fd);
      }
    }
  }

  /** A step that is about other descriptors, or only passes events on. */
  lemma OtherStepKeepsFdOk(s: Sys, st: Step, fd: int)
    requires FdOk(s, fd) && CanStep(s, st) && !st.Wait?
    requires st.Writing? || st.Handle? ==> st.fd != fd
    ensures FdOk(StepTo(s, st), fd)
  {
    hide Inv, Apply, Enabled;
    match st {
      case Push => SplitHead(s.batch);
      case Next => SplitHead(s.queue);
      case _ =>
    }
  }

  /** A commit never touches an event in flight: while one is, it only appends. */
  lemma WritingKeepsFlight(s: Fd, op: Op)
    requires Inv(s) && op.Commit? && Enabled(s, op)
    ensures Apply(s, op).reg == InFlight <==> s.reg == InFlight
  {
    ApplyReal(s, op);
  }

  /** Events on their way to a worker, the oldest first. */
  function Line(s: Sys): seq<int> {
    s.queue + s.batch
  }

  /** What the port returns is popped in order: it joins the end of the line, and each worker takes
      the head of it. */
  lemma EventsKeepOrder(s: Sys, st: Step)
    requires CanStep(s, st)
    ensures var s' := StepTo(s, st);
            match st
            case Wait(events) => Line(s') == Line(s) + events && s'.held == s.held
            case Next => Line(s) != [] && Line(s') == Line(s)[1..] && s'.held == s.held + multiset{Line(s)[0]}
            case Handle(fd, _) => Line(s') == Line(s) && s'.held == s.held - multiset{fd}
            case _ => Line(s') == Line(s) && s'.held == s.held
  {
    hide Apply, Enabled;
    match st
    case Next => assert Line(s)[0] == s.queue[0];
    case Push => assert s.batch == [s.batch[0]] + s.batch[1..];
    case _ =>
  }

  ghost predicate SysRuns(s: Sys, steps: seq<Step>)
    decreases |steps|
  {
    steps == [] || (CanStep(s, steps[0]) && SysRuns(StepTo(s, steps[0]), steps[1..]))
  }

  ghost function SysAfter(s: Sys, steps: seq<Step>): Sys
    requires SysRuns(s, steps)
    decreases |steps|
  {
    if steps == [] then s else SysAfter(StepTo(s, steps[0]), steps[1..])
  }

  lemma {:induction false} SysRunKeepsInv(s: Sys, steps: seq<Step>)
    requires SysInv(s) && SysRuns(s, steps)
    ensures SysInv(SysAfter(s, steps))
    decreases |steps|
  {
    if steps != [] {
      SysStepKeepsInv(s, steps[0]);
      SysRunKeepsInv(StepTo(s, steps[0]), steps[1..]);
    }
  }

  ghost function SysStart(fds: set<int>): Sys {
    Sys(map fd | fd in fds :: FRESH, [], [], multiset{})
  }

  /** No output is ever stranded and no descriptor is written by two workers at once: in every
      reachable state a descriptor with pending records is armed, or its one write event is
      in the port's batch, in the queue or with one worker; without pending records it is
      not registered and has no event in flight. */
  lemma NoStrandedOutput(fds: set<int>, steps: seq<Step>, fd: int)
    requires SysRuns(SysStart(fds), steps)
    requires fd in SysAfter(SysStart(fds), steps).fds
    ensures var s := SysAfter(SysStart(fds), steps);
            && (s.fds[fd].pending != [] ==> Copies(s, fd) == if s.fds[fd].reg == Armed then 0 else 1)
            && (s.fds[fd].pending == [] ==> Copies(s, fd) == 0 && s.fds[fd].reg == Off)
  {
    FreshInv();
    SysRunKeepsInv(SysStart(fds), steps);
    assert FdOk(SysAfter(SysStart(fds), steps), fd);
  }

  /** From every state a worker can be brought to the write event of pending output by steps that
      only pass events on, and then the event can be handled, whatever execution gives. */
  lemma {:induction false} OutputCanMove(s: Sys, fd: int) returns (steps: seq<Step>)
    requires SysInv(s) && fd in s.fds && s.fds[fd].pending != []
    ensures SysRuns(s, steps) && forall st :: st in steps ==> st.Push? || st.Next? || st == Wait([fd])
    ensures var s' := SysAfter(s, steps);
            && fd in s'.held && fd in s'.fds && s'.fds[fd].pending == s.fds[fd].pending
            && forall v, rest, log :: Executed(s.fds[fd].pending, s.fds[fd].log, v, rest, log) ==>
                 CanStep(s', Handle(fd, Event(v, rest, log)))
    decreases s.fds[fd].reg.Armed?, 2 * |s.batch| + |s.queue|
  {
    assert FdOk(s, fd);
    hide Executed;
    if fd in s.held {
      return [];
    }
    var st := if s.batch != [] then Push else if s.fds[fd].reg.Armed? then Wait([fd]) else Next;
    assert CanStep(s, st) && fd in StepTo(s, st).fds;
    SysStepKeepsInv(s, st);
    var rest := OutputCanMove(StepTo(s, st), fd);
    steps := [st] + rest;
  }

  /** The event of a descriptor that is being handled can always be handled: the queue it
      belongs to is still there. */
  lemma HeldEventsAreLive(s: Sys, fd: int)
    requires SysInv(s) && fd in s.held
    ensures fd in s.fds && s.fds[fd].reg == InFlight && s.fds[fd].pending != []
  {
    assert FdOk(s, fd);
  }
}
