/** The output side of one file descriptor: its queue of packed records, its one-shot write
    registration, and the critical sections of `out` that work on them. */
module OutQueue {
  import opened XferRecords
  import opened XferEngine
  import opened XferBuffer

  /** The write registration of a descriptor in the out port: EPOLLONESHOT disarms it when it
      fires, and the event is then in flight until `write_event` re-arms or removes it. */
  datatype Reg = Off | Armed | InFlight

  /** `committed` is everything handed to write, commit or commit_raw, in order; `settled` is
      what left the queue, sent or finalized or, after a hard error, given up with its
      finalizers run.  `kept` are the positions in `committed` of the settled and pending items.
      `broken` records that some write failed hard or pending output was destroyed, `dropped`
      that an unqueued remainder was
      given up by commit_raw or write, or left with the caller by commit.  `destroyed` is set
      by the destructor. */
  datatype Fd = Fd(pending: seq<Record>, reg: Reg, log: seq<Item>, settled: seq<Item>,
                   committed: seq<Item>, kept: seq<nat>, broken: bool, dropped: bool, destroyed: bool)
  {
    /** Everything that was sent at once or queued. */
    function Accepted(): seq<Item> {
      settled + Items(pending)
    }
  }

  const FRESH := Fd([], Off, [], [], [], [], false, false, false)

  /** One critical section on the descriptor: what was executed, the verdict, the remainder
      and the new log. */
  datatype Op =
    | Commit(rs: seq<Record>, v: Verdict, rest: seq<Record>, log: seq<Item>)
    | Event(v: Verdict, rest: seq<Record>, log: seq<Item>)
    | Fire
    | Destroy

  ghost predicate Enabled(s: Fd, op: Op) {
    !s.destroyed &&
    match op
    case Commit(rs, v, rest, log) => s.pending == [] ==> Executed(rs, s.log, v, rest, log)
    case Event(v, rest, log) => s.reg == InFlight && Executed(s.pending, s.log, v, rest, log)
    case Fire => s.reg == Armed
    case Destroy => true
  }

  /** `all` is committed and its first `n` items are accepted. */
  function Accept(s: Fd, all: seq<Item>, n: nat): Fd {
    s.(committed := s.committed + all, kept := s.kept + Positions(|s.committed|, n))
  }

  function Positions(from: nat, n: nat): seq<nat> {
    seq(n, i => from + i)
  }

  /** What an execution added to the log. */
  function Sent(s: Fd, log: seq<Item>): seq<Item>
    requires s.log <= log
  {
    log[|s.log|..]
  }

  ghost function Apply(s: Fd, op: Op): Fd
    requires Enabled(s, op)
  {
    match op
    case Commit(rs, v, rest, log) =>
      if s.pending != [] then
        Accept(s, Items(rs), |Items(rs)|).(pending := s.pending + rs)
      else
        var sent := Sent(s, log);
        var s' := Accept(s, Items(rs), if v == Hard then |sent| else |Items(rs)|)
                  .(log := log, settled := s.settled + sent);
        (match v
         case Done => s'
         case Again => s'.(pending := rest, reg := Armed)
         case Hard => s'.(broken := true, dropped := true))
    case Event(v, rest, log) =>
      var s' := s.(log := log, settled := s.settled + Sent(s, log));
      (match v
       case Done => s'.(pending := [], reg := Off)
       case Again => s'.(pending := rest, reg := Armed)
       case Hard =>
         s'.(log := log + Calls(Items(rest)), settled := s'.settled + Items(rest),
             pending := [], reg := Off, broken := true))
    case Fire => s.(reg := InFlight)
    case Destroy =>
      s.(log := s.log + Calls(Items(s.pending)), settled := s.settled + Items(s.pending),
         pending := [], reg := Off, broken := s.broken || s.pending != [], destroyed := true)
  }

  /** The part of a step that is real state. */
  lemma ApplyReal(s: Fd, op: Op)
    requires Enabled(s, op)
    ensures var s' := Apply(s, op);
      && (op.Fire? ==> s'.pending == s.pending && s'.reg == InFlight && s'.log == s.log)
      && (op.Commit? && s.pending != [] ==> s'.pending == s.pending + op.rs && s'.reg == s.reg && s'.log == s.log)
      && (op.Commit? && s.pending == [] ==>
            s'.log == op.log && if op.v == Again then s'.pending == op.rest && s'.reg == Armed
                                else s'.pending == [] && s'.reg == s.reg)
      && (op.Event? ==>
            if op.v == Again then s'.pending == op.rest && s'.reg == Armed && s'.log == op.log
            else s'.pending == [] && s'.reg == Off &&
                 s'.log == op.log + if op.v == Hard then Calls(Items(op.rest)) else [])
      && (op.Destroy? ==> s'.pending == [] && s'.reg == Off && s'.log == s.log + Calls(Items(s.pending)))
      && s'.destroyed == op.Destroy?
  {
    if op.Event? {
      Regroup(op.log, [], []);
    }
  }

  // ----- the invariant

  /** What was accepted is part of what was committed, in the same order, and all of it unless
      something was dropped. */
  ghost predicate InOrder(accepted: seq<Item>, committed: seq<Item>, kept: seq<nat>, dropped: bool) {
    && |kept| == |accepted|
    && (forall i :: 0 <= i < |kept| ==> kept[i] < |committed| && accepted[i] == committed[kept[i]])
    && (forall i, j :: 0 <= i < j < |kept| ==> kept[i] < kept[j])
    && (!dropped ==> accepted == committed)
  }

  /** The finalizers of settled items, and no others, have run, once each and in order; until a
      hard error the settled bytes were handed to the kernel, in order. */
  ghost predicate Delivered(s: Fd) {
    && Calls(s.log) == Calls(s.settled)
    && (!s.broken ==> s.log == s.settled)
  }

  ghost predicate Inv(s: Fd) {
    && InOrder(s.Accepted(), s.committed, s.kept, s.dropped)
    && Delivered(s)
    && (s.dropped ==> s.broken)
    // output is pending exactly while a write registration exists
    && (s.pending != [] <==> s.reg != Off)
    && (s.destroyed ==> s.pending == [])
  }

  lemma FreshInv()
    ensures Inv(FRESH)
  {
  }

  lemma InOrderExtends(accepted: seq<Item>, committed: seq<Item>, kept: seq<nat>, dropped: bool,
                       all: seq<Item>, sent: seq<Item>, dropped': bool)
    requires InOrder(accepted, committed, kept, dropped)
    requires sent <= all && (dropped ==> dropped') && (!dropped' ==> sent == all)
    ensures InOrder(accepted + sent, committed + all, kept + Positions(|committed|, |sent|), dropped')
  {
    var kept' := kept + Positions(|committed|, |sent|);
    forall i | 0 <= i < |kept'|
      ensures kept'[i] < |committed + all| && (accepted + sent)[i] == (committed + all)[kept'[i]]
    {
      if i >= |kept| {
        assert kept'[i] == |committed| + (i - |kept|);
      }
    }
  }

  /** Settling more items delivers them. */
  lemma Settles(s: Fd, sent: seq<Item>, s': Fd)
    requires Delivered(s) && s'.log == s.log + sent && s'.settled == s.settled + sent
    requires s.broken ==> s'.broken
    ensures Delivered(s')
  {
    CallsAppend(s.log, sent);
    CallsAppend(s.settled, sent);
  }

  lemma CommitKeepsInv(s: Fd, op: Op)
    requires Inv(s) && op.Commit? && Enabled(s, op)
    ensures Inv(Apply(s, op))
  {
    hide InOrder, Delivered;
    var all, s' := Items(op.rs), Apply(s, op);
    if s.pending != [] {
      ItemsAppend(s.pending, op.rs);
      Regroup(s.settled, Items(s.pending), all);
      InOrderExtends(s.Accepted(), s.committed, s.kept, s.dropped, all, all, s.dropped);
      Settles(s, [], s') by { Regroup(s.log, [], []); Regroup(s.settled, [], []); }
    } else {
      DirectKeepsInv(s, op);
    }
  }

  lemma ExecutedSplits(rs: seq<Record>, log: seq<Item>, v: Verdict, rs': seq<Record>, log': seq<Item>)
    requires Executed(rs, log, v, rs', log')
    ensures log <= log' && log' == log + log'[|log|..] && Items(rs) == log'[|log|..] + Items(rs')
    ensures (v == Done <==> rs' == []) && Items([]) == []
  {
  }

  lemma DirectKeepsInv(s: Fd, op: Op)
    requires Inv(s) && op.Commit? && Enabled(s, op) && s.pending == []
    ensures Inv(Apply(s, op))
  {
    hide InOrder, Delivered, Executed, Items, Positions;
    ExecutedSplits(op.rs, s.log, op.v, op.rest, op.log);
    var all, sent, s' := Items(op.rs), Sent(s, op.log), Apply(s, op);
    var taken := if op.v == Hard then sent else all;
    InOrderExtends(s.Accepted(), s.committed, s.kept, s.dropped, all, taken, s'.dropped);
    Settles(s, sent, s');
    assert s.Accepted() == s.settled;
    Regroup(s.settled, sent, Items(op.rest));
    assert s'.Accepted() == s.Accepted() + taken;
  }

  lemma EventKeepsInv(s: Fd, op: Op)
    requires Inv(s) && op.Event? && Enabled(s, op)
    ensures Inv(Apply(s, op))
  {
    hide InOrder, Delivered;
    var sent, s' := Sent(s, op.log), Apply(s, op);
    assert op.log == s.log + sent;
    Regroup(s.settled, sent, Items(op.rest));
    assert s'.Accepted() == s.Accepted();
    var mid := s.(log := op.log, settled := s.settled + sent);
    Settles(s, sent, mid);
    if op.v == Hard {
      Resets(mid, Items(op.rest), s');
    } else {
      Settles(mid, [], s') by { Regroup(mid.log, [], []); Regroup(mid.settled, [], []); }
    }
  }

  lemma DestroyKeepsInv(s: Fd)
    requires Inv(s) && Enabled(s, Destroy)
    ensures Inv(Apply(s, Destroy))
  {
    hide InOrder, Delivered;
    var left, s' := Items(s.pending), Apply(s, Destroy);
    Regroup(s.settled + left, [], []);
    if s.pending == [] {
      Settles(s, [], s') by { Regroup(s.log, [], []); Regroup(s.settled, [], []); }
    } else {
      Resets(s, left, s');
    }
  }

  lemma Resets(s: Fd, left: seq<Item>, s': Fd)
    requires Delivered(s) && s'.log == s.log + Calls(left) && s'.settled == s.settled + left && s'.broken
    ensures Delivered(s')
  {
    CallsAppend(s.log, Calls(left));
    CallsAppend(s.settled, left);
    CallsOfCalls(left);
  }

  lemma {:induction false} CallsOfCalls(s: seq<Item>)
    ensures Calls(Calls(s)) == Calls(s)
  {
    if s != [] {
      CallsOfCalls(s[1..]);
      assert Calls(s) == (if s[0].Finalized? then [s[0]] else []) + Calls(s[1..]);
      CallsAppend(if s[0].Finalized? then [s[0]] else [], Calls(s[1..]));
    }
  }

  lemma StepKeepsInv(s: Fd, op: Op)
    requires Inv(s) && Enabled(s, op)
    ensures Inv(Apply(s, op))
  {
    hide InOrder;
    match op
    case Commit(_, _, _, _) => CommitKeepsInv(s, op);
    case Event(_, _, _) => EventKeepsInv(s, op);
    case Fire => assert Apply(s, op).Accepted() == s.Accepted();
    case Destroy => DestroyKeepsInv(s);
  }

  // ----- whole runs

  ghost predicate Runs(s: Fd, ops: seq<Op>)
    decreases |ops|
  {
    ops == [] || (Enabled(s, ops[0]) && Runs(Apply(s, ops[0]), ops[1..]))
  }

  ghost function After(s: Fd, ops: seq<Op>): Fd
    requires Runs(s, ops)
    decreases |ops|
  {
    if ops == [] then s else After(Apply(s, ops[0]), ops[1..])
  }

  lemma {:induction false} RunKeepsInv(s: Fd, ops: seq<Op>)
    requires Inv(s) && Runs(s, ops)
    ensures Inv(After(s, ops))
    decreases |ops|
  {
    if ops != [] {
      StepKeepsInv(s, ops[0]);
      RunKeepsInv(Apply(s, ops[0]), ops[1..]);
    }
  }

  /** A step at which the kernel reports a hard error, or pending output is destroyed. */
  predicate Breaks(s: Fd, op: Op) {
    match op
    case Commit(_, v, _, _) => s.pending == [] && v == Hard
    case Event(v, _, _) => v == Hard
    case Fire => false
    case Destroy => s.pending != []
  }

  ghost predicate EverBreaks(s: Fd, ops: seq<Op>)
    requires Runs(s, ops)
    decreases |ops|
  {
    ops != [] && (Breaks(s, ops[0]) || EverBreaks(Apply(s, ops[0]), ops[1..]))
  }

  lemma {:induction false} BrokenBySteps(s: Fd, ops: seq<Op>)
    requires Runs(s, ops)
    ensures After(s, ops).broken <==> s.broken || EverBreaks(s, ops)
    decreases |ops|
  {
    hide Enabled;
    if ops != [] {
      BrokenBySteps(Apply(s, ops[0]), ops[1..]);
    }
  }

  /** Any interleaving of write, commit, commit_raw and write_event on a descriptor, with any
      kernel answers, and its destruction at the end.  Until the first hard error the bytes sent
      and finalizers run so far, followed by what the queue denotes, are everything committed in
      commit order.  Whatever happens, what is settled or queued is part of what was committed,
      in commit order, each item at most once, and the finalizers run are exactly those of the
      settled items. */
  lemma FifoWithFinalizers(ops: seq<Op>)
    requires Runs(FRESH, ops)
    ensures var s := After(FRESH, ops);
            && (!EverBreaks(FRESH, ops) ==> s.log + Items(s.pending) == s.committed)
            && (s.broken <==> EverBreaks(FRESH, ops))
            && InOrder(s.Accepted(), s.committed, s.kept, s.dropped)
            && Calls(s.log) == Calls(s.settled)
            && Calls(s.log) + Calls(Items(s.pending)) == Calls(s.Accepted())
            && (!s.dropped ==> s.Accepted() == s.committed)
            && (s.destroyed ==> s.pending == [])
  {
    FreshInv();
    RunKeepsInv(FRESH, ops);
    BrokenBySteps(FRESH, ops);
    var s := After(FRESH, ops);
    CallsAppend(s.settled, Items(s.pending));
  }

  // ----- finalizers that never run

  /** The finalizers a step gives up: those behind an immediate hard error.  A commit onto a
      queue that is not empty gives up none. */
  ghost function LostBy(s: Fd, op: Op): nat {
    if op.Commit? && s.pending == [] && op.v == Hard then |Calls(Items(op.rest))| else 0
  }

  ghost function Lost(s: Fd, ops: seq<Op>): nat
    requires Runs(s, ops)
    decreases |ops|
  {
    if ops == [] then 0 else LostBy(s, ops[0]) + Lost(Apply(s, ops[0]), ops[1..])
  }

  /** What a step commits, and what part of it becomes accepted. */
  lemma AcceptedAfter(s: Fd, op: Op)
    requires Inv(s) && Enabled(s, op)
    ensures var s' := Apply(s, op);
            if op.Commit? then
              && s'.committed == s.committed + Items(op.rs)
              && (if s.pending == [] && op.v == Hard then
                    && s.log <= op.log
                    && s'.Accepted() == s.Accepted() + Sent(s, op.log)
                    && Items(op.rs) == Sent(s, op.log) + Items(op.rest)
                  else s'.Accepted() == s.Accepted() + Items(op.rs))
            else s'.committed == s.committed && s'.Accepted() == s.Accepted()
  {
    hide InOrder, Delivered;
    match op
    case Commit(rs, _, rest, log) =>
      if s.pending != [] {
        ItemsAppend(s.pending, rs);
        Regroup(s.settled, Items(s.pending), Items(rs));
      } else {
        assert s.Accepted() == s.settled;
        Regroup(s.settled, Sent(s, log), Items(rest));
        Regroup(s.settled + Sent(s, log), [], []);
      }
    case Event(_, rest, log) =>
      Regroup(s.settled, Sent(s, log), Items(rest));
      Regroup(Apply(s, op).settled, [], []);
    case Fire =>
    case Destroy => Regroup(s.settled + Items(s.pending), [], []);
  }

  /** How many finalizers were committed but not accepted. */
  function Missing(s: Fd): int {
    |Calls(s.committed)| - |Calls(s.Accepted())|
  }

  ghost predicate NoneMissing(s: Fd) {
    Calls(s.Accepted()) == Calls(s.committed)
  }

  lemma StepAccount(s: Fd, op: Op)
    requires Inv(s) && Enabled(s, op)
    ensures Missing(Apply(s, op)) == Missing(s) + LostBy(s, op)
    ensures LostBy(s, op) == 0 && NoneMissing(s) ==> NoneMissing(Apply(s, op))
  {
    hide Apply, Enabled, Inv, Items, Calls;
    AcceptedAfter(s, op);
    if op.Commit? {
      CallsAppend(s.committed, Items(op.rs));
      CallsAppend(s.Accepted(), Items(op.rs));
      if s.pending == [] && op.v == Hard {
        CallsAppend(s.Accepted(), Sent(s, op.log));
        CallsAppend(Sent(s, op.log), Items(op.rest));
        Regroup(Calls(Sent(s, op.log)), [], []);
      }
    }
  }

  lemma {:induction false} Account(s: Fd, ops: seq<Op>)
    requires Inv(s) && Runs(s, ops)
    ensures Missing(After(s, ops)) == Missing(s) + Lost(s, ops)
    ensures Lost(s, ops) == 0 && NoneMissing(s) ==> NoneMissing(After(s, ops))
    decreases |ops|
  {
    hide Apply, Enabled, Inv, Calls, LostBy;
    if ops != [] {
      StepKeepsInv(s, ops[0]);
      StepAccount(s, ops[0]);
      Account(Apply(s, ops[0]), ops[1..]);
    }
  }

  /** Exactly once, but for what was given up: over every run the finalizers that are not
      accepted are as many as the immediate hard errors left behind; and once the queue is
      drained or destroyed, every finalizer ever committed has run, in commit order, if and only
      if no immediate hard error left one behind. */
  lemma FinalizersRunUnlessLost(ops: seq<Op>)
    requires Runs(FRESH, ops)
    ensures var s := After(FRESH, ops);
            && |Calls(s.committed)| == |Calls(s.Accepted())| + Lost(FRESH, ops)
            && (s.pending == [] ==> (Calls(s.log) == Calls(s.committed) <==> Lost(FRESH, ops) == 0))
  {
    FreshInv();
    Account(FRESH, ops);
    FifoWithFinalizers(ops);
    Regroup(Calls(After(FRESH, ops).log), [], []);
  }

  /** A run that loses one: the first write of a buffer fails hard, and the finalizer committed
      behind it never runs. */
  lemma LosingRun()
    ensures var rs := [Vec([Iovec(1, 1)]), Fin(7, 8)];
            var ops := [Commit(rs, Hard, rs, [])];
            && Runs(FRESH, ops) && Lost(FRESH, ops) == 1
            && var s := After(FRESH, ops);
               s.pending == [] && Calls(s.log) == [] && Calls(s.committed) == [Finalized(7, 8)]
  {
    var data, fin := Vec([Iovec(1, 1)]), Fin(7, 8);
    var rs := [data, fin];
    var op := Commit(rs, Hard, rs, []);
    assert Executed(rs, [], Hard, rs, []) by {
      assert [] + Items(rs) == Items(rs);
    }
    assert rs == [data] + [fin];
    CallsOfRecord(data, [fin]);
    assert [fin] == [fin] + [];
    CallsOfRecord(fin, []);
    assert Apply(FRESH, op).committed == Items(rs);
    assert [op][1..] == [];
  }

  // ----- one finalizer

  lemma {:induction false} AcceptedGrows(s: Fd, ops: seq<Op>) returns (later: seq<Item>)
    requires Inv(s) && Runs(s, ops)
    ensures Calls(After(s, ops).Accepted()) == Calls(s.Accepted()) + later
    decreases |ops|
  {
    hide Apply, Enabled, Inv, Calls;
    if ops == [] {
      later := [];
    } else {
      StepKeepsInv(s, ops[0]);
      var first := StepGrows(s, ops[0]);
      later := AcceptedGrows(Apply(s, ops[0]), ops[1..]);
      later := first + later;
    }
  }

  lemma StepGrows(s: Fd, op: Op) returns (later: seq<Item>)
    requires Inv(s) && Enabled(s, op)
    ensures Calls(Apply(s, op).Accepted()) == Calls(s.Accepted()) + later
  {
    hide Apply, Enabled, Inv, Items, Calls;
    AcceptedAfter(s, op);
    if op.Commit? {
      var more := if s.pending == [] && op.v == Hard then Sent(s, op.log) else Items(op.rs);
      CallsAppend(s.Accepted(), more);
      later := Calls(more);
    } else {
      later := [];
      Regroup(Calls(s.Accepted()), [], []);
    }
  }

  /** Data with one finalizer behind it. */
  predicate EndsWith(rs: seq<Record>, fn: int, user: int) {
    |rs| == 2 && !rs[0].Fin? && rs[1] == Fin(fn, user) && fn != 0
  }

  lemma OneCall(rs: seq<Record>, fn: int, user: int)
    requires EndsWith(rs, fn, user)
    ensures Calls(Items(rs)) == [Finalized(fn, user)]
  {
    assert rs == [rs[0]] + [rs[1]] && [rs[1]] == [rs[1]] + [];
    CallsOfRecord(rs[0], [rs[1]]);
    CallsOfRecord(rs[1], []);
  }

  lemma CommitOfOne(s: Fd, op: Op, fn: int, user: int)
    requires Inv(s) && Enabled(s, op) && op.Commit? && EndsWith(op.rs, fn, user)
    ensures LostBy(s, op) <= 1
    ensures Calls(Apply(s, op).Accepted())
         == Calls(s.Accepted()) + if LostBy(s, op) == 0 then [Finalized(fn, user)] else []
  {
    hide Apply, Enabled, Inv, Items, Calls, EndsWith;
    AcceptedAfter(s, op);
    OneCall(op.rs, fn, user);
    if s.pending == [] && op.v == Hard {
      CallsAppend(s.Accepted(), Sent(s, op.log));
      CallsAppend(Sent(s, op.log), Items(op.rest));
      OneOfTwo(Calls(Sent(s, op.log)), Calls(Items(op.rest)), Finalized(fn, user));
    } else {
      CallsAppend(s.Accepted(), Items(op.rs));
    }
  }

  lemma OneOfTwo(a: seq<Item>, b: seq<Item>, x: Item)
    requires a + b == [x]
    ensures |b| <= 1 && a == if |b| == 0 then [x] else []
  {
  }

  /** One commit of data and a finalizer, anywhere in a run: once the queue is drained or
      destroyed, the finalizers run are those accepted before the commit, then its own unless
      the commit itself lost it, then later ones.  So it runs exactly once for this commit. */
  lemma FinalizerRunsOnce(before: seq<Op>, op: Op, after: seq<Op>, fn: int, user: int) returns (later: seq<Item>)
    requires Runs(FRESH, before) && Enabled(After(FRESH, before), op) && op.Commit? && EndsWith(op.rs, fn, user)
    requires Runs(Apply(After(FRESH, before), op), after)
    ensures var s0 := After(FRESH, before);
            var s := After(Apply(s0, op), after);
            && LostBy(s0, op) <= 1
            && (s.pending == [] ==>
                  Calls(s.log)
                  == Calls(s0.Accepted()) + (if LostBy(s0, op) == 0 then [Finalized(fn, user)] else []) + later)
  {
    hide Apply, Enabled, Calls, InOrder, EndsWith;
    FreshInv();
    RunKeepsInv(FRESH, before);
    var s0 := After(FRESH, before);
    StepKeepsInv(s0, op);
    CommitOfOne(s0, op, fn, user);
    later := AcceptedGrows(Apply(s0, op), after);
    RunKeepsInv(Apply(s0, op), after);
    NothingMore(After(Apply(s0, op), after));
  }

  lemma NothingMore(s: Fd)
    requires Inv(s)
    ensures s.pending == [] ==> Calls(s.log) == Calls(s.Accepted())
  {
    hide InOrder;
    Regroup(s.settled, [], []);
  }

  // ----- ownership

  lemma OrderReflects(kept: seq<nat>, i: nat, j: nat)
    requires forall a, b :: 0 <= a < b < |kept| ==> kept[a] < kept[b]
    requires i < |kept| && j < |kept| && kept[i] < kept[j]
    ensures i < j
  {
  }

  lemma LaterIsBehind(accepted: seq<Item>, committed: seq<Item>, kept: seq<nat>, dropped: bool, i: nat, j: nat)
    requires InOrder(accepted, committed, kept, dropped) && i < |kept| && j < |kept| && kept[i] < kept[j]
    ensures i < j < |accepted| && kept[j] < |committed| && accepted[j] == committed[kept[j]]
  {
    OrderReflects(kept, i, j);
  }

  /** In every run, memory is owned while any of its bytes is pending: let the `i`-th accepted
      item be pending and the `j`-th, say its finalizer, be committed behind it.  Then that one
      is pending too, at its place, while the calls made so far are those of settled items. */
  lemma MemoryIsOwned(ops: seq<Op>, i: nat, j: nat)
    requires Runs(FRESH, ops)
    ensures var s := After(FRESH, ops);
            |s.settled| <= i < |s.kept| && j < |s.kept| && s.kept[i] < s.kept[j] ==>
              && |s.settled| <= j && j - |s.settled| < |Items(s.pending)|
              && s.kept[j] < |s.committed| && Items(s.pending)[j - |s.settled|] == s.committed[s.kept[j]]
              && Calls(s.log) == Calls(s.settled)
  {
    hide InOrder, Runs, After, Items, Calls;
    FreshInv();
    RunKeepsInv(FRESH, ops);
    var s := After(FRESH, ops);
    if |s.settled| <= i < |s.kept| && j < |s.kept| && s.kept[i] < s.kept[j] {
      LaterIsBehind(s.Accepted(), s.committed, s.kept, s.dropped, i, j);
      assert s.Accepted()[j] == Items(s.pending)[j - |s.settled|];
    }
  }
}
