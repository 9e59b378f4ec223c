/** The heap side of `out`: one entry of m_fdctx and the methods that lock it. */
module OutFd {
  import opened XferRecords
  import opened XferEngine
  import opened XferBuffer
  import opened OutQueue

  /** One entry of m_fdctx with what the kernel knows about the descriptor.  Every method is
      one critical section under the entry's mutex; the ghost fields record its history. */
  class FdCtx {
    const ctx: Xfer
    const k: Kernel
    var reg: Reg
    ghost var fd: Fd

    /** `fd` is the abstract value of the real state, with its history. */
    ghost predicate Abstracts(s: Fd)
      reads this, ctx, ctx.block, k
    {
      ctx.Valid() && s.pending == ctx.Records() && s.reg == reg && s.log == k.log
    }

    ghost predicate Valid()
      reads this, ctx, ctx.block, k
    {
      Abstracts(fd) && Inv(fd) && !fd.destroyed
    }

    constructor ()
      ensures Valid() && fd == FRESH
      ensures fresh(ctx) && fresh(k) && ctx.block == null
    {
      ctx := new Xfer();
      k := new Kernel();
      reg := Off;
      fd := FRESH;
      new;
    }

    /** `op` took the descriptor from `before` to its present state. */
    ghost predicate Stepped(before: Fd, op: Op)
      reads this
    {
      Enabled(before, op) && fd == Apply(before, op)
    }

    /** The verdict of what was executed at once is that of the kernel's answers; the kernel is
        not asked for what is only queued. */
    ghost predicate Answered(before: seq<Answer>, direct: bool, v: Verdict)
      reads k
    {
      if direct then before <= k.answers && Verdicts(k.answers[|before|..], v) else k.answers == before
    }

    /** A kernel that took all it was asked for finished a direct commit exactly if no record of it
        was empty data. */
    ghost predicate Finished(before: seq<Answer>, direct: bool, op: Op)
      requires op.Commit?
      reads k
    {
      direct && before <= k.answers && (forall x :: x in k.answers[|before|..] ==> Full(x)) ==>
        (op.v == Done <==> NoEmptyData(op.rs))
    }

    /** Takes the history past `op`, which the real state has already been through. */
    ghost method Record(op: Op)
      requires ctx.Valid() && Inv(fd) && Enabled(fd, op) && Abstracts(Apply(fd, op))
      modifies this`fd
      ensures Abstracts(fd) && Inv(fd) && Stepped(old(fd), op) && (fd.destroyed ==> op.Destroy?)
    {
      StepKeepsInv(fd, op);
      ApplyReal(fd, op);
      fd := Apply(fd, op);
    }

    /** Records were appended to a queue that was not empty. */
    ghost method RecordQueued(rs: seq<Record>) returns (op: Op)
      requires ctx.Valid() && Inv(fd) && !fd.destroyed && fd.pending != []
      requires ctx.Records() == fd.pending + rs && reg == fd.reg && k.log == fd.log
      modifies this`fd
      ensures Valid() && op.Commit? && op.rs == rs && Stepped(old(fd), op)
    {
      op := Op.Commit(rs, Done, [], fd.log);
      ApplyReal(fd, op);
      Record(op);
    }

    /** Records were executed at once on an empty queue. */
    ghost method RecordDirect(rs: seq<Record>, v: Verdict, rest: seq<Record>) returns (op: Op)
      requires ctx.Valid() && Inv(fd) && !fd.destroyed && fd.pending == []
      requires Executed(rs, fd.log, v, rest, k.log)
      requires ctx.Records() == (if v == Again then rest else []) && reg == (if v == Again then Armed else Off)
      modifies this`fd
      ensures Valid() && op == Op.Commit(rs, v, rest, k.log) && Stepped(old(fd), op)
    {
      op := Op.Commit(rs, v, rest, k.log);
      ApplyReal(fd, op);
      Record(op);
    }

    /** The pending queue was executed by the worker that held its event. */
    ghost method RecordEvent(v: Verdict, rest: seq<Record>, log: seq<Item>) returns (op: Op)
      requires ctx.Valid() && Inv(fd) && !fd.destroyed && fd.reg == InFlight
        && Executed(fd.pending, fd.log, v, rest, log)
      requires ctx.Records() == (if v == Again then rest else []) && reg == (if v == Again then Armed else Off)
      requires k.log == log + if v == Hard then Calls(Items(rest)) else []
      modifies this`fd
      ensures Valid() && op == Event(v, rest, log) && Stepped(old(fd), op)
    {
      op := Event(v, rest, log);
      Regroup(log, [], []);
      ApplyReal(fd, op);
      Record(op);
    }

    /** `add_fd` on the out port, which fails on a descriptor that is already registered. */
    method Watch()
      requires reg == Off
      modifies this`reg
      ensures reg == Armed
    {
      reg := Armed;
    }

    /** The port delivers the write event of an armed descriptor and disarms it. */
    method Fires() returns (ghost op: Op)
      requires Valid() && reg == Armed
      modifies this
      ensures Valid() && op == Fire && Stepped(old(fd), op)
    {
      op := Fire;
      reg := InFlight;
      Record(op);
    }

    /** `out::write_event`: the worker that holds the event continues the queue. */
    method WriteEvent() returns (ghost op: Op)
      requires Valid() && reg == InFlight
      modifies this, ctx, ctx.block, k
      ensures Valid() && op.Event? && Stepped(old(fd), op) && Answered(old(k.answers), true, op.v)
    {
      hide InOrder, Delivered, Executed, Moved, Items, Calls, Packed, Decode, Enabled, Apply;
      var cont := ctx.TryWrite(k);
      ghost var v, rest, log := VerdictOf(cont, 0, ctx.used), ctx.Records(), k.log;
      if !cont {
        reg := Off;
        ctx.Reset(k);
        NothingLeft(v, rest);
      } else {
        reg := Armed;
      }
      op := RecordEvent(v, rest, log);
    }

    /** `out::~out`, which destroys every entry: pending output is dropped and its finalizers run. */
    method Destroy() returns (ghost op: Op)
      requires Valid()
      modifies this, ctx, k
      ensures op == Op.Destroy && Stepped(old(fd), op) && Abstracts(fd) && Inv(fd)
      ensures ctx.block == null && reg == Off && k.answers == old(k.answers)
    {
      hide InOrder, Delivered, Executed, Moved, Items, Packed, Decode;
      op := Op.Destroy;
      ctx.Destroy(k);
      reg := Off;
      Record(op);
    }

    /** `out::commit_raw`: queues packed records behind pending ones, or executes them at once
        in the caller's buffer and queues what is left. */
    method CommitRaw(xfbuf: array<int>, xfend: nat) returns (ghost op: Op)
      requires Valid() && xfbuf != ctx.block && xfend <= xfbuf.Length && Packed(xfbuf[..xfend])
      modifies this, ctx, ctx.block, k, xfbuf
      ensures Valid() && op.Commit? && op.rs == old(Decode(xfbuf[..xfend])) && Stepped(old(fd), op)
      ensures Answered(old(k.answers), old(fd).pending == [], op.v)
      ensures Finished(old(k.answers), old(fd).pending == [], op)
    {
      hide InOrder, Delivered, Executed, Moved, Items, Calls, Packed, Decode, Enabled, Apply;
      ghost var rs := Decode(xfbuf[..xfend]);
      ctx.EmptyMeansNoRecords();
      if !ctx.Empty() {
        ctx.PushRaw(xfbuf, xfend);
        op := RecordQueued(rs);
        return;
      }
      assert xfbuf[0..xfend] == xfbuf[..xfend];
      var cont, end := Execute(k, xfbuf, 0, xfend);
      assert xfbuf[0..end] == xfbuf[..end];
      ghost var rest := Decode(xfbuf[..end]);
      if cont {
        ctx.PushRaw(xfbuf, end);
        Watch();
      }
      op := RecordDirect(rs, VerdictOf(cont, 0, end), rest);
    }

    /** `out::commit`: the same for the caller's growing buffer, whose records move to the
        queue, except that after an immediate hard error the rest stays with the caller. */
    method Commit(xf: Xfer) returns (ghost op: Op)
      requires Valid() && xf.Valid() && xf != ctx && (xf.block == null || xf.block != ctx.block)
      modifies this, ctx, ctx.block, k, xf, xf.block
      ensures Valid() && xf.Valid() && op.Commit? && op.rs == old(xf.Records()) && Stepped(old(fd), op)
      ensures Answered(old(k.answers), old(fd).pending == [], op.v)
      ensures Finished(old(k.answers), old(fd).pending == [], op)
      ensures xf.Records() == if old(fd).pending == [] && op.v == Hard then op.rest else []
    {
      hide InOrder, Delivered, Executed, Moved, Items, Calls, Packed, Decode, Enabled, Apply;
      ghost var rs := xf.Records();
      ctx.EmptyMeansNoRecords();
      if !ctx.Empty() {
        xf.Migrate(ctx);
        op := RecordQueued(rs);
        return;
      }
      var cont := xf.TryWrite(k);
      ghost var v, rest := VerdictOf(cont, 0, xf.used), xf.Records();
      if cont {
        xf.Migrate(ctx);
        Watch();
      }
      op := RecordDirect(rs, v, rest);
    }

    /** `out::write`: one buffer, written directly when nothing is pending. */
    method Write(buf: int, size: nat) returns (ghost op: Op)
      requires Valid()
      modifies this, ctx, ctx.block, k
      ensures Valid() && op.Commit? && op.rs == [Vec([Iovec(buf, size)])] && Stepped(old(fd), op)
      ensures Answered(old(k.answers), old(fd).pending == [], op.v)
      ensures Finished(old(k.answers), old(fd).pending == [], op)
    {
      if ctx.Empty() {
        op := WriteNow(buf, size);
      } else {
        ctx.PushWrite(buf, size);
        op := RecordQueued([Vec([Iovec(buf, size)])]);
      }
    }

    /** The direct write on an empty queue. */
    method WriteNow(buf: int, size: nat) returns (ghost op: Op)
      requires Valid() && ctx.Records() == []
      modifies this, ctx, ctx.block, k
      ensures Valid() && op.Commit? && op.rs == [Vec([Iovec(buf, size)])] && Stepped(old(fd), op)
      ensures Answered(old(k.answers), old(fd).pending == [], op.v)
      ensures Finished(old(k.answers), old(fd).pending == [], op)
    {
      hide InOrder, Delivered, Executed, Moved, Items, Calls, Packed, Decode, Enabled, Apply, Verdicts, NoEmptyData;
      ghost var rs, log, before := [Vec([Iovec(buf, size)])], k.log, k.answers;
      var wl, retry := k.Write(Range(buf, size));
      OneAnswer(before, k.answers, if wl >= 0 then Took(|Range(buf, size)|, wl) else if retry then Retry else Broken);
      OneBuffer(buf, size, wl, log, k.log);
      OneRecord(buf, size);
      var n := 0;
      if wl <= 0 {
        if wl == 0 || !retry {
          op := RecordDirect(rs, Hard, rs);
          return;
        }
      } else if wl >= size {
        op := RecordDirect(rs, Done, []);
        return;
      } else {
        n := wl;
      }
      ctx.PushWrite(buf + n, size - n);
      Watch();
      op := RecordDirect(rs, Again, [Vec([Iovec(buf + n, size - n)])]);
    }
  }

  lemma NothingLeft(v: Verdict, rest: seq<Record>)
    requires v == Done ==> rest == []
    ensures v == Done ==> Calls(Items(rest)) == []
  {
  }

  lemma RangeSize(base: int, len: nat)
    ensures |Range(base, len)| == len
  {
  }

  lemma OneVec(base: int, len: nat)
    ensures Items([Vec([Iovec(base, len)])]) == Range(base, len)
  {
    assert IovItems([Iovec(base, len)]) == Range(base, len) + [];
    ItemsCons(Vec([Iovec(base, len)]), []);
  }

  lemma OneAnswer(before: seq<Answer>, answers: seq<Answer>, a: Answer)
    requires answers == before + [a]
    ensures before <= answers && Verdicts(answers[|before|..], Judge(a))
    ensures (forall x :: x in answers[|before|..] ==> Full(x)) ==> Full(a)
  {
    assert answers[|before|..] == [a];
    assert a in answers[|before|..];
  }

  lemma OneRecord(base: int, len: nat)
    ensures NoEmptyData([Vec([Iovec(base, len)])]) <==> len > 0
  {
    OneVec(base, len);
    assert IovItems([Iovec(base, len)]) == Range(base, len) + [];
  }

  /** What a direct write of one buffer leaves to do. */
  lemma OneBuffer(buf: int, size: nat, wl: int, log: seq<Item>, log': seq<Item>)
    requires wl <= size && log' == log + Range(buf, size)[..if wl > 0 then wl else 0]
    ensures var rs := [Vec([Iovec(buf, size)])];
            && (wl <= 0 ==> forall v :: v != Done ==> Executed(rs, log, v, rs, log'))
            && (wl == size > 0 ==> Executed(rs, log, Done, [], log'))
            && (0 < wl < size ==> Executed(rs, log, Again, [Vec([Iovec(buf + wl, size - wl)])], log'))
  {
    hide Executed, Items, Range;
    var rs := [Vec([Iovec(buf, size)])];
    RangeSize(buf, size);
    if wl <= 0 {
      Regroup(log, [], []);
      NothingTaken(rs, log);
    } else {
      OneVec(buf, size);
      if wl == size {
        assert Range(buf, size)[..wl] == Range(buf, size);
        AllTaken(rs, log, log');
      } else {
        OneVec(buf + wl, size - wl);
        RangeSplits(buf, size, wl);
        PartTaken(rs, log, [Vec([Iovec(buf + wl, size - wl)])], log', Range(buf, size)[..wl]);
      }
    }
  }

  lemma NothingTaken(rs: seq<Record>, log: seq<Item>)
    requires rs != []
    ensures forall v :: v != Done ==> Executed(rs, log, v, rs, log)
  {
    assert log[|log|..] + Items(rs) == Items(rs);
  }

  lemma AllTaken(rs: seq<Record>, log: seq<Item>, log': seq<Item>)
    requires |rs| == 1 && Items(rs) != [] && log' == log + Items(rs)
    ensures Executed(rs, log, Done, [], log')
  {
    assert rs == [rs[0]] + [];
    ItemsCons(rs[0], []);
    assert log'[|log|..] + [] == Items(rs);
  }

  lemma PartTaken(rs: seq<Record>, log: seq<Item>, rs': seq<Record>, log': seq<Item>, sent: seq<Item>)
    requires rs' != [] && log' == log + sent && Items(rs) == sent + Items(rs')
    ensures Executed(rs, log, Again, rs', log')
  {
    assert log'[|log|..] == sent;
  }

  lemma RangeSplits(base: int, len: nat, n: nat)
    requires n <= len
    ensures Range(base, len) == Range(base, len)[..n] + Range(base + n, len - n)
  {
  }
}
