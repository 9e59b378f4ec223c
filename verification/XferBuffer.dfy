/** `core::xfer`: a growing buffer of packed records. */
module XferBuffer {
  import opened Common
  import opened XferRecords
  import opened XferEngine

  /** The block runs from m_head; `used` is `m_tail - m_head` and `free` is m_free. */
  class Xfer {
    var block: array?<int>
    var used: nat
    var free: nat

    ghost predicate Valid()
      reads this, block
    {
      if block == null then used == 0 && free == 0
      else used + free == block.Length && Packed(block[..used])
    }

    ghost function Records(): seq<Record>
      requires Valid()
      reads this, block
    {
      if block == null then [] else Decode(block[..used])
    }

    constructor ()
      ensures Valid() && Records() == [] && block == null
    {
      block, used, free := null, 0, 0;
    }

    predicate Empty()
      reads this
    {
      used == 0
    }

    lemma EmptyMeansNoRecords()
      requires Valid()
      ensures Empty() <==> Records() == []
    {
    }

    /** Makes room for `reqsz` more slots by doubling, keeping what is there. */
    method Reserve(reqsz: nat)
      requires Valid()
      modifies this
      ensures Valid() && Records() == old(Records())
      ensures free >= reqsz && block != null && fresh(block) && used == old(used)
      ensures Grown(block.Length, 2 * old(used + free) + 18, old(used) + reqsz)
    {
      var nsize := Doubled((used + free) * 2 + 18, used + reqsz);
      var tmp := new int[nsize];
      if block != null {
        MemCopy(tmp, 0, block, 0, used);
        assert tmp[..used] == tmp[0..0 + used] == block[..used];
      } else {
        assert tmp[..used] == [];
      }
      block := tmp;
      free := nsize - used;
    }

    /** The records that were filled in behind the used part become part of it. */
    ghost predicate Appended(before: seq<int>, rs: seq<Record>, from: nat)
      reads this, block
    {
      && block != null && from <= used <= block.Length
      && block[..from] == before && Packed(block[from..used]) && Decode(block[from..used]) == rs
    }

    lemma AppendedDecodes(before: seq<int>, rs: seq<Record>, from: nat)
      requires Appended(before, rs, from) && Packed(before)
      ensures Packed(block[..used]) && Decode(block[..used]) == Decode(before) + rs
    {
      DecodeAppend(block[..from], block[from..used]);
      assert block[..used] == block[..from] + block[from..used];
    }

    /** The part of the block in use. */
    ghost function Slots(): seq<int>
      requires Valid()
      reads this, block
    {
      if block == null then [] else block[..used]
    }

    method PushWrite(base: int, size: nat)
      requires Valid()
      modifies this, block
      ensures Valid() && Records() == old(Records()) + [Vec([Iovec(base, size)])]
      ensures block == old(block) || fresh(block)
      ensures old(free) >= RecordSize(2) ==> block == old(block)
    {
      if free < RecordSize(2) { Reserve(RecordSize(2)); }
      ghost var before, from := Slots(), used;
      var tail := FillMem(block, used, base, size);
      used, free := tail, free - RecordSize(2);
      AppendedDecodes(before, [Vec([Iovec(base, size)])], from);
    }

    method PushWritev(vec: seq<Iovec>)
      requires Valid()
      modifies this, block
      ensures Valid() && Records() == old(Records()) + [Vec(vec)]
      ensures block == old(block) || fresh(block)
      ensures old(free) >= RecordSize(2 * |vec|) ==> block == old(block)
    {
      var sz := RecordSize(2 * |vec|);
      if free < sz { Reserve(sz); }
      ghost var before, from := Slots(), used;
      var tail := FillIovec(block, used, vec);
      used, free := tail, free - sz;
      AppendedDecodes(before, [Vec(vec)], from);
    }

    method PushSendfile(infd: int, off: int, len: nat)
      requires Valid()
      modifies this, block
      ensures Valid() && Records() == old(Records()) + [Send(infd, off, len)]
      ensures block == old(block) || fresh(block)
      ensures old(free) >= SIZEOF_SENDFILE ==> block == old(block)
    {
      if free < SIZEOF_SENDFILE { Reserve(SIZEOF_SENDFILE); }
      ghost var before, from := Slots(), used;
      var tail := FillSendfile(block, used, infd, off, len);
      used, free := tail, free - SIZEOF_SENDFILE;
      AppendedDecodes(before, [Send(infd, off, len)], from);
    }

    method PushFinalize(fn: int, user: int)
      requires Valid()
      modifies this, block
      ensures Valid() && Records() == old(Records()) + [Fin(fn, user)]
      ensures block == old(block) || fresh(block)
      ensures old(free) >= SIZEOF_FINALIZE ==> block == old(block)
    {
      if free < SIZEOF_FINALIZE { Reserve(SIZEOF_FINALIZE); }
      ghost var before, from := Slots(), used;
      var tail := FillFinalize(block, used, fn, user);
      used, free := tail, free - SIZEOF_FINALIZE;
      AppendedDecodes(before, [Fin(fn, user)], from);
    }

    /** Appends `size` slots of packed records from the start of another buffer. */
    method PushRaw(buf: array<int>, size: nat)
      requires Valid() && buf != block && size <= buf.Length && Packed(buf[..size])
      modifies this, block
      ensures Valid() && Records() == old(Records()) + old(Decode(buf[..size]))
      ensures block == old(block) || fresh(block)
      ensures old(free) >= size ==> block == old(block)
    {
      if free < size { Reserve(size); }
      if block != null {
        // otherwise a memcpy of nothing
        AppendRaw(buf, size);
      }
    }

    method AppendRaw(buf: array<int>, size: nat)
      requires Valid() && block != null && buf != block && size <= buf.Length && size <= free && Packed(buf[..size])
      modifies this, block
      ensures Valid() && Records() == old(Records()) + old(Decode(buf[..size]))
      ensures block == old(block)
    {
      ghost var before, from, rs := Slots(), used, Decode(buf[..size]);
      MemCopy(block, used, buf, 0, size);
      assert block[from..from + size] == buf[..size];
      used, free := used + size, free - size;
      AppendedDecodes(before, rs, from);
    }

    /** Moves all records to the end of `to` and leaves this buffer empty: by handing over the
        block when `to` has none, by copying otherwise. */
    method Migrate(to: Xfer)
      requires Valid() && to.Valid() && to != this && (block == null || block != to.block)
      modifies this, block, to, to.block
      ensures Valid() && to.Valid()
      ensures to.Records() == old(to.Records()) + old(Records()) && Records() == []
      ensures block == null || block != to.block
      ensures to.block == old(to.block) || to.block == old(block) || fresh(to.block)
      ensures block == null || block == old(block)
    {
      if to.block == null {
        to.block, to.used, to.free := block, used, free;
        block, used, free := null, 0, 0;
        return;
      }
      if block == null {
        // memcpy of nothing
        return;
      }
      var reqsz := used;
      to.PushRaw(block, reqsz);
      free := free + reqsz;
      used := 0;
      assert block[..used] == [];
    }

    /** Drops all records, running their finalizers in order. */
    method Reset(k: Kernel)
      requires Valid()
      modifies this, k
      ensures Valid() && Records() == [] && block == old(block)
      ensures k.log == old(k.log) + Calls(Items(old(Records())))
      ensures k.answers == old(k.answers)
    {
      if block != null {
        RunFinalizers(k, block, used);
        assert block[..0] == [];
      }
      free := free + used;
      used := 0;
    }

    /** The destructor: resets and frees the block. */
    method Destroy(k: Kernel)
      requires Valid()
      modifies this, k
      ensures Valid() && Records() == [] && block == null
      ensures k.log == old(k.log) + Calls(Items(old(Records())))
      ensures k.answers == old(k.answers)
    {
      if block != null {
        Reset(k);
        block, used, free := null, 0, 0;
      }
    }

    /** Executes the buffer in place; `m_free` takes over what became unused. */
    method TryWrite(k: Kernel) returns (cont: bool)
      requires Valid()
      modifies this, block, k
      ensures Valid() && block == old(block)
      ensures cont ==> !Empty()
      ensures old(k.answers) <= k.answers
      ensures Verdicts(k.answers[|old(k.answers)|..], VerdictOf(cont, 0, used))
      ensures Executed(old(Records()), old(k.log), VerdictOf(cont, 0, used), Records(), k.log)
      ensures (forall x :: x in k.answers[|old(k.answers)|..] ==> Full(x)) ==>
                (VerdictOf(cont, 0, used) == Done <==> NoEmptyData(old(Records())))
    {
      if block == null {
        return false;
      }
      assert block[0..used] == block[..used];
      var allocEnd := used + free;
      var tail;
      cont, tail := Execute(k, block, 0, used);
      assert block[0..tail] == block[..tail];
      used, free := tail, allocEnd - tail;
    }
  }

  lemma CallsOfData(s: seq<Item>)
    requires forall i :: 0 <= i < |s| ==> !s[i].Finalized?
    ensures Calls(s) == []
  {
  }

  lemma {:induction false} IovHasNoCalls(v: seq<Iovec>)
    ensures forall i :: 0 <= i < |IovItems(v)| ==> !IovItems(v)[i].Finalized?
  {
    if v != [] {
      IovHasNoCalls(v[1..]);
    }
  }

  /** The finalizer calls of one record more. */
  lemma CallsOfRecord(r: Record, rest: seq<Record>)
    ensures Calls(Items([r] + rest)) == (if r.Fin? then RecordItems(r) else []) + Calls(Items(rest))
  {
    ItemsCons(r, rest);
    CallsAppend(RecordItems(r), Items(rest));
    match r {
      case Vec(iov) =>
        IovHasNoCalls(iov);
        CallsOfData(RecordItems(r));
      case Send(_, _, _) =>
        CallsOfData(RecordItems(r));
      case Fin(fn, user) =>
    }
  }

  ghost function PendingCalls(s: seq<int>): seq<Item>
    requires Packed(s)
  {
    Calls(Items(Decode(s)))
  }

  lemma NoPendingCalls(s: seq<int>)
    requires s == []
    ensures Packed(s) && PendingCalls(s) == []
  {
  }

  /** One turn of the loop of `reset`. */
  method RunFinalizer(k: Kernel, a: array<int>, p: nat, tail: nat) returns (next: nat)
    requires p < tail <= a.Length && Packed(a[p..tail])
    modifies k
    ensures p < next <= tail && Packed(a[next..tail])
    ensures k.log + PendingCalls(a[next..tail]) == old(k.log) + PendingCalls(a[p..tail])
    ensures k.answers == old(k.answers)
  {
    ghost var s, log := a[p..tail], k.log;
    next := p + RecordSize(a[p]);
    assert a[next..tail] == s[RecordSize(s[0])..];
    CallsOfRecord(DecodeHead(s), Decode(a[next..tail]));
    ghost var r := if a[p] == XF_FINALIZE then RecordItems(Fin(a[p + 1], a[p + 3])) else [];
    assert PendingCalls(s) == r + PendingCalls(a[next..tail]);
    hide PendingCalls, Packed;
    Regroup(log, r, PendingCalls(a[next..tail]));
    if a[p] == XF_FINALIZE {
      k.Finalize(a[p + 1], a[p + 3]);
    }
  }

  lemma Regroup(a: seq<Item>, b: seq<Item>, c: seq<Item>)
    ensures (a + b) + c == a + (b + c)
    ensures a + [] == a
  {
  }

  /** The loop of `reset`: walks the records and runs the finalizers. */
  method RunFinalizers(k: Kernel, a: array<int>, tail: nat)
    requires tail <= a.Length && Packed(a[..tail])
    modifies k
    ensures k.log == old(k.log) + PendingCalls(a[..tail])
    ensures k.answers == old(k.answers)
  {
    hide Packed, PendingCalls;
    var p := 0;
    ghost var all := PendingCalls(a[..tail]);
    assert a[0..tail] == a[..tail];
    while p < tail
      invariant 0 <= p <= tail && Packed(a[p..tail])
      invariant k.log + PendingCalls(a[p..tail]) == old(k.log) + all
      invariant k.answers == old(k.answers)
    {
      p := RunFinalizer(k, a, p, tail);
    }
    NoPendingCalls(a[p..tail]);
  }
}
