/** The entry points of `core` that write with a finalizer: each packs its records on the stack
    and commits them raw. */
module OutCore {
  import opened XferRecords
  import opened XferEngine
  import opened OutQueue
  import opened OutFd

  /** Two records packed one behind the other. */
  lemma DecodeTwo(a: array<int>, p: nat, q: nat, rs: seq<Record>, r: Record)
    requires p <= q <= a.Length && Packed(a[..p]) && Decode(a[..p]) == rs && Packed(a[p..q]) && Decode(a[p..q]) == [r]
    ensures Packed(a[..q]) && Decode(a[..q]) == rs + [r]
  {
    DecodeAppend(a[..p], a[p..q]);
    assert a[..q] == a[..p] + a[p..q];
  }

  /** Appends the finalizer that ends every such buffer, and fills it exactly. */
  method EndWith(a: array<int>, p: nat, fn: int, user: int) returns (end: nat)
    requires p + SIZEOF_FINALIZE == a.Length && Packed(a[..p])
    modifies a
    ensures end == a.Length && Packed(a[..end]) && Decode(a[..end]) == old(Decode(a[..p])) + [Fin(fn, user)]
  {
    ghost var s := a[..p];
    end := FillFinalize(a, p, fn, user);
    assert a[..p] == s;
    DecodeTwo(a, p, end, Decode(s), Fin(fn, user));
  }

  /** Appends a sendfile record. */
  method ThenSendfile(a: array<int>, p: nat, infd: int, off: int, size: nat) returns (q: nat)
    requires p + SIZEOF_SENDFILE <= a.Length && Packed(a[..p])
    modifies a
    ensures q == p + SIZEOF_SENDFILE && Packed(a[..q])
    ensures Decode(a[..q]) == old(Decode(a[..p])) + [Send(infd, off, size)]
  {
    ghost var s := a[..p];
    q := FillSendfile(a, p, infd, off, size);
    assert a[..p] == s;
    DecodeTwo(a, p, q, Decode(s), Send(infd, off, size));
  }

  method Write(c: FdCtx, buf: int, size: nat, fn: int, user: int) returns (ghost op: Op)
    requires c.Valid()
    modifies c, c.ctx, c.ctx.block, c.k
    ensures c.Valid() && op.Commit? && op.rs == [Vec([Iovec(buf, size)]), Fin(fn, user)] && c.Stepped(old(c.fd), op)
    ensures c.Answered(old(c.k.answers), old(c.fd).pending == [], op.v)
    ensures c.Finished(old(c.k.answers), old(c.fd).pending == [], op)
  {
    hide Packed, Decode, Inv, Enabled, Apply, Executed, RecordItems, Items;
    var xfbuf := new int[RecordSize(2) + SIZEOF_FINALIZE];
    var p := FillMem(xfbuf, 0, buf, size);
    p := EndWith(xfbuf, p, fn, user);
    op := c.CommitRaw(xfbuf, p);
  }

  method Writev(c: FdCtx, vec: seq<Iovec>, fn: int, user: int) returns (ghost op: Op)
    requires c.Valid()
    modifies c, c.ctx, c.ctx.block, c.k
    ensures c.Valid() && op.Commit? && op.rs == [Vec(vec), Fin(fn, user)] && c.Stepped(old(c.fd), op)
    ensures c.Answered(old(c.k.answers), old(c.fd).pending == [], op.v)
    ensures c.Finished(old(c.k.answers), old(c.fd).pending == [], op)
  {
    hide Packed, Decode, Inv, Enabled, Apply, Executed, RecordItems, Items;
    var xfbuf := new int[RecordSize(2 * |vec|) + SIZEOF_FINALIZE];
    var p := FillIovec(xfbuf, 0, vec);
    p := EndWith(xfbuf, p, fn, user);
    op := c.CommitRaw(xfbuf, p);
  }

  method Sendfile(c: FdCtx, infd: int, off: int, size: nat, fn: int, user: int) returns (ghost op: Op)
    requires c.Valid()
    modifies c, c.ctx, c.ctx.block, c.k
    ensures c.Valid() && op.Commit? && op.rs == [Send(infd, off, size), Fin(fn, user)] && c.Stepped(old(c.fd), op)
    ensures c.Answered(old(c.k.answers), old(c.fd).pending == [], op.v)
    ensures c.Finished(old(c.k.answers), old(c.fd).pending == [], op)
  {
    hide Packed, Decode, Inv, Enabled, Apply, Executed, RecordItems, Items;
    var xfbuf := new int[SIZEOF_SENDFILE + SIZEOF_FINALIZE];
    var p := FillSendfile(xfbuf, 0, infd, off, size);
    p := EndWith(xfbuf, p, fn, user);
    op := c.CommitRaw(xfbuf, p);
  }

  /** `hsendfile` is the case of one header. */
  method HvSendfile(c: FdCtx, header: seq<Iovec>, infd: int, off: int, size: nat, fn: int, user: int)
    returns (ghost op: Op)
    requires c.Valid()
    modifies c, c.ctx, c.ctx.block, c.k
    ensures c.Valid() && op.Commit? && c.Stepped(old(c.fd), op)
    ensures c.Answered(old(c.k.answers), old(c.fd).pending == [], op.v)
    ensures c.Finished(old(c.k.answers), old(c.fd).pending == [], op)
    ensures op.rs == [Vec(header), Send(infd, off, size), Fin(fn, user)]
  {
    hide Packed, Decode, Inv, Enabled, Apply, Executed, RecordItems, Items;
    var xfbuf := new int[RecordSize(2 * |header|) + SIZEOF_SENDFILE + SIZEOF_FINALIZE];
    var p := FillIovec(xfbuf, 0, header);
    p := ThenSendfile(xfbuf, p, infd, off, size);
    p := EndWith(xfbuf, p, fn, user);
    op := c.CommitRaw(xfbuf, p);
  }
}
