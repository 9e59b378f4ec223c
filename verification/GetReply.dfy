/** How the reply to get and gets is handed to the output engine, and what becomes of it there. */
module GetReply {
  import opened Common
  import opened XferRecords
  import opened XferEngine
  import opened XferBuffer
  import opened OutQueue
  import opened OutFd
  import OutCore
  import opened OutBytes
  import M = MultiGet

  /** Where the pieces of a reply are in memory: the header buffer and the constant text. */
  datatype Layout = Layout(header: int, text: int)

  function Address(v: M.Iovec, at: Layout): Iovec {
    match v
    case InHeader(from, len) => Iovec(at.header + from, len)
    case Value(block, len) => Iovec(block.address, len)
    case Static(text) => Iovec(at.text, |text|)
  }

  function Addresses(vec: seq<M.Iovec>, at: Layout): (r: seq<Iovec>)
    ensures |r| == |vec|
  {
    seq(|vec|, i requires 0 <= i < |vec| => Address(vec[i], at))
  }

  /** The records a reply is committed as; `fn` and `user` are the finalizer: the carry's for many
      keys, the one that frees the header for a single one. */
  function RecordsOf(reply: M.Reply, at: Layout, fn: int, user: int): seq<Record> {
    match reply
    case Text(text) => [Vec([Iovec(at.text, |text|)])]
    case Writev(vec, _, _) => [Vec(Addresses(vec, at)), Fin(fn, user)]
  }

  lemma CallsOfReply(reply: M.Reply, at: Layout, fn: int, user: int)
    ensures Calls(Items(RecordsOf(reply, at, fn, user))) ==
            if reply.Writev? && fn != 0 then [Finalized(fn, user)] else []
  {
    var rs := RecordsOf(reply, at, fn, user);
    match reply
    case Text(_) =>
      assert rs == [rs[0]] + [];
      CallsOfRecord(rs[0], []);
    case Writev(_, _, _) =>
      assert rs == [rs[0]] + [rs[1]] && [rs[1]] == [rs[1]] + [];
      CallsOfRecord(rs[0], [rs[1]]);
      CallsOfRecord(rs[1], []);
  }

  /** `core::writev` with the finalizer that takes over the reply, or `core::write` of a constant. */
  method Respond(c: FdCtx, reply: M.Reply, at: Layout, fn: int, user: int) returns (ghost op: Op)
    requires c.Valid()
    modifies c, c.ctx, c.ctx.block, c.k
    ensures c.Valid() && op.Commit? && op.rs == RecordsOf(reply, at, fn, user) && c.Stepped(old(c.fd), op)
    // a constant is nobody's to free, anything else is its finalizer's
    ensures reply.Text? ==> |op.rs| == 1 && !op.rs[0].Fin?
    ensures Calls(Items(op.rs)) == if reply.Writev? && fn != 0 then [Finalized(fn, user)] else []
  {
    CallsOfReply(reply, at, fn, user);
    hide Calls, Items;
    match reply
    case Text(text) => op := c.Write(at.text, |text|);
    case Writev(vec, _, _) => op := OutCore.Writev(c, Addresses(vec, at), fn, user);
  }

  /** A whole request: what is committed stands for the protocol's response, or for the reply to
      the library's error, and the finalizer behind it frees exactly `freed`. */
  method HandleGet(c: FdCtx, keys: seq<string>, slot: M.Slot, err: Option<M.Err>, mget: Option<M.Err>,
                   answers: seq<M.Answer>, gets: bool, at: Layout, fn: int, user: int)
    returns (reply: M.Reply, ghost freed: seq<M.Block>, ghost op: Op)
    requires c.Valid()
    requires |keys| == |answers| && M.Fits(slot) && forall a :: a in answers ==> M.Sane(a)
    modifies c, c.ctx, c.ctx.block, c.k
    ensures c.Valid() && op.Commit? && op.rs == RecordsOf(reply, at, fn, user) && c.Stepped(old(c.fd), op)
    ensures reply.Writev? ==> M.Within(reply.vec, |reply.header|) && reply.frees == freed
    ensures |keys| == 1 && (err.None? || err == Some(M.NotFound)) ==>
              M.Sent(reply) == M.Response(keys, [slot], gets) && freed == []
    ensures |keys| == 1 && err.Some? && err != Some(M.NotFound) ==>
              reply == M.Text(M.ErrorText(err.value)) && freed == []
    ensures |keys| != 1 ==> M.Replies(keys, mget, answers, gets, reply)
    ensures |keys| != 1 ==>
              freed == if |keys| <= 1024 && mget.None? then M.Frees(M.Vals(M.FetchedSlots(answers))) else []
    ensures reply.Text? ==> |op.rs| == 1 && !op.rs[0].Fin?
    ensures Calls(Items(op.rs)) == if reply.Writev? && fn != 0 then [Finalized(fn, user)] else []
  {
    hide M.Response, M.Sent, M.Within, M.Frees, M.Vals, M.FetchedSlots, M.ErrorText, M.Replies, RecordsOf, Calls, Items;
    reply, freed := M.Get(keys, slot, err, mget, answers, gets);
    op := Respond(c, reply, at, fn, user);
  }

  // ----- the bytes

  /** The pieces of a reply are in memory, where its values are owned by its finalizer. */
  ghost predicate InMemory(w: World, reply: M.Reply, at: Layout) {
    match reply
    case Text(text) => Holds(w, at.text, text)
    case Writev(vec, header, _) =>
      && Holds(w, at.header, header) && Holds(w, at.text, M.END_TEXT)
      && forall v :: v in vec && v.Value? ==> Holds(w, v.block.address, v.block.bytes)
  }

  lemma OneIov(v: Iovec)
    ensures IovItems([v]) == Range(v.base, v.len)
  {
    assert [v][1..] == [];
  }

  /** One piece in memory is what the iovec stands for. */
  lemma LoadPiece(w: World, v: M.Iovec, header: string, at: Layout)
    requires M.InPlace(v, |header|) && Holds(w, at.header, header) && Holds(w, at.text, M.END_TEXT)
    requires v.Value? ==> Holds(w, v.block.address, v.block.bytes)
    ensures Load(w, Range(Address(v, at).base, Address(v, at).len)) == M.Contents(v, header)
  {
    hide Load, Range;
    match v
    case InHeader(from, len) =>
      HoldsPart(w, at.header, header, from, len);
      LoadRange(w, at.header + from, header[from..from + len]);
    case Value(block, len) => LoadRange(w, block.address, block.bytes);
    case Static(text) => LoadRange(w, at.text, text);
  }

  lemma {:induction false} LoadVec(w: World, vec: seq<M.Iovec>, header: string, at: Layout)
    requires M.Within(vec, |header|) && Holds(w, at.header, header) && Holds(w, at.text, M.END_TEXT)
    requires forall v :: v in vec && v.Value? ==> Holds(w, v.block.address, v.block.bytes)
    ensures Load(w, IovItems(Addresses(vec, at))) == M.Gather(vec, header)
    decreases |vec|
  {
    hide Holds, M.InPlace, M.Contents, Address;
    if vec != [] {
      var front, v := vec[..|vec| - 1], vec[|vec| - 1];
      assert v in vec && forall w :: w in front ==> w in vec;
      LoadVec(w, front, header, at);
      LoadPiece(w, v, header, at);
      assert Addresses(vec, at) == Addresses(front, at) + [Address(v, at)];
      IovAppend(Addresses(front, at), [Address(v, at)]);
      OneIov(Address(v, at));
      LoadAppend(w, IovItems(Addresses(front, at)), Range(Address(v, at).base, Address(v, at).len));
    }
  }

  /** The bytes committed for a reply are the reply. */
  lemma BytesAreTheReply(w: World, reply: M.Reply, at: Layout, fn: int, user: int)
    requires InMemory(w, reply, at) && (reply.Writev? ==> M.Within(reply.vec, |reply.header|))
    ensures Load(w, RecordItems(RecordsOf(reply, at, fn, user)[0])) == M.Sent(reply)
  {
    hide Load, Holds, Range, M.Gather, M.Within;
    match reply
    case Text(text) =>
      OneIov(Iovec(at.text, |text|));
      LoadRange(w, at.text, text);
    case Writev(vec, header, _) => LoadVec(w, vec, header, at);
  }

  /** What the carry of a reply frees runs with its finalizer: over a run in which the reply was
      committed, once the queue is drained or destroyed, exactly once for this commit, unless the
      commit met a hard error at once and left it behind. */
  lemma ValuesFreedOnce(before: seq<Op>, op: Op, after: seq<Op>, reply: M.Reply, at: Layout, fn: int, user: int)
    returns (later: seq<Item>)
    requires reply.Writev? && fn != 0 && op.Commit? && op.rs == RecordsOf(reply, at, fn, user)
    requires Runs(FRESH, before) && Enabled(After(FRESH, before), op) && Runs(Apply(After(FRESH, before), op), after)
    ensures var s0 := After(FRESH, before);
            var s := After(Apply(s0, op), after);
            && LostBy(s0, op) <= 1
            && (LostBy(s0, op) == 1 ==> s0.pending == [] && op.v == Hard)
            && (s.pending == [] ==>
                  Calls(s.log)
                  == Calls(s0.Accepted()) + (if LostBy(s0, op) == 0 then [Finalized(fn, user)] else []) + later)
  {
    hide Apply, Enabled, Runs, After;
    later := FinalizerRunsOnce(before, op, after, fn, user);
  }
}
