/** `gate_memtext`: the text protocol's handler, which joins the stream buffer and the parser. */
module MemtextGate {
  import opened Common
  import opened StreamBuffer
  import opened MemtextParser
  import opened MemtextStream
  import opened MemtextRoundTrip
  import opened MemtextGrammar

  const INITIAL_ALLOCATION_SIZE: nat := 32 * 1024
  const RESERVE_SIZE: nat := 4 * 1024
  const BUFFER_INITIAL_SIZE: nat := 8 * 1024  // the default of reserve_buffer

  lemma ReadSnoc(r: Reader, data: string, off: nat, p: nat)
    requires Formed(r) && off <= p < |data|
    ensures var r1 := After(r, data[off..p]);
            && After(r, data[off..p + 1]) == Read(r1, data[p]).0
            && Out(r, data[off..p + 1]) == Out(r, data[off..p]) + Read(r1, data[p]).1
  {
    hide Read;
    assert data[off..p + 1] == data[off..p] + [data[p]];
    ReadConcat(r, data[off..p], [data[p]]);
    OneChar(After(r, data[off..p]), data[p]);
  }

  /** How `memtext_execute` ends: it returns, or a mark was written outside its array and nothing
      is known of what it does. */
  datatype Outcome = Returned(ret: int) | Undefined

  function OutcomeOf(cs: State, moved: bool): Outcome {
    match cs
    case Outside => Undefined
    case Error => Returned(-1)
    case Final => Returned(if moved then 1 else 0)
    case _ => Returned(0)
  }

  /** `memtext_execute`: runs the machine from `off` to the end of the data, or to an error.  It
      delivers what the reader `r` of the stream does, and stays in agreement with it. */
  method Execute(ctx: Context, data: string, off: nat, ghost r: Reader)
    returns (o: Outcome, ctx': Context, off': nat, out: seq<Request>)
    requires off <= |data| < U32 && Agree(ctx, data, off, r) && !Stuck(r.cs)
    ensures out == Out(r, data[off..])
    ensures o == OutcomeOf(After(r, data[off..]).cs, off < |data|)
    ensures !Stuck(After(r, data[off..]).cs) ==> off' == |data| && Agree(ctx', data, off', After(r, data[off..]))
  {
    hide Agree, Read, Step;
    ctx', off', out := ctx, off, [];
    SameState(ctx, data, off, r);
    if |data| <= off {
      assert data[off..] == "";
      return Returned(0), ctx', off', out;
    }
    assert data[off..off] == "";
    while off' < |data|
      invariant off <= off' <= |data|
      invariant Agree(ctx', data, off', After(r, data[off..off']))
      invariant ctx'.cs == After(r, data[off..off']).cs && !Stuck(ctx'.cs)
      invariant out == Out(r, data[off..off'])
    {
      ReadSnoc(r, data, off, off');
      OneStepAgrees(ctx', data, off', After(r, data[off..off']));
      SameState(ctx', data, off', After(r, data[off..off']));
      var (next, reqs) := Step(ctx', data, off');
      ctx', out := next, out + reqs;
      SameState(ctx', data, off' + 1, After(r, data[off..off' + 1]));
      if Stuck(ctx'.cs) {
        StopsHere(r, data, off, off' + 1);
        return OutcomeOf(ctx'.cs, true), ctx', off', out;
      }
      off' := off' + 1;
    }
    assert data[off..off'] == data[off..];
    o := OutcomeOf(ctx'.cs, true);
  }

  /** Nothing is delivered behind an error. */
  lemma StopsHere(r: Reader, data: string, off: nat, p: nat)
    requires Formed(r) && off <= p <= |data| && Stuck(After(r, data[off..p]).cs)
    ensures After(r, data[off..]).cs == After(r, data[off..p]).cs && Out(r, data[off..]) == Out(r, data[off..p])
  {
    hide Read, After, Out;
    assert data[off..] == data[off..p] + data[p..];
    ReadConcat(r, data[off..p], data[p..]);
    ErrorStays(After(r, data[off..p]), data[p..]);
  }

  /** What becomes of a connection. */
  datatype Life = Alive | Ended | Unknown

  function LifeAt(cs: State): Life {
    if cs == Outside then Unknown else if cs == Error then Ended else Alive
  }

  /** The buffer behind a read event that left `taken` taken and `data` to be parsed: empty behind
      the end of a command, and untouched behind the beginning of one. */
  ghost predicate Leaves(b: StreamBuffer<char>, taken: string, data: string)
    requires b.Bounds() && Formed(NEW_READER)
    reads b, b.block
  {
    if After(NEW_READER, b.received).cs == Final then b.Data() == "" && b.taken == b.received
    else b.Data() == data && b.taken == taken
  }

  /** No command ends behind the first `n` characters of a stream. */
  ghost predicate NoneEnds(s: string, n: nat)
    requires Formed(NEW_READER)
  {
    forall k | n < k <= |s| :: After(NEW_READER, s[..k]).cs != Final
  }

  lemma EndsInParts(s: string, t: string, n: nat)
    requires Formed(NEW_READER) && n <= |s|
    ensures NoneEnds(s + t, n) <==> NoneEnds(s, n) && NoneEnds(s + t, |s|)
    ensures After(NEW_READER, s).cs == Final && n < |s| ==> !NoneEnds(s, n)
    ensures NoneEnds(s, |s|)
  {
    hide After;
    assert s[..|s|] == s;
    forall k | n < k <= |s| ensures (s + t)[..k] == s[..k] {
    }
    if NoneEnds(s, n) && NoneEnds(s + t, |s|) {
      forall k | n < k <= |s + t| ensures After(NEW_READER, (s + t)[..k]).cs != Final {
        if k <= |s| {
          assert After(NEW_READER, s[..k]).cs != Final;
        }
      }
    }
    if NoneEnds(s + t, n) {
      forall k | n < k <= |s| ensures After(NEW_READER, s[..k]).cs != Final {
        assert After(NEW_READER, (s + t)[..k]).cs != Final;
      }
    }
  }

  class Handler {
    const m_buffer: StreamBuffer<char>
    var m_parser: Context
    var m_off: nat
    var delivered: seq<Request>  // the calls of the request callbacks

    /** The parser has read all the data, and is where one reader of the whole stream would be.
        The bytes taken from the buffer are whole commands, and nothing is left behind a command
        that ends what was received. */
    ghost predicate Valid()
      reads this, m_buffer, m_buffer.block
    {
      && m_buffer.Valid() && m_off == |m_buffer.Data()|
      && Formed(NEW_READER)
      && Agree(m_parser, m_buffer.Data(), m_off, After(NEW_READER, m_buffer.received))
      && !Stuck(After(NEW_READER, m_buffer.received).cs)
      && delivered == Out(NEW_READER, m_buffer.received)
      && (m_buffer.taken == "" || After(NEW_READER, m_buffer.taken).cs == Final)
      && (After(NEW_READER, m_buffer.received).cs == Final ==> m_buffer.Data() == "")
    }

    constructor ()
      ensures Valid() && fresh(m_buffer) && fresh(m_buffer.block) && m_buffer.received == [] && delivered == []
    {
      m_buffer := new StreamBuffer<char>(INITIAL_ALLOCATION_SIZE);
      m_parser := INIT;
      m_off := 0;
      delivered := [];
      new;
      NewReaderFormed();
      InitAgrees();
    }

    /** `read_event`: reads what there is room for and runs the parser.  `kernel` is what a read
        of unlimited size would give. */
    method ReadEvent(kernel: Received<char>) returns (life: Life, n: nat)
      requires Valid()
      requires kernel.Got? ==> |m_buffer.Data()| + |kernel.bytes| < U32
      modifies this, m_buffer, m_buffer.block
      ensures m_buffer.Valid() && n <= if kernel.Got? then |kernel.bytes| else 0
      ensures m_buffer.received == old(m_buffer.received) + if kernel.Got? then kernel.bytes[..n] else []
      ensures kernel.Got? ==> n >= if |kernel.bytes| < RESERVE_SIZE then |kernel.bytes| else RESERVE_SIZE
      ensures m_buffer.block == old(m_buffer.block) || fresh(m_buffer.block)
      // a command that ends what was received empties the buffer; otherwise everything is kept
      ensures life == Alive && n > 0 ==>
                Leaves(m_buffer, old(m_buffer.taken), old(m_buffer.Data()) + kernel.bytes[..n])
      // so whole commands stay in it exactly behind an unfinished one, and those before it in one read
      ensures life == Alive && n > 0 ==>
                (NoneEnds(m_buffer.received, |m_buffer.taken|) <==>
                 || After(NEW_READER, m_buffer.received).cs == Final
                 || (old(NoneEnds(m_buffer.received, |m_buffer.taken|))
                     && NoneEnds(m_buffer.received, |old(m_buffer.received)|)))
      ensures Formed(NEW_READER) && delivered == Out(NEW_READER, m_buffer.received)
      ensures life == Alive ==> Valid()
      ensures life == if kernel.Again? then Alive
                      else if kernel.Got? && n > 0 then LifeAt(After(NEW_READER, m_buffer.received).cs)
                      else Ended
    {
      hide Agree, After, Out, Read, NoneEnds, Grown;
      m_buffer.ReserveBuffer(RESERVE_SIZE, BUFFER_INITIAL_SIZE);
      n := 0;
      if !kernel.Got? || kernel.bytes == [] {
        return if kernel.Again? then Alive else Ended, 0;
      }
      n := if |kernel.bytes| < m_buffer.free then |kernel.bytes| else m_buffer.free;
      ghost var data, r := m_buffer.Data(), After(NEW_READER, m_buffer.received);
      MoreData(m_buffer.received, m_parser, data, kernel.bytes[..n]);
      EndsInParts(m_buffer.received, kernel.bytes[..n], |m_buffer.taken|);
      EndsInParts(m_buffer.received + kernel.bytes[..n], "", |m_buffer.taken|);
      m_buffer.Receive(kernel.bytes[..n]);
      life := RunParser(r);
    }

    /** The loop around `memtext_execute`; `r` is the reader at the position of the parser. */
    method RunParser(ghost r: Reader) returns (life: Life)
      requires m_buffer.Valid() && m_off < |m_buffer.Data()| < U32 && Formed(NEW_READER)
      requires Agree(m_parser, m_buffer.Data(), m_off, r) && !Stuck(r.cs) && Formed(r)
      requires After(r, m_buffer.Data()[m_off..]) == After(NEW_READER, m_buffer.received)
      requires delivered + Out(r, m_buffer.Data()[m_off..]) == Out(NEW_READER, m_buffer.received)
      requires m_buffer.taken == "" || After(NEW_READER, m_buffer.taken).cs == Final
      modifies this, m_buffer
      ensures m_buffer.received == old(m_buffer.received) && m_buffer.block == old(m_buffer.block)
      ensures delivered == Out(NEW_READER, m_buffer.received) && m_buffer.Valid()
      ensures life == Alive ==> Valid() && Leaves(m_buffer, old(m_buffer.taken), old(m_buffer.Data()))
      ensures life == LifeAt(After(NEW_READER, m_buffer.received).cs)
    {
      hide Agree, After, Out, Read;
      var more := true;
      while more
        invariant m_buffer.Valid() && m_buffer.received == old(m_buffer.received)
          && m_buffer.block == old(m_buffer.block)
        invariant more ==>
            && m_buffer.taken == old(m_buffer.taken) && m_buffer.Data() == old(m_buffer.Data())
            && m_off < |m_buffer.Data()| && Agree(m_parser, m_buffer.Data(), m_off, r)
            && After(r, m_buffer.Data()[m_off..]) == After(NEW_READER, m_buffer.received)
            && delivered + Out(r, m_buffer.Data()[m_off..]) == Out(NEW_READER, m_buffer.received)
        invariant !more ==> Valid() && Leaves(m_buffer, old(m_buffer.taken), old(m_buffer.Data()))
        decreases more, |m_buffer.Data()|
      {
        ghost var data := m_buffer.Data();
        var o, ctx, off, out := Execute(m_parser, m_buffer.Data(), m_off, r);
        m_parser, m_off, delivered := ctx, off, delivered + out;
        if o.Undefined? {
          return Unknown;
        } else if o.ret < 0 {
          return Ended;
        } else if o.ret == 0 {
          return Alive;
        }
        AgreementMoves(m_parser, data, m_off, After(NEW_READER, m_buffer.received), "");
        m_buffer.DataUsed(m_off);
        m_off := 0;
        more := |m_buffer.Data()| > 0;
        assert m_buffer.taken == m_buffer.received;
      }
      life := Alive;
    }

    /** As many reads as it takes to receive a chunk, or to find an error. */
    method Feed(chunk: string) returns (life: Life)
      requires Valid() && chunk != [] && |m_buffer.Data()| + |chunk| < U32
      modifies this, m_buffer, m_buffer.block
      ensures m_buffer.block == old(m_buffer.block) || fresh(m_buffer.block)
      ensures life == Alive ==> Valid() && m_buffer.received == old(m_buffer.received) + chunk
      ensures life == Alive ==> |m_buffer.taken| >= |old(m_buffer.taken)|
      ensures Formed(NEW_READER) && delivered == Out(NEW_READER, old(m_buffer.received) + chunk)
      ensures life == LifeAt(After(NEW_READER, old(m_buffer.received) + chunk).cs)
    {
      ghost var before := m_buffer.received;
      var left := chunk;
      life := Alive;
      while left != []
        invariant Valid() && m_buffer.received + left == before + chunk
        invariant |m_buffer.Data()| + |left| <= |old(m_buffer.Data())| + |chunk|
        invariant |m_buffer.taken| >= |old(m_buffer.taken)|
        invariant m_buffer.block == old(m_buffer.block) || fresh(m_buffer.block)
        invariant life == Alive
        decreases |left|
      {
        ghost var received := m_buffer.received;
        var n;
        life, n := ReadEvent(Got(left));
        Resplit(received, left, n);
        if life != Alive {
          ReadConcat(NEW_READER, m_buffer.received, left[n..]);
          ErrorStays(After(NEW_READER, m_buffer.received), left[n..]);
          return;
        }
        left := left[n..];
      }
    }
  }

  /** A finished command stays in the buffer if the same read brings the beginning of another. */
  method FinishedCommandStays() returns (kept: string, delivered: seq<Request>)
    ensures kept == "get a\r\nget b" && delivered == [GetRequest(GET, ["a"])]
  {
    hide After, Out;
    TwoLines();
    kept, delivered := FirstRead("get a\r\n" + "get b");
  }

  /** The first read of a connection: all of it stays, unless a command ends at its end. */
  method FirstRead(bytes: string) returns (kept: string, delivered: seq<Request>)
    requires Formed(NEW_READER) && 0 < |bytes| <= RESERVE_SIZE && !Stuck(After(NEW_READER, bytes).cs)
    ensures kept == (if After(NEW_READER, bytes).cs == Final then "" else bytes)
    ensures delivered == Out(NEW_READER, bytes)
  {
    hide Agree, After, Out, Read, NoneEnds;
    var h := new Handler();
    var life, n := h.ReadEvent(Got(bytes));
    assert bytes[..n] == bytes && "" + bytes == bytes;
    kept, delivered := h.m_buffer.Data(), h.delivered;
  }

  lemma TwoLines()
    ensures Formed(NEW_READER)
    ensures After(NEW_READER, "get a\r\n" + "get b").cs == Key(Retrieval)
    ensures Out(NEW_READER, "get a\r\n" + "get b") == [GetRequest(GET, ["a"])]
  {
    hide After, Out, Read;
    NewReaderFormed();
    var l := GetLine(false, ["a"], false);
    assert SpacedKeys(["a"]) == " a" by {
      assert ["a"][..0] == [];
    }
    assert PrintLine(l) == "get a\r\n";
    GetReads(NEW_READER, l);
    SetIsCommand();
    HeadRun(After(NEW_READER, "get a\r\n"), "get", GET, "b");
    assert "get" + " " + "b" == "get b";
    ReadConcat(NEW_READER, "get a\r\n", "get b");
  }

  lemma InitAgrees()
    requires Formed(NEW_READER)
    ensures Agree(INIT, "", 0, After(NEW_READER, "")) && Out(NEW_READER, "") == []
  {
    forall f: Field ensures f in INIT.nums && INIT.nums[f] == NEW_READER.nums[f] {
      match f
      case Flags =>
      case Exptime =>
      case Bytes =>
      case CasUnique =>
    }
  }

  /** Data received behind what was read. */
  lemma MoreData(received: string, ctx: Context, data: string, more: string)
    requires Formed(NEW_READER) && Agree(ctx, data, |data|, After(NEW_READER, received))
    ensures var r := After(NEW_READER, received);
            && Agree(ctx, data + more, |data|, r) && (data + more)[|data|..] == more
            && After(r, more) == After(NEW_READER, received + more)
            && Out(NEW_READER, received) + Out(r, more) == Out(NEW_READER, received + more)
  {
    hide Agree, Read;
    AgreementMoves(ctx, data, |data|, After(NEW_READER, received), more);
    ReadConcat(NEW_READER, received, more);
  }

  lemma {:induction false} FlattenPrefix(chunks: seq<string>, n: nat)
    requires n <= |chunks|
    ensures exists rest :: Flatten(chunks) == Flatten(chunks[..n]) + rest
    decreases |chunks|
  {
    if n == |chunks| {
      assert chunks[..n] == chunks;
      assert Flatten(chunks) == Flatten(chunks[..n]) + "";
    } else {
      var front, last := chunks[..|chunks| - 1], chunks[|chunks| - 1];
      FlattenPrefix(front, n);
      assert front[..n] == chunks[..n];
      var rest :| Flatten(front) == Flatten(front[..n]) + rest;
      assert Flatten(chunks) == Flatten(chunks[..n]) + (rest + last);
    }
  }

  /** Each of the first `n` chunks that ends a command ends within the first `taken` bytes. */
  ghost predicate EndsBefore(chunks: seq<string>, n: nat, taken: int)
    requires n <= |chunks| && Formed(NEW_READER)
  {
    taken >= 0
    && forall i :: 0 < i <= n && After(NEW_READER, Flatten(chunks[..i])).cs == Final ==>
      |Flatten(chunks[..i])| <= taken
  }

  lemma NothingEnds(chunks: seq<string>)
    requires Formed(NEW_READER)
    ensures EndsBefore(chunks, 0, 0) && Flatten(chunks[..0]) == ""
  {
  }

  lemma EndsLater(chunks: seq<string>, n: nat, taken: nat, later: int)
    requires n <= |chunks| && Formed(NEW_READER) && EndsBefore(chunks, n, taken) && taken <= later
    ensures EndsBefore(chunks, n, later)
  {
    hide After, Flatten;
  }

  lemma EndsNext(chunks: seq<string>, n: nat, taken: nat, later: int)
    requires 0 < n <= |chunks| && Formed(NEW_READER) && EndsBefore(chunks, n - 1, taken) && taken <= later
    requires After(NEW_READER, Flatten(chunks[..n])).cs == Final ==> |Flatten(chunks[..n])| <= later
    ensures EndsBefore(chunks, n, later)
  {
    hide After, Flatten;
  }

  /** One connection from its first read to its last.  What it delivers depends on the bytes
      only, whatever chunks they arrive in, however many reads each one takes, and wherever the
      buffer moves meanwhile.  It is served to its end unless its data would pass 4 GiB or a
      retrieval line reaches a 257th key, from where on nothing is known. */
  method Serve(chunks: seq<string>) returns (served: nat, life: Life, delivered: seq<Request>)
    requires forall c :: c in chunks ==> c != ""
    ensures Formed(NEW_READER) && served <= |chunks|
    ensures delivered == Out(NEW_READER, Flatten(chunks[..served]))
    ensures life == LifeAt(After(NEW_READER, Flatten(chunks[..served])).cs)
    // it is given up only if 4 GiB have come since the last chunk that ended a command
    ensures life == Alive && served < |chunks| ==>
              EndsBefore(chunks, served, |Flatten(chunks[..served + 1])| - U32)
    ensures |Flatten(chunks)| < U32 ==> (life == Unknown <==> Overruns(Flatten(chunks)))
    ensures |Flatten(chunks)| < U32 && !Overruns(Flatten(chunks)) ==> delivered == Out(NEW_READER, Flatten(chunks))
  {
    hide Agree, After, Out, Read, Overruns, NoneEnds, EndsBefore, Flatten;
    served, life := 0, Alive;
    var h := new Handler();
    NothingRead(NEW_READER);
    NothingEnds(chunks);
    while served < |chunks| && life == Alive
      invariant served <= |chunks| && Formed(NEW_READER)
      invariant life == Alive ==> h.Valid() && h.m_buffer.received == Flatten(chunks[..served])
      invariant life == Alive ==> EndsBefore(chunks, served, |h.m_buffer.taken|)
      invariant h.delivered == Out(NEW_READER, Flatten(chunks[..served]))
      invariant life == LifeAt(After(NEW_READER, Flatten(chunks[..served])).cs)
      invariant fresh(h) && fresh(h.m_buffer) && fresh(h.m_buffer.block)
    {
      assert chunks[served] in chunks;
      FlattenNext(chunks, served);
      if |h.m_buffer.Data()| + |chunks[served]| >= U32 {
        FlattenPrefix(chunks, served + 1);
        EndsLater(chunks, served, |h.m_buffer.taken|, |Flatten(chunks[..served + 1])| - U32);
        return served, life, h.delivered;
      }
      ghost var taken := |h.m_buffer.taken|;
      life := h.Feed(chunks[served]);
      served := served + 1;
      if life == Alive {
        EndsNext(chunks, served, taken, |h.m_buffer.taken|);
      }
    }
    delivered := h.delivered;
    ServedAll(chunks, served, life);
  }

  /** Chunks that were not served change nothing, and only a line that is too long leads astray. */
  lemma ServedAll(chunks: seq<string>, served: nat, life: Life)
    requires Formed(NEW_READER) && served <= |chunks| && (life == Alive ==> served == |chunks|)
    requires life == LifeAt(After(NEW_READER, Flatten(chunks[..served])).cs)
    ensures Out(NEW_READER, Flatten(chunks[..served])) == Out(NEW_READER, Flatten(chunks))
    ensures |Flatten(chunks)| < U32 ==> (life == Unknown <==> Overruns(Flatten(chunks)))
  {
    hide After, Out, Overruns;
    FlattenPrefix(chunks, served);
    if life == Alive {
      assert chunks[..served] == chunks;
    } else {
      var rest :| Flatten(chunks) == Flatten(chunks[..served]) + rest;
      ReadConcat(NEW_READER, Flatten(chunks[..served]), rest);
      ErrorStays(After(NEW_READER, Flatten(chunks[..served])), rest);
    }
    if |Flatten(chunks)| < U32 {
      MarksStayInside(Flatten(chunks));
    }
  }

  /** The lines a client prints reach the callbacks as the requests it meant, however the
      network splits them, if and only if every number fits its field and no payload is empty. */
  method ServeLines(lines: seq<Line>, chunks: seq<string>) returns (served: nat, life: Life, delivered: seq<Request>)
    requires forall l :: l in lines ==> Printable(l)
    requires (forall c :: c in chunks ==> c != "") && Flatten(chunks) == PrintAll(lines) && |PrintAll(lines)| < U32
    ensures life != Unknown && (delivered == AllIntended(lines) <==> forall l :: l in lines ==> InRange(l))
  {
    hide Overruns;
    RoundTrip(lines);
    LinesRead(NEW_READER, lines);
    MarksStayInside(PrintAll(lines));
    served, life, delivered := Serve(chunks);
  }
}
