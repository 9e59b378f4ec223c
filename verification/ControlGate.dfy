/** `gate_control`: length-prefixed frames over a stream buffer, and their encoder in memxyctl. */
module ControlGate {
  import opened Common
  import opened StreamBuffer

  type byte = b: int | 0 <= b < 256

  const HEADER: nat := 4  // sizeof(uint32_t)
  const LIMIT: nat := 0x1_0000_0000

  const INITIAL_ALLOCATION_SIZE: nat := 32 * 1024
  const RESERVE_SIZE: nat := 4 * 1024
  const BUFFER_INITIAL_SIZE: nat := 8 * 1024  // the default of reserve_buffer

  /** Ruby's `[n].pack('N')`: 32 bits in network order. */
  function Pack(n: nat): seq<byte>
    requires n < LIMIT
  {
    [n / 0x1000000, n / 0x10000 % 0x100, n / 0x100 % 0x100, n % 0x100]
  }

  /** `ntohl` of the first four bytes. */
  function Length(s: seq<byte>): nat
    requires |s| >= HEADER
  {
    s[0] as int * 0x1000000 + s[1] as int * 0x10000 + s[2] as int * 0x100 + s[3] as int
  }

  lemma PackLength(n: nat, s: seq<byte>)
    requires n < LIMIT
    ensures Length(Pack(n) + s) == n
  {
    assert (Pack(n) + s)[..HEADER] == Pack(n);
    var a, b := n / 0x100, n / 0x10000;
    assert b == a / 0x100 && n / 0x1000000 == b / 0x100;
    assert n == a * 0x100 + n % 0x100 && a == b * 0x100 + a % 0x100 && b == (b / 0x100) * 0x100 + b % 0x100;
  }

  /** Network order: of two lengths the smaller one has the smaller byte where they first differ. */
  lemma PackOrder(m: nat, n: nat, k: nat)
    requires m < LIMIT && n < LIMIT && k < 4
    requires Pack(m)[..k] == Pack(n)[..k] && Pack(m)[k] != Pack(n)[k]
    ensures m < n <==> Pack(m)[k] < Pack(n)[k]
  {
    var p, q := Pack(m), Pack(n);
    PackLength(m, []);
    PackLength(n, []);
    assert p + [] == p && q + [] == q;
    hide Pack;
    assert forall i :: 0 <= i < k ==> p[i] == p[..k][i] && q[i] == q[..k][i];
  }

  /** On the wire a body of less than 256 bytes follows three zero bytes and its size. */
  lemma ShortFrame(body: seq<byte>, rest: seq<seq<byte>>)
    requires |body| < 256 && forall b :: b in rest ==> |b| < LIMIT
    ensures Encode([body] + rest) == [0, 0, 0, |body|] + body + Encode(rest)
  {
    assert ([body] + rest)[1..] == rest;
  }

  function Encode(bodies: seq<seq<byte>>): seq<byte>
    requires forall b :: b in bodies ==> |b| < LIMIT
  {
    if bodies == [] then [] else Pack(|bodies[0]|) + bodies[0] + Encode(bodies[1..])
  }

  /** The frames at the front of a stream and what is left behind them.  The loop looks at a
      frame only when there is more than its header. */
  predicate HasFrame(s: seq<byte>) {
    |s| > HEADER && |s| - HEADER >= Length(s)
  }

  function Bodies(s: seq<byte>): seq<seq<byte>>
    decreases |s|
  {
    if HasFrame(s) then [s[HEADER..HEADER + Length(s)]] + Bodies(s[HEADER + Length(s)..]) else []
  }

  function Unread(s: seq<byte>): seq<byte>
    decreases |s|
  {
    if HasFrame(s) then Unread(s[HEADER + Length(s)..]) else s
  }

  /** Parsing can stop anywhere and go on from what was left. */
  lemma {:induction false} ParseResumes(s: seq<byte>, t: seq<byte>)
    ensures Bodies(s + t) == Bodies(s) + Bodies(Unread(s) + t)
    ensures Unread(s + t) == Unread(Unread(s) + t)
    decreases |s|
  {
    if HasFrame(s) {
      var n := HEADER + Length(s);
      assert Length(s + t) == Length(s) && (s + t)[HEADER..n] == s[HEADER..n];
      assert (s + t)[n..] == s[n..] + t;
      ParseResumes(s[n..], t);
    }
  }

  lemma FrameAtFront(body: seq<byte>, rest: seq<byte>)
    requires |body| < LIMIT
    ensures var s := Pack(|body|) + body + rest;
            && (HasFrame(s) <==> body != [] || rest != [])
            && (HasFrame(s) ==> Bodies(s) == [body] + Bodies(rest) && Unread(s) == Unread(rest))
  {
    var s := Pack(|body|) + body + rest;
    assert s == Pack(|body|) + (body + rest);
    PackLength(|body|, body + rest);
    assert s[HEADER..HEADER + |body|] == body;
    assert s[HEADER + |body|..] == rest;
  }

  /** The bodies that come out before an empty frame at the very end of the input. */
  function Delivered(bodies: seq<seq<byte>>): seq<seq<byte>> {
    if bodies != [] && bodies[|bodies| - 1] == [] then bodies[..|bodies| - 1] else bodies
  }

  lemma DeliveredCons(b: seq<byte>, rest: seq<seq<byte>>)
    ensures rest != [] ==> Delivered([b] + rest) == [b] + Delivered(rest)
    ensures Delivered([b]) == if b == [] then [] else [b]
    ensures rest != [] ==> ([b] + rest)[|[b] + rest| - 1] == rest[|rest| - 1]
  {
  }

  /** Decoding gives back what was encoded, if and only if the last body is not empty: an empty
      frame at the very end of the input is held back, alone. */
  lemma RoundTrip(bodies: seq<seq<byte>>)
    requires forall b :: b in bodies ==> |b| < LIMIT
    ensures Bodies(Encode(bodies)) == bodies <==> bodies == [] || bodies[|bodies| - 1] != []
    ensures Bodies(Encode(bodies)) == Delivered(bodies)
    ensures Unread(Encode(bodies)) == if bodies != [] && bodies[|bodies| - 1] == [] then Pack(0) else []
  {
    Decodes(bodies);
  }

  lemma {:induction false} Decodes(bodies: seq<seq<byte>>)
    requires forall b :: b in bodies ==> |b| < LIMIT
    ensures Bodies(Encode(bodies)) == Delivered(bodies)
    ensures Unread(Encode(bodies)) == if bodies != [] && bodies[|bodies| - 1] == [] then Pack(0) else []
  {
    if bodies != [] {
      hide HasFrame, Delivered, Pack;
      var b, rest := bodies[0], bodies[1..];
      assert bodies == [b] + rest;
      Decodes(rest);
      FrameAtFront(b, Encode(rest));
      DeliveredCons(b, rest);
      if rest != [] {
        EncodeNotEmpty(rest);
      } else if b == [] {
        EmptyFrame();
      }
    }
  }

  lemma EmptyFrame()
    ensures Pack(0) + [] + [] == Pack(0) && Bodies(Pack(0)) == [] && Unread(Pack(0)) == Pack(0)
  {
  }

  lemma EncodeNotEmpty(bodies: seq<seq<byte>>)
    requires bodies != [] && forall b :: b in bodies ==> |b| < LIMIT
    ensures Encode(bodies) != []
  {
  }

  class Handler {
    const m_buffer: StreamBuffer<byte>
    var processed: seq<seq<byte>>  // the calls of process_body

    ghost predicate Valid()
      reads this, m_buffer, m_buffer.block
    {
      && m_buffer.Valid()
      && processed == Bodies(m_buffer.received) && m_buffer.Data() == Unread(m_buffer.received)
    }

    constructor ()
      ensures Valid() && fresh(m_buffer) && fresh(m_buffer.block) && m_buffer.received == [] && processed == []
    {
      m_buffer := new StreamBuffer<byte>(INITIAL_ALLOCATION_SIZE);
      processed := [];
    }

    /** `read_event`: reads what there is room for and processes every whole frame.  `kernel`
        is what a read of unlimited size would give; the connection ends with `alive` false. */
    method ReadEvent(kernel: Received<byte>) returns (alive: bool, n: nat)
      requires Valid()
      modifies this, m_buffer, m_buffer.block
      ensures Valid()
      ensures alive <==> kernel.Again? || (kernel.Got? && kernel.bytes != [])
      ensures n <= if kernel.Got? then |kernel.bytes| else 0
      ensures kernel.Got? ==> n >= if |kernel.bytes| < RESERVE_SIZE then |kernel.bytes| else RESERVE_SIZE
      ensures m_buffer.received == old(m_buffer.received) + if kernel.Got? then kernel.bytes[..n] else []
      ensures m_buffer.block == old(m_buffer.block) || fresh(m_buffer.block)
    {
      hide Bodies, Unread, StreamBuffer.Data;
      m_buffer.ReserveBuffer(RESERVE_SIZE, BUFFER_INITIAL_SIZE);
      n := 0;
      if !kernel.Got? || kernel.bytes == [] {
        return kernel.Again?, 0;
      }
      var rl := if |kernel.bytes| < m_buffer.free then |kernel.bytes| else m_buffer.free;
      n := rl;
      ParseResumes(m_buffer.received, kernel.bytes[..rl]);
      m_buffer.Receive(kernel.bytes[..rl]);
      ProcessFrames();
      alive := true;
    }

    /** As many reads as it takes to receive a chunk. */
    method Feed(chunk: seq<byte>)
      requires Valid() && chunk != []
      modifies this, m_buffer, m_buffer.block
      ensures Valid() && m_buffer.received == old(m_buffer.received) + chunk
      ensures m_buffer.block == old(m_buffer.block) || fresh(m_buffer.block)
    {
      var left := chunk;
      while left != []
        invariant Valid() && m_buffer.received + left == old(m_buffer.received) + chunk
        invariant m_buffer.block == old(m_buffer.block) || fresh(m_buffer.block)
        decreases |left|
      {
        ghost var before := m_buffer.received;
        var alive, n := ReadEvent(Got(left));
        Resplit(before, left, n);
        left := left[n..];
      }
    }

    /** The loop over the frames in the buffer. */
    method ProcessFrames()
      requires m_buffer.Valid()
      requires processed + Bodies(m_buffer.Data()) == Bodies(m_buffer.received)
      requires Unread(m_buffer.Data()) == Unread(m_buffer.received)
      modifies this, m_buffer
      ensures Valid() && m_buffer.received == old(m_buffer.received) && m_buffer.block == old(m_buffer.block)
    {
      while HasFrame(m_buffer.Data())
        invariant m_buffer.Valid() && m_buffer.received == old(m_buffer.received)
          && m_buffer.block == old(m_buffer.block)
        invariant processed + Bodies(m_buffer.Data()) == Bodies(m_buffer.received)
        invariant Unread(m_buffer.Data()) == Unread(m_buffer.received)
        decreases |m_buffer.Data()|
      {
        ghost var s, done := m_buffer.Data(), processed;
        var sz := Length(m_buffer.Data());
        var body := m_buffer.Data()[HEADER..HEADER + sz];
        processed := processed + [body];
        m_buffer.DataUsed(HEADER + sz);
        Regroup(done, body, Bodies(m_buffer.Data()));
      }
    }
  }

  lemma Regroup(a: seq<seq<byte>>, b: seq<byte>, c: seq<seq<byte>>)
    ensures (a + [b]) + c == a + ([b] + c)
  {
  }

  /** One connection from its first read to its last: the bodies processed depend on the bytes
      only, whatever chunks they arrive in and however many reads each one takes. */
  method Serve(chunks: seq<seq<byte>>) returns (processed: seq<seq<byte>>)
    requires forall c :: c in chunks ==> c != []
    ensures processed == Bodies(Flatten(chunks))
  {
    hide Bodies, Unread;
    var h := new Handler();
    for i := 0 to |chunks|
      invariant h.Valid() && h.m_buffer.received == Flatten(chunks[..i])
      invariant fresh(h) && fresh(h.m_buffer) && fresh(h.m_buffer.block)
    {
      assert chunks[i] in chunks;
      h.Feed(chunks[i]);
      assert chunks[..i + 1][..i] == chunks[..i];
    }
    assert chunks[..|chunks|] == chunks;
    processed := h.processed;
  }

  /** What the client encodes is what is processed, however the network splits it, if and only if
      the last body is not empty. */
  method ServeBodies(bodies: seq<seq<byte>>, chunks: seq<seq<byte>>) returns (processed: seq<seq<byte>>)
    requires forall b :: b in bodies ==> |b| < LIMIT
    requires (forall c :: c in chunks ==> c != []) && Flatten(chunks) == Encode(bodies)
    ensures processed == bodies <==> bodies == [] || bodies[|bodies| - 1] != []
    ensures processed == Delivered(bodies)
  {
    RoundTrip(bodies);
    processed := Serve(chunks);
  }
}
