/** `xferimpl`: filling records and executing a packed buffer against the kernel, in place. */
module XferEngine {
  import opened XferRecords

  /** One answer of a writing system call: it took `took` of the `asked` bytes, or it failed
      with EAGAIN/EINTR (`retry`) or with another error. */
  datatype Answer = Took(asked: nat, took: nat) | Retry | Broken

  /** How an execution ends: everything done, to be continued, or a hard error. */
  datatype Verdict = Done | Again | Hard

  /** What the engine makes of an answer: progress only when the call took everything and at
      least one byte; a call that took nothing counts as an error. */
  function Judge(a: Answer): Verdict {
    match a
    case Took(asked, took) => if took == 0 then Hard else if took < asked then Again else Done
    case Retry => Again
    case Broken => Hard
  }

  /** The kernel took all it was asked for. */
  predicate Full(a: Answer) {
    a.Took? && a.took == a.asked
  }

  /** The verdict over the answers of one execution: every answer but the last took everything,
      and the last one decides.  Only an error, or taking nothing, is hard; EAGAIN, EINTR and
      taking a part are to be continued. */
  ghost predicate Verdicts(answers: seq<Answer>, v: Verdict) {
    && (forall i :: 0 <= i < |answers| - 1 ==>
          answers[i].Took? && answers[i].took >= answers[i].asked && answers[i].took > 0)
    && (answers == [] ==> v == Done)
    && (answers != [] ==>
          var a := answers[|answers| - 1];
          && (v == Hard <==> a.Broken? || (a.Took? && a.took == 0))
          && (v == Again <==> a.Retry? || (a.Took? && 0 < a.took < a.asked)))
  }

  /** The outside world of one file descriptor: the kernel and the finalizers.  Its answers
      are arbitrary; `log` is what it was handed, `answers` what it said. */
  class Kernel {
    ghost var log: seq<Item>
    ghost var answers: seq<Answer>

    constructor ()
      ensures log == [] && answers == []
    {
      log, answers := [], [];
    }

    /** writev(2), sendfile(2) or write(2) of `items`. */
    method Write(items: seq<Item>) returns (wl: int, retry: bool)
      modifies this
      ensures wl <= |items|
      ensures log == old(log) + items[..if wl > 0 then wl else 0]
      ensures answers == old(answers) +
                         [if wl >= 0 then Took(|items|, wl) else if retry then Retry else Broken]
    {
      assert -1 <= -1 <= |items|;
      wl :| -1 <= wl <= |items|;
      retry := *;
      log := log + items[..if wl > 0 then wl else 0];
      answers := answers + [if wl >= 0 then Took(|items|, wl) else if retry then Retry else Broken];
    }

    /** Runs a finalizer unless it is a null pointer; what it throws is swallowed. */
    method Finalize(fn: int, user: int)
      modifies this
      ensures log == old(log) + RecordItems(Fin(fn, user)) && answers == old(answers)
      ensures log == if fn == 0 then old(log) else old(log) + [Finalized(fn, user)]
    {
      if fn != 0 {
        log := log + [Finalized(fn, user)];
      }
    }
  }

  /** One execution took the queue from `rs` to `rs'`, handing over in order exactly the items
      that are gone. */
  ghost predicate Executed(rs: seq<Record>, log: seq<Item>, v: Verdict, rs': seq<Record>, log': seq<Item>) {
    && Moved(rs, log, rs', log')
    && (v == Done <==> rs' == [])
    && (v == Done ==> NoEmptyData(rs))
  }

  /** A call that has nothing to write takes nothing, which counts as an error; so only queues
      without empty data records are ever executed to the end. */
  ghost predicate NoEmptyData(rs: seq<Record>) {
    forall i :: 0 <= i < |rs| ==> !EmptyData(rs[i])
  }

  /** The items that left the queue are those that were added to the log. */
  ghost predicate Moved(rs: seq<Record>, log: seq<Item>, rs': seq<Record>, log': seq<Item>) {
    log <= log' && log'[|log|..] + Items(rs') == Items(rs)
  }

  lemma MovedRefl(rs: seq<Record>, log: seq<Item>)
    ensures Moved(rs, log, rs, log)
  {
  }

  lemma MovedTransitive(rs0: seq<Record>, log0: seq<Item>, rs1: seq<Record>, log1: seq<Item>, rs2: seq<Record>,
      log2: seq<Item>)
    requires Moved(rs0, log0, rs1, log1) && Moved(rs1, log1, rs2, log2)
    ensures Moved(rs0, log0, rs2, log2)
  {
    assert log2[|log0|..] == log1[|log0|..] + log2[|log1|..];
  }

  // ----- raw memory

  /** memmove: the source is read before the destination is written, so ranges may overlap. */
  method MemMove(a: array<int>, dst: nat, src: nat, n: nat)
    requires dst + n <= a.Length && src + n <= a.Length
    modifies a
    ensures a[dst..dst + n] == old(a[src..src + n])
    ensures forall i :: 0 <= i < dst || dst + n <= i < a.Length ==> a[i] == old(a[i])
  {
    forall i | 0 <= i < n {
      a[dst + i] := a[src + i];
    }
  }

  /** memcpy between two blocks. */
  method MemCopy(a: array<int>, dst: nat, b: array<int>, src: nat, n: nat)
    requires a != b && dst + n <= a.Length && src + n <= b.Length
    modifies a
    ensures a[dst..dst + n] == b[src..src + n]
    ensures forall i :: 0 <= i < dst || dst + n <= i < a.Length ==> a[i] == old(a[i])
  {
    forall i | 0 <= i < n {
      a[dst + i] := b[src + i];
    }
  }

  // ----- filling records

  method FillMem(a: array<int>, from: nat, base: int, size: nat) returns (to: nat)
    requires from + RecordSize(2) <= a.Length
    modifies a
    ensures to == from + RecordSize(2)
    ensures Packed(a[from..to]) && Decode(a[from..to]) == [Vec([Iovec(base, size)])]
    ensures forall i :: 0 <= i < from || to <= i < a.Length ==> a[i] == old(a[i])
  {
    a[from] := 2;
    a[from + 1] := base;
    a[from + 3] := size;
    to := from + RecordSize(2);
    DecodeVec(a[from..to], [Iovec(base, size)]);
  }

  method FillIovec(a: array<int>, from: nat, vec: seq<Iovec>) returns (to: nat)
    requires from + RecordSize(2 * |vec|) <= a.Length
    modifies a
    ensures to == from + RecordSize(2 * |vec|)
    ensures Packed(a[from..to]) && Decode(a[from..to]) == [Vec(vec)]
    ensures forall i :: 0 <= i < from || to <= i < a.Length ==> a[i] == old(a[i])
  {
    a[from] := 2 * |vec|;
    for i := 0 to |vec|
      invariant a[from] == 2 * |vec|
      invariant forall j :: 0 <= j < i ==> a[from + 4 * j + 1] == vec[j].base && a[from + 4 * j + 3] == vec[j].len
      invariant forall i :: 0 <= i < from || from + RecordSize(2 * |vec|) <= i < a.Length ==> a[i] == old(a[i])
    {
      a[from + 4 * i + 1] := vec[i].base;
      a[from + 4 * i + 3] := vec[i].len;
    }
    to := from + RecordSize(2 * |vec|);
    DecodeVec(a[from..to], vec);
  }

  method FillSendfile(a: array<int>, from: nat, infd: int, off: int, len: nat) returns (to: nat)
    requires from + SIZEOF_SENDFILE <= a.Length
    modifies a
    ensures to == from + SIZEOF_SENDFILE
    ensures Packed(a[from..to]) && Decode(a[from..to]) == [Send(infd, off, len)]
    ensures forall i :: 0 <= i < from || to <= i < a.Length ==> a[i] == old(a[i])
  {
    a[from] := XF_SENDFILE;
    a[from + 1] := infd;
    a[from + 3] := off;
    a[from + 5] := len;
    to := from + SIZEOF_SENDFILE;
  }

  method FillFinalize(a: array<int>, from: nat, fn: int, user: int) returns (to: nat)
    requires from + SIZEOF_FINALIZE <= a.Length
    modifies a
    ensures to == from + SIZEOF_FINALIZE
    ensures Packed(a[from..to]) && Decode(a[from..to]) == [Fin(fn, user)]
    ensures forall i :: 0 <= i < from || to <= i < a.Length ==> a[i] == old(a[i])
  {
    a[from] := XF_FINALIZE;
    a[from + 1] := fn;
    a[from + 3] := user;
    to := from + SIZEOF_FINALIZE;
  }

  // ----- executing

  /** MP_WAVY_XFER_CONSUMED: moves the records from `p` to the start of the buffer. */
  method Consumed(a: array<int>, head: nat, p: nat, endp: nat) returns (tail: nat)
    requires head <= p <= endp <= a.Length
    modifies a
    ensures tail == head + (endp - p)
    ensures a[head..tail] == old(a[p..endp])
    ensures forall i :: 0 <= i < head || endp <= i < a.Length ==> a[i] == old(a[i])
  {
    MemMove(a, head, p, endp - p);
    tail := head + (endp - p);
  }

  /** The remainder of a list whose first `i` entries and `wl` more bytes were taken. */
  function Remainder(v: seq<Iovec>, i: nat, wl: nat): seq<Iovec>
    requires i < |v| && wl < v[i].len
  {
    [Iovec(v[i].base + wl, v[i].len - wl)] + v[i + 1..]
  }

  /** Refills the last `count` iovecs of the record that ends at `next` as a record at `head`,
      then moves what follows behind it; `fill_iovec` and `memmove` on overlapping ranges. */
  method Refill(a: array<int>, head: nat, next: nat, endp: nat, count: nat) returns (tail: nat)
    requires head + 1 + 4 * count <= next <= endp <= a.Length
    modifies a
    ensures tail == head + 1 + 4 * count + (endp - next)
    ensures a[head] == 2 * count
    ensures a[head + 1..head + 1 + 4 * count] == old(a[next - 4 * count..next])
    ensures a[head + 1 + 4 * count..tail] == old(a[next..endp])
    ensures forall i :: 0 <= i < head || endp <= i < a.Length ==> a[i] == old(a[i])
  {
    var filltail := head + 1 + 4 * count;
    ghost var vec, back := a[next - 4 * count..next], a[next..endp];
    a[head] := 2 * count;
    MemMove(a, head + 1, next - 4 * count, 4 * count);
    assert a[next..endp] == back;
    ghost var front := a[head..filltail];
    assert front[1..] == vec && front[0] == 2 * count;
    MemMove(a, filltail, next, endp - next);
    assert a[head..filltail] == front;
    assert a[head + 1..filltail] == front[1..] && a[head] == front[0];
    tail := filltail + (endp - next);
  }

  /** The slots `s` with the first `wl` bytes cut from iovec `i`. */
  function Shortened(s: seq<int>, i: nat, wl: nat): seq<int>
    requires SIZEOF_IOVEC * (i + 1) < |s|
  {
    s[4 * i + 1 := BaseSlot(s, i) + wl][4 * i + 3 := LenSlot(s, i) - wl]
  }

  /** The first record of `t` is the remainder of the list at the start of `s`. */
  lemma RemainderHead(s: seq<int>, i: nat, wl: nat, t: seq<int>)
    requires HeadOk(s) && DecodeHead(s).Vec?
    requires i < s[0] / 2 && wl < LenSlot(s, i)
    requires |t| == 1 + 4 * (s[0] / 2 - i)
    requires t[0] >= 0 && t[0] != XF_SENDFILE && t[0] != XF_FINALIZE && t[0] / 2 == s[0] / 2 - i
    requires forall j :: 1 <= j < |t| ==> t[j] == Shortened(s, i, wl)[4 * i + j]
    ensures Packed(t) && Decode(t) == [Vec(Remainder(DecodeHead(s).iov, i, wl))]
  {
    var v := Remainder(DecodeHead(s).iov, i, wl);
    forall j | 0 <= j < |v|
      ensures BaseSlot(t, j) == v[j].base && LenSlot(t, j) == v[j].len
    {
      if j > 0 {
        assert v[j] == Iovec(BaseSlot(s, i + j), LenSlot(s, i + j));
      }
    }
    DecodeVec(t, v);
  }

  /** From the shortened entry on, behind a new tag, those slots decode to the remainder. */
  lemma RemainderDecodes(s: seq<int>, i: nat, wl: nat, t: seq<int>)
    requires HeadOk(s) && Packed(s) && DecodeHead(s).Vec?
    requires i < s[0] / 2 && wl < LenSlot(s, i)
    requires |t| > 0 && t[0] >= 0 && t[0] != XF_SENDFILE && t[0] != XF_FINALIZE && t[0] / 2 == s[0] / 2 - i
    requires t[1..] == Shortened(s, i, wl)[4 * i + 1..]
    ensures Packed(t) && Decode(t) == [Vec(Remainder(DecodeHead(s).iov, i, wl))] + Decode(s)[1..]
  {
    var u := Shortened(s, i, wl);
    var n := 1 + 4 * (s[0] / 2 - i);
    assert |t| == |s| - 4 * i;
    forall j | 1 <= j < |t| ensures t[j] == u[4 * i + j] {
      assert t[1..][j - 1] == u[4 * i + 1..][j - 1];
    }
    RemainderHead(s, i, wl, t[..n]);
    assert t[n..] == s[RecordSize(s[0])..];
    DecodeAppend(t[..n], t[n..]);
    assert t == t[..n] + t[n..];
  }

  /** Moves the list of `veclen` iovecs at `p`, less its first `i` entries, and all that
      follows it to `head`. */
  method MoveVec(a: array<int>, head: nat, p: nat, endp: nat, veclen: nat, i: nat) returns (tail: nat)
    requires head <= p && p + 1 + 4 * veclen <= endp <= a.Length && i < veclen && a[p] / 2 == veclen
    requires a[p] != XF_SENDFILE && a[p] != XF_FINALIZE && a[p] >= 0
    modifies a
    ensures tail == head + (endp - p) - 4 * i
    ensures a[head] / 2 == veclen - i && a[head] != XF_SENDFILE && a[head] != XF_FINALIZE && a[head] >= 0
    ensures a[head + 1..tail] == old(a[p + 1 + 4 * i..endp])
    ensures forall i :: 0 <= i < head || endp <= i < a.Length ==> a[i] == old(a[i])
  {
    ghost var u := a[p + 1 + 4 * i..endp];
    if i == 0 {
      tail := Consumed(a, head, p, endp);
      assert a[head] == a[head..tail][0];
      assert a[head + 1..tail] == a[head..tail][1..];
    } else {
      var next := p + 1 + 4 * veclen;
      ghost var k := 4 * (veclen - i);
      assert u == a[next - k..next] + a[next..endp];
      tail := Refill(a, head, next, endp, veclen - i);
      assert a[head + 1..tail] == a[head + 1..head + 1 + k] + a[head + 1 + k..tail];
    }
  }

  /** Cuts `wl` bytes from iovec `i` of the list at `p` and makes the rest of the list the
      first record of the buffer. */
  method CutVec(a: array<int>, head: nat, p: nat, endp: nat, i: nat, wl: nat) returns (tail: nat)
    requires head <= p < endp <= a.Length
    requires HeadOk(a[p..endp]) && Packed(a[p..endp]) && DecodeHead(a[p..endp]).Vec?
    requires i < a[p] / 2 && wl < LenSlot(a[p..endp], i)
    modifies a
    ensures head < tail <= endp && Packed(a[head..tail])
    ensures Decode(a[head..tail]) ==
            [Vec(Remainder(old(DecodeHead(a[p..endp]).iov), i, wl))] + old(Decode(a[p..endp])[1..])
    ensures forall i :: 0 <= i < head || endp <= i < a.Length ==> a[i] == old(a[i])
  {
    ghost var s := a[p..endp];
    var veclen := a[p] / 2;
    a[p + 4 * i + 1] := a[p + 4 * i + 1] + wl;
    a[p + 4 * i + 3] := a[p + 4 * i + 3] - wl;
    assert a[p..endp] == Shortened(s, i, wl);
    assert a[p + 1 + 4 * i..endp] == Shortened(s, i, wl)[4 * i + 1..];
    tail := MoveVec(a, head, p, endp, veclen, i);
    assert a[head..tail][1..] == a[head + 1..tail];
    RemainderDecodes(s, i, wl, a[head..tail]);
  }

  /** The loop over the iovecs after a `writev` that took `took` bytes: the first entry that
      was not taken whole and how much of it was, or no entry at all. */
  method FirstUnsent(a: array<int>, p: nat, endp: nat, took: nat) returns (i: nat, wl: nat)
    requires p < endp <= a.Length && HeadOk(a[p..endp]) && DecodeHead(a[p..endp]).Vec?
    requires took <= |IovItems(DecodeHead(a[p..endp]).iov)|
    ensures i <= a[p] / 2
    ensures i == a[p] / 2 ==> Advance(DecodeHead(a[p..endp]).iov, took) == []
    ensures i < a[p] / 2 ==> wl < LenSlot(a[p..endp], i)
    ensures i < a[p] / 2 ==> Advance(DecodeHead(a[p..endp]).iov, took) == Remainder(DecodeHead(a[p..endp]).iov, i, wl)
  {
    ghost var s := a[p..endp];
    ghost var v := DecodeHead(s).iov;
    i, wl := 0, took;
    while i < a[p] / 2
      invariant 0 <= i <= |v|
      invariant Advance(v, took) == Advance(v[i..], wl)
    {
      var len := a[p + 4 * i + 3];
      assert len == LenSlot(s, i) == v[i].len;
      assert v[i..][0] == v[i] && v[i..][1..] == v[i + 1..];
      if wl < len {
        return;
      }
      wl := wl - len;
      i := i + 1;
    }
  }

  /** What one answer makes of the first record `r`: gone, or replaced by its unsent rest. */
  ghost predicate Handled(r: Record, rest: seq<Record>, k: Answer, sent: seq<Item>, v: Verdict, rs': seq<Record>) {
    && v == Judge(k)
    && (v == Done ==> sent == RecordItems(r) && !EmptyData(r))
    && (v != Done ==> rs' != [] && sent + Items(rs') == RecordItems(r) + Items(rest))
    && (v != Done && Full(k) ==> EmptyData(r))
  }

  /** The rest `r'` of a record of which `wl` bytes were sent. */
  lemma PartlySent(r: Record, rest: seq<Record>, wl: nat, r': Record)
    requires wl <= |RecordItems(r)| && RecordItems(r') == RecordItems(r)[wl..]
    ensures RecordItems(r)[..wl] + Items([r'] + rest) == RecordItems(r) + Items(rest)
  {
    ItemsCons(r', rest);
    SplitPrefix(RecordItems(r), Items(rest), wl);
  }

  /** The case XF_IOVEC. */
  method ExecuteVec(k: Kernel, a: array<int>, head: nat, p: nat, endp: nat, v: seq<Iovec>, ghost rest: seq<Record>)
    returns (verdict: Verdict, tail: nat)
    requires head <= p < endp <= a.Length
    requires HeadOk(a[p..endp]) && Packed(a[p..endp])
    requires DecodeHead(a[p..endp]) == Vec(v) && Decode(a[p..endp]) == [Vec(v)] + rest
    modifies a, k
    ensures head <= tail <= endp && Packed(a[head..tail])
    ensures verdict == Done ==> a[..] == old(a[..])
    ensures |k.answers| > 0 && k.answers[..|k.answers| - 1] == old(k.answers)
    ensures old(k.log) <= k.log
    ensures Handled(Vec(v), rest, k.answers[|k.answers| - 1], k.log[|old(k.log)|..], verdict, Decode(a[head..tail]))
    ensures forall i :: 0 <= i < head || endp <= i < a.Length ==> a[i] == old(a[i])
  {
    var wl, retry := k.Write(IovItems(v));
    if wl <= 0 {
      tail := Consumed(a, head, p, endp);
      return if wl < 0 && retry then Again else Hard, tail;
    }
    AdvanceDropsBytes(v, wl);
    var i, left := FirstUnsent(a, p, endp, wl);
    if i < a[p] / 2 {
      tail := CutVec(a, head, p, endp, i, left);
      PartlySent(Vec(v), rest, wl, Vec(Advance(v, wl)));
      return Again, tail;
    }
    return Done, head;
  }

  /** Advances the sendfile record at `p` past `wl` bytes and moves it to `head`. */
  method AdvanceSend(a: array<int>, head: nat, p: nat, endp: nat, wl: nat, ghost r: Record, ghost rest: seq<Record>)
      returns (tail: nat)
    requires head <= p < endp <= a.Length
    requires HeadOk(a[p..endp]) && Packed(a[p..endp]) && r.Send? && wl < r.len
    requires DecodeHead(a[p..endp]) == r && Decode(a[p..endp]) == [r] + rest
    modifies a
    ensures head < tail <= endp && Packed(a[head..tail])
    ensures Decode(a[head..tail]) == [Send(r.infd, r.off + wl, r.len - wl)] + rest
    ensures forall i :: 0 <= i < head || endp <= i < a.Length ==> a[i] == old(a[i])
  {
    ghost var s := a[p..endp];
    a[p + 3] := a[p + 3] + wl;
    a[p + 5] := a[p + 5] - wl;
    assert ([r] + rest)[1..] == rest;
    SendCut(s, wl, a[p..endp]);
    tail := Consumed(a, head, p, endp);
  }

  /** The case XF_SENDFILE. */
  method ExecuteSend(k: Kernel, a: array<int>, head: nat, p: nat, endp: nat, ghost r: Record, ghost rest: seq<Record>)
    returns (verdict: Verdict, tail: nat)
    requires head <= p < endp <= a.Length
    requires HeadOk(a[p..endp]) && Packed(a[p..endp]) && r.Send?
    requires DecodeHead(a[p..endp]) == r && Decode(a[p..endp]) == [r] + rest
    modifies a, k
    ensures head <= tail <= endp && Packed(a[head..tail])
    ensures verdict == Done ==> a[..] == old(a[..])
    ensures |k.answers| > 0 && k.answers[..|k.answers| - 1] == old(k.answers)
    ensures old(k.log) <= k.log
    ensures Handled(r, rest, k.answers[|k.answers| - 1], k.log[|old(k.log)|..], verdict, Decode(a[head..tail]))
    ensures forall i :: 0 <= i < head || endp <= i < a.Length ==> a[i] == old(a[i])
  {
    var infd, off, len := a[p + 1], a[p + 3], a[p + 5];
    assert RecordItems(r) == FileRange(infd, off, len);
    ghost var log0 := k.log;
    var wl, retry := k.Write(FileRange(infd, off, len));
    HandledSend(r, rest, k.answers[|k.answers| - 1], k.log[|log0|..], wl, retry);
    hide Handled, RecordItems, Items, FileRange;
    if wl <= 0 {
      tail := Consumed(a, head, p, endp);
      return if wl < 0 && retry then Again else Hard, tail;
    }
    if wl < len {
      tail := AdvanceSend(a, head, p, endp, wl, r, rest);
      return Again, tail;
    }
    return Done, head;
  }

  /** What each answer to a sendfile makes of its record. */
  lemma HandledSend(r: Record, rest: seq<Record>, k: Answer, sent: seq<Item>, wl: int, retry: bool)
    requires r.Send? && wl <= r.len
    requires k == if wl >= 0 then Took(r.len, wl) else if retry then Retry else Broken
    requires sent == RecordItems(r)[..if wl > 0 then wl else 0]
    ensures wl <= 0 ==> Handled(r, rest, k, sent, if wl < 0 && retry then Again else Hard, [r] + rest)
    ensures 0 < wl < r.len ==> Handled(r, rest, k, sent, Again, [Send(r.infd, r.off + wl, r.len - wl)] + rest)
    ensures wl == r.len > 0 ==> forall rs' :: Handled(r, rest, k, sent, Done, rs')
  {
    ItemsCons(r, rest);
    if 0 < wl < r.len {
      SendPartly(r, rest, wl);
    }
  }

  lemma SendPartly(r: Record, rest: seq<Record>, wl: nat)
    requires r.Send? && wl < r.len
    ensures RecordItems(r)[..wl] + Items([Send(r.infd, r.off + wl, r.len - wl)] + rest) == RecordItems(r) + Items(rest)
  {
    var r' := Send(r.infd, r.off + wl, r.len - wl);
    assert RecordItems(r') == RecordItems(r)[wl..];
    PartlySent(r, rest, wl, r');
  }

  /** Advancing a sendfile record in place changes only that record. */
  lemma SendCut(s: seq<int>, wl: nat, t: seq<int>)
    requires HeadOk(s) && Packed(s) && DecodeHead(s).Send? && wl < s[5]
    requires t == s[3 := s[3] + wl][5 := s[5] - wl]
    ensures Packed(t) && Decode(t) == [Send(s[1], s[3] + wl, s[5] - wl)] + Decode(s)[1..]
  {
    assert t[SIZEOF_SENDFILE..] == s[SIZEOF_SENDFILE..];
  }

  /** `rs'` is what remains of `rs` behind records none of which is empty data. */
  ghost predicate Passes(rs: seq<Record>, rs': seq<Record>) {
    |rs'| <= |rs| && rs[|rs| - |rs'|..] == rs' && NoEmptyData(rs[..|rs| - |rs'|])
  }

  lemma PassesEnds(rs: seq<Record>)
    ensures Passes(rs, rs)
    ensures Passes(rs, []) <==> NoEmptyData(rs)
  {
    assert rs[..|rs|] == rs;
  }

  lemma PassesOne(r: Record, rest: seq<Record>)
    ensures !EmptyData(r) ==> Passes([r] + rest, rest)
  {
    hide EmptyData;
    assert ([r] + rest)[1..] == rest;
  }

  lemma PassesTransitive(a: seq<Record>, b: seq<Record>, c: seq<Record>)
    requires Passes(a, b) && Passes(b, c)
    ensures Passes(a, c)
  {
    hide EmptyData;
    forall i | 0 <= i < |a| - |c|
      ensures !EmptyData(a[i])
    {
      if i < |a| - |b| {
        assert a[..|a| - |b|][i] == a[i];
      } else {
        assert b[..|b| - |c|][i - (|a| - |b|)] == a[i];
      }
    }
  }

  /** The first record is empty data. */
  ghost predicate StartsEmpty(rs: seq<Record>) {
    rs != [] && EmptyData(rs[0])
  }

  lemma EmptyDataAhead(rs: seq<Record>, rs': seq<Record>)
    requires Passes(rs, rs') && StartsEmpty(rs')
    ensures !NoEmptyData(rs)
  {
    assert rs'[0] == rs[|rs| - |rs'|];
  }

  /** One turn of the loop of `execute`, on the record at `p`. */
  method ExecuteOne(k: Kernel, a: array<int>, head: nat, p: nat, tail: nat)
    returns (verdict: Verdict, p': nat, tail': nat)
    requires head <= p < tail <= a.Length && Packed(a[p..tail])
    modifies a, k
    ensures head <= tail' <= tail && Packed(a[head..tail'])
    ensures forall i :: 0 <= i < head || tail <= i < a.Length ==> a[i] == old(a[i])
    ensures (k.answers == old(k.answers) && verdict == Done) ||
            (|k.answers| > 0 && k.answers[..|k.answers| - 1] == old(k.answers) &&
             Judge(k.answers[|k.answers| - 1]) == verdict)
    ensures verdict == Done ==> p < p' <= tail && a[..] == old(a[..]) && Packed(a[p'..tail])
    ensures verdict == Done ==> Moved(old(Decode(a[p..tail])), old(k.log), Decode(a[p'..tail]), k.log)
    ensures verdict == Done ==> Passes(old(Decode(a[p..tail])), Decode(a[p'..tail]))
    ensures verdict != Done ==>
              head < tail' && Moved(old(Decode(a[p..tail])), old(k.log), Decode(a[head..tail']), k.log)
    ensures verdict != Done && Full(k.answers[|k.answers| - 1]) ==> StartsEmpty(old(Decode(a[p..tail])))
  {
    hide Packed, Decode, Moved, Passes, EmptyData, StartsEmpty, Handled, Items;
    ghost var s, log := a[p..tail], k.log;
    HeadAndRest(s);
    ghost var r, rest := DecodeHead(s), Decode(s[RecordSize(s[0])..]);
    p' := p + RecordSize(a[p]);
    assert a[p'..tail] == s[RecordSize(s[0])..];
    if a[p] == XF_FINALIZE {
      k.Finalize(a[p + 1], a[p + 3]);
      verdict, tail' := Done, head;
      FinalizerMoves(r, rest, log, k.log);
      EmptyDecode(a[head..tail']);
    } else {
      if a[p] == XF_SENDFILE {
        verdict, tail' := ExecuteSend(k, a, head, p, tail, r, rest);
      } else {
        verdict, tail' := ExecuteVec(k, a, head, p, tail, DecodeHead(a[p..tail]).iov, rest);
      }
      HandledMoves(r, rest, k.answers[|k.answers| - 1], log, k.log, verdict, Decode(a[head..tail']));
      EmptyDecode(a[head..tail']);
    }
  }

  lemma HeadAndRest(s: seq<int>)
    requires Packed(s) && s != []
    ensures HeadOk(s) && 0 < RecordSize(s[0]) <= |s| && Packed(s[RecordSize(s[0])..])
    ensures Decode(s) == [DecodeHead(s)] + Decode(s[RecordSize(s[0])..])
  {
  }

  /** What one answer means for the whole queue. */
  lemma HandledMoves(r: Record, rest: seq<Record>, k: Answer, log: seq<Item>, log': seq<Item>, v: Verdict,
      rs': seq<Record>)
    requires log <= log' && Handled(r, rest, k, log'[|log|..], v, rs')
    ensures v == Judge(k)
    ensures v == Done ==> Moved([r] + rest, log, rest, log') && Passes([r] + rest, rest)
    ensures v != Done ==> rs' != [] && Moved([r] + rest, log, rs', log') && (Full(k) ==> StartsEmpty([r] + rest))
  {
    hide EmptyData, RecordItems;
    ItemsCons(r, rest);
    PassesOne(r, rest);
  }

  lemma FinalizerMoves(r: Record, rest: seq<Record>, log: seq<Item>, log': seq<Item>)
    requires r.Fin? && log' == log + RecordItems(r)
    ensures Moved([r] + rest, log, rest, log') && Passes([r] + rest, rest)
  {
    ItemsCons(r, rest);
    PassesOne(r, rest);
  }

  /** `xferimpl::execute`: hands the packed records of `a[head..tail]` to the kernel until it
      stops taking them, and leaves exactly the unsent remainder, packed, at `head`. */
  method Execute(k: Kernel, a: array<int>, head: nat, tail: nat) returns (cont: bool, tail': nat)
    requires head <= tail <= a.Length && Packed(a[head..tail])
    modifies a, k
    ensures head <= tail' <= tail && Packed(a[head..tail'])
    ensures forall i :: 0 <= i < head || tail <= i < a.Length ==> a[i] == old(a[i])
    ensures cont ==> head < tail'
    ensures old(k.answers) <= k.answers
    ensures Verdicts(k.answers[|old(k.answers)|..], VerdictOf(cont, head, tail'))
    ensures Executed(old(Decode(a[head..tail])), old(k.log), VerdictOf(cont, head, tail'),
                     Decode(a[head..tail']), k.log)
    // a kernel that takes all it is asked for finishes exactly the queues without empty data
    ensures (forall x :: x in k.answers[|old(k.answers)|..] ==> Full(x)) ==>
              (VerdictOf(cont, head, tail') == Done <==> NoEmptyData(old(Decode(a[head..tail]))))
  {
    hide Packed, Decode, Moved, Passes, StartsEmpty, NoEmptyData;
    ghost var rs0, log0 := Decode(a[head..tail]), k.log;
    MovedRefl(rs0, log0);
    PassesEnds(rs0);
    var p := head;
    while p < tail
      invariant head <= p <= tail
      invariant a[..] == old(a[..])
      invariant Packed(a[p..tail])
      invariant Moved(rs0, log0, Decode(a[p..tail]), k.log)
      invariant Passes(rs0, Decode(a[p..tail]))
      invariant old(k.answers) <= k.answers
      invariant forall i :: |old(k.answers)| <= i < |k.answers| ==> Judge(k.answers[i]) == Done
    {
      ghost var rs, log := Decode(a[p..tail]), k.log;
      var verdict;
      verdict, p, tail' := ExecuteOne(k, a, head, p, tail);
      if verdict != Done {
        MovedTransitive(rs0, log0, rs, log, Decode(a[head..tail']), k.log);
        EmptyDecode(a[head..tail']);
        assert k.answers[|k.answers| - 1] in k.answers[|old(k.answers)|..];
        if StartsEmpty(rs) {
          EmptyDataAhead(rs0, rs);
        }
        return verdict == Again, tail';
      }
      MovedTransitive(rs0, log0, rs, log, Decode(a[p..tail]), k.log);
      PassesTransitive(rs0, rs, Decode(a[p..tail]));
    }
    EmptyDecode(a[p..tail]);
    assert a[p..tail] == a[head..head];
    return false, head;
  }

  ghost function VerdictOf(cont: bool, head: nat, tail: nat): Verdict {
    if cont then Again else if tail == head then Done else Hard
  }
}
