/** The packed output records of `core::xfer`: their layout in memory and what they denote.

    Memory is an array of 4-byte slots, the common alignment of every record size.  An 8-byte
    field (a pointer, a length or a file offset) occupies two slots; its value is kept in the
    first of them and the second is never read, so all sizes are those of a 64-bit Linux. */
module XferRecords {
  const XF_SENDFILE := 1
  const XF_FINALIZE := 3

  const SIZEOF_TYPE := 1
  const SIZEOF_IOVEC := 4
  const SIZEOF_SENDFILE := 7  // tag, infd, padding, off, len
  const SIZEOF_FINALIZE := 5  // tag, finalize, user

  datatype Iovec = Iovec(base: int, len: nat)

  datatype Record =
    | Vec(iov: seq<Iovec>)
    | Send(infd: int, off: int, len: nat)
    | Fin(fn: int, user: int)

  /** What reaches the outside world: one byte of memory or of a file handed to the kernel,
      or one call of a finalizer. */
  datatype Item =
    | Mem(addr: int)
    | File(infd: int, at: int)
    | Finalized(fn: int, user: int)

  // ----- what records denote

  function Range(base: int, len: nat): seq<Item> {
    seq(len, i => Mem(base + i))
  }

  function FileRange(infd: int, off: int, len: nat): seq<Item> {
    seq(len, i => File(infd, off + i))
  }

  function IovItems(v: seq<Iovec>): seq<Item> {
    if v == [] then [] else Range(v[0].base, v[0].len) + IovItems(v[1..])
  }

  /** A finalizer that is a null pointer is skipped by the engine and denotes nothing. */
  function RecordItems(r: Record): seq<Item> {
    match r
    case Vec(iov) => IovItems(iov)
    case Send(infd, off, len) => FileRange(infd, off, len)
    case Fin(fn, user) => if fn == 0 then [] else [Finalized(fn, user)]
  }

  /** A data record of no bytes. */
  predicate EmptyData(r: Record) {
    !r.Fin? && RecordItems(r) == []
  }

  function Items(rs: seq<Record>): seq<Item> {
    if rs == [] then [] else RecordItems(rs[0]) + Items(rs[1..])
  }

  /** The finalizer calls among some items. */
  function Calls(s: seq<Item>): seq<Item> {
    if s == [] then [] else (if s[0].Finalized? then [s[0]] else []) + Calls(s[1..])
  }

  lemma ItemsCons(r: Record, rs: seq<Record>)
    ensures Items([r] + rs) == RecordItems(r) + Items(rs)
  {
    assert ([r] + rs)[1..] == rs;
  }

  lemma SplitPrefix(a: seq<Item>, b: seq<Item>, k: nat)
    requires k <= |a|
    ensures a[..k] + (a[k..] + b) == a + b
  {
  }

  lemma {:induction false} ItemsAppend(a: seq<Record>, b: seq<Record>)
    ensures Items(a + b) == Items(a) + Items(b)
  {
    hide RecordItems;
    if a == [] {
      assert a + b == b;
    } else {
      ItemsAppend(a[1..], b);
      assert a + b == [a[0]] + (a[1..] + b);
      ItemsCons(a[0], a[1..] + b);
    }
  }

  lemma {:induction false} CallsAppend(a: seq<Item>, b: seq<Item>)
    ensures Calls(a + b) == Calls(a) + Calls(b)
  {
    if a == [] {
      assert a + b == b;
    } else {
      CallsAppend(a[1..], b);
      assert a + b == [a[0]] + (a[1..] + b);
      CallsCons(a[0], a[1..] + b);
    }
  }

  lemma CallsCons(x: Item, s: seq<Item>)
    ensures Calls([x] + s) == (if x.Finalized? then [x] else []) + Calls(s)
  {
    assert ([x] + s)[1..] == s;
  }

  /** What is left of an iovec list once the kernel has taken `k` bytes of it. */
  function Advance(v: seq<Iovec>, k: nat): seq<Iovec> {
    if v == [] then []
    else if k >= v[0].len then Advance(v[1..], k - v[0].len)
    else [Iovec(v[0].base + k, v[0].len - k)] + v[1..]
  }

  /** Advancing by `k` removes exactly the first `k` bytes, and leaves an empty list exactly
      when all bytes are gone. */
  lemma {:induction false} AdvanceDropsBytes(v: seq<Iovec>, k: nat)
    requires k <= |IovItems(v)|
    ensures IovItems(Advance(v, k)) == IovItems(v)[k..]
    ensures Advance(v, k) == [] <==> k == |IovItems(v)|
  {
    if v == [] {
    } else if k >= v[0].len {
      AdvanceDropsBytes(v[1..], k - v[0].len);
    } else {
      assert Advance(v, k)[1..] == v[1..];
      assert Range(v[0].base, v[0].len)[k..] == Range(v[0].base + k, v[0].len - k);
    }
  }

  // ----- layout

  /** Size in slots of the record that starts with `tag`: every tag but the two constants
      is an iovec list whose length is the tag shifted right by one. */
  function RecordSize(tag: nat): nat {
    if tag == XF_SENDFILE then SIZEOF_SENDFILE
    else if tag == XF_FINALIZE then SIZEOF_FINALIZE
    else SIZEOF_TYPE + SIZEOF_IOVEC * (tag / 2)
  }

  /** The `i`-th iovec of the list record at the start of `s`. */
  function BaseSlot(s: seq<int>, i: nat): int
    requires SIZEOF_IOVEC * (i + 1) < |s|
  {
    s[SIZEOF_IOVEC * i + 1]
  }

  function LenSlot(s: seq<int>, i: nat): int
    requires SIZEOF_IOVEC * (i + 1) < |s|
  {
    s[SIZEOF_IOVEC * i + 3]
  }

  ghost predicate HeadOk(s: seq<int>) {
    && |s| > 0 && s[0] >= 0
    && RecordSize(s[0]) <= |s|
    && (s[0] == XF_SENDFILE ==> s[5] >= 0)
    && (s[0] != XF_SENDFILE && s[0] != XF_FINALIZE ==> forall i :: 0 <= i < s[0] / 2 ==> LenSlot(s, i) >= 0)
  }

  function DecodeHead(s: seq<int>): Record
    requires HeadOk(s)
  {
    if s[0] == XF_SENDFILE then Send(s[1], s[3], s[5])
    else if s[0] == XF_FINALIZE then Fin(s[1], s[3])
    else Vec(seq(s[0] / 2, i requires 0 <= i < s[0] / 2 => Iovec(BaseSlot(s, i), LenSlot(s, i))))
  }

  /** A buffer that is a whole number of records. */
  ghost predicate Packed(s: seq<int>) {
    s == [] || (HeadOk(s) && Packed(s[RecordSize(s[0])..]))
  }

  ghost function Decode(s: seq<int>): seq<Record>
    requires Packed(s)
  {
    if s == [] then [] else [DecodeHead(s)] + Decode(s[RecordSize(s[0])..])
  }

  lemma EmptyDecode(s: seq<int>)
    requires Packed(s)
    ensures Packed([]) && Decode([]) == []
    ensures Decode(s) == [] <==> s == []
  {
  }

  /** The head of a buffer is decoded the same whatever follows it. */
  lemma HeadExtends(a: seq<int>, b: seq<int>)
    requires HeadOk(a)
    ensures HeadOk(a + b) && DecodeHead(a + b) == DecodeHead(a)
  {
    assert (a + b)[0] == a[0];
    if a[0] != XF_SENDFILE && a[0] != XF_FINALIZE {
      forall i | 0 <= i < a[0] / 2
        ensures BaseSlot(a + b, i) == BaseSlot(a, i) && LenSlot(a + b, i) == LenSlot(a, i)
      {
      }
    }
  }

  lemma DecodeCons(s: seq<int>, rest: seq<int>)
    requires HeadOk(s) && Packed(rest) && rest == s[RecordSize(s[0])..]
    ensures Packed(s) && Decode(s) == [DecodeHead(s)] + Decode(rest)
  {
  }

  lemma HeadFits(s: seq<int>)
    requires HeadOk(s)
    ensures s[0] >= 0 && 0 < RecordSize(s[0]) <= |s|
  {
  }

  lemma {:induction false} DecodeAppend(a: seq<int>, b: seq<int>)
    requires Packed(a) && Packed(b)
    ensures Packed(a + b) && Decode(a + b) == Decode(a) + Decode(b)
    decreases |a|
  {
    hide HeadOk, DecodeHead, RecordSize;
    if a == [] {
      assert a + b == b;
    } else {
      HeadFits(a);
      var n := RecordSize(a[0]);
      assert (a + b)[n..] == a[n..] + b;
      DecodeAppend(a[n..], b);
      HeadExtends(a, b);
      DecodeCons(a + b, a[n..] + b);
    }
  }

  lemma DecodeOne(s: seq<int>)
    requires HeadOk(s) && |s| == RecordSize(s[0])
    ensures Packed(s) && Decode(s) == [DecodeHead(s)]
  {
    assert s[RecordSize(s[0])..] == [];
  }

  /** A record whose slots hold the fields of `v` decodes to that iovec list. */
  lemma DecodeVec(s: seq<int>, v: seq<Iovec>)
    requires |s| > 0 && s[0] >= 0 && s[0] != XF_SENDFILE && s[0] != XF_FINALIZE
    requires s[0] / 2 == |v| && |s| == RecordSize(s[0])
    requires forall i :: 0 <= i < |v| ==> BaseSlot(s, i) == v[i].base && LenSlot(s, i) == v[i].len
    ensures Packed(s) && Decode(s) == [Vec(v)]
  {
    assert HeadOk(s);
    DecodeOne(s);
    assert DecodeHead(s).iov == v;
  }
}
