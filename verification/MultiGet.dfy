/** `gate_memtext_retrieval`: how the response to get and gets is put together. */
module MultiGet {
  import opened Common
  import opened Decimal
  import opened MemtextParser

  const MULTI_MAX: nat := 1024

  /** The macro HEADER_SIZE. */
  function HeaderSize(keylen: nat): (size: nat)
    ensures size == keylen + 52
  {
    6 + keylen + 1 + 10 + 1 + 10 + 1 + 20 + 3
  }

  /** A value allocated by the library. */
  datatype Block = Block(address: nat, bytes: string)

  /** What fetching a key has left in its slot; None is a null pointer. */
  datatype Slot = Slot(val: Option<Block>, vallen: nat, flags: nat)

  /** The flags have 32 bits, lengths have 64. */
  predicate Fits(s: Slot) {
    s.flags < U32 && s.vallen < U64 && (s.val.Some? ==> |s.val.value.bytes| == s.vallen)
  }

  datatype Iovec = InHeader(from: nat, len: nat) | Value(block: Block, len: nat) | Static(text: string)

  /** The bytes an iovec points to, given the header buffer. */
  function Contents(v: Iovec, header: string): string {
    match v
    case InHeader(from, len) => if from + len <= |header| then header[from..from + len] else ""
    case Value(block, len) => if len <= |block.bytes| then block.bytes[..len] else ""
    case Static(text) => text
  }

  function Gather(vec: seq<Iovec>, header: string): string {
    if vec == [] then "" else Gather(vec[..|vec| - 1], header) + Contents(vec[|vec| - 1], header)
  }

  /** What is handed to the output engine; the finalizer frees `frees` and the header. */
  datatype Reply = Text(text: string) | Writev(vec: seq<Iovec>, header: string, frees: seq<Block>)

  function Sent(r: Reply): string {
    match r
    case Text(text) => text
    case Writev(vec, header, _) => Gather(vec, header)
  }

  // ----- what the library answers

  /** The errors of the library that have a reply of their own, and all others. */
  datatype Err = NotStored | Deleted | NotFound | ClientError | NoServers | ServerError | OtherError

  /** `send_error`. */
  function ErrorText(e: Err): string {
    match e
    case NotStored => "NOT_STORED\r\n"
    case Deleted => "DELETED\r\n"
    case NotFound => "NOT_FOUND\r\n"
    case ClientError => "CLIENT_ERROR\r\n"
    case NoServers => "SERVER_ERROR no server\r\n"
    case ServerError => "SERVER_ERROR\r\n"
    case OtherError => "SERVER_ERROR unknown error\r\n"
  }

  /** How one `memcached_fetch` ends. */
  datatype Fetch = Success | Missing | Ended | Failed(e: Err)

  datatype Answer = Answer(slot: Slot, end: Fetch)

  /** Lengths and flags are in range, and an answer that is no success has no value. */
  predicate Sane(a: Answer) {
    Fits(a.slot) && (a.end.Success? || a.slot.val.None?)
  }

  const EMPTY_SLOT := Slot(None, 0, 0)

  /** The slots after the fetch loop, which stops at the end of the answers or at a failure. */
  function FetchedSlots(answers: seq<Answer>): (slots: seq<Slot>)
    ensures |slots| == |answers|
  {
    if answers == [] then []
    else
      [answers[0].slot]
      + if Stops(answers[0]) then seq(|answers| - 1, _ => EMPTY_SLOT)
        else FetchedSlots(answers[1..])
  }

  /** The failure that stops it. */
  function Failure(answers: seq<Answer>): Option<Err> {
    if answers == [] || answers[0].end.Ended? then None
    else if answers[0].end.Failed? then Some(answers[0].end.e)
    else Failure(answers[1..])
  }

  /** The library goes on to answer number `i`: none in front of it ended the answers or failed. */
  predicate Reaches(answers: seq<Answer>, i: nat) {
    forall j :: 0 <= j < i < |answers| ==> answers[j].end.Success? || answers[j].end.Missing?
  }

  /** A slot holds the answer to its key, a missing key among others skipped, if the library
      went on to it, and nothing else. */
  lemma {:induction false} FetchedSlotAt(answers: seq<Answer>, i: nat)
    requires i < |answers|
    ensures FetchedSlots(answers)[i] == if Reaches(answers, i) then answers[i].slot else EMPTY_SLOT
    decreases |answers|
  {
    if i > 0 {
      if answers[0].end.Success? || answers[0].end.Missing? {
        FetchedSlotAt(answers[1..], i - 1);
        ReachesFurther(answers, i);
      }
    }
  }

  lemma ReachesFurther(answers: seq<Answer>, i: nat)
    requires 0 < i < |answers| && (answers[0].end.Success? || answers[0].end.Missing?)
    ensures Reaches(answers, i) <==> Reaches(answers[1..], i - 1)
  {
    if Reaches(answers[1..], i - 1) {
      forall j | 0 <= j < i ensures answers[j].end.Success? || answers[j].end.Missing? {
        if j > 0 {
          assert answers[1..][j - 1] == answers[j];
        }
      }
    }
  }

  /** The failure reported is that of the first answer that is neither a success nor a miss. */
  lemma {:induction false} FailureIsFirst(answers: seq<Answer>)
    ensures forall i :: 0 <= i < |answers| && Reaches(answers, i) && answers[i].end.Failed? ==>
              Failure(answers) == Some(answers[i].end.e)
    ensures Failure(answers).Some? ==> exists i :: 0 <= i < |answers| && Reaches(answers, i) && answers[i].end.Failed?
    decreases |answers|
  {
    if answers != [] {
      var rest := answers[1..];
      FailureIsFirst(rest);
      if answers[0].end.Success? || answers[0].end.Missing? {
        forall i | 0 < i < |answers| ensures Reaches(answers, i) <==> Reaches(rest, i - 1) {
          ReachesFurther(answers, i);
        }
        if Failure(rest).Some? {
          var k :| 0 <= k < |rest| && Reaches(rest, k) && rest[k].end.Failed?;
          assert Reaches(answers, k + 1) && answers[k + 1] == rest[k];
        }
        forall i | 0 <= i < |answers| && Reaches(answers, i) && answers[i].end.Failed?
          ensures Failure(answers) == Some(answers[i].end.e)
        {
          assert Reaches(rest, i - 1) && rest[i - 1] == answers[i];
        }
      } else if answers[0].end.Failed? {
        assert Reaches(answers, 0);
      }
    }
  }

  /** The slots as the answers say. */
  ghost predicate SlotsOf(answers: seq<Answer>, slots: seq<Slot>) {
    && |slots| == |answers|
    && forall i :: 0 <= i < |answers| ==> slots[i] == if Reaches(answers, i) then answers[i].slot else EMPTY_SLOT
  }

  lemma SlotsAreFetched(answers: seq<Answer>, slots: seq<Slot>)
    ensures SlotsOf(answers, slots) <==> slots == FetchedSlots(answers)
  {
    var fetched := FetchedSlots(answers);
    forall i | 0 <= i < |answers| ensures fetched[i] == if Reaches(answers, i) then answers[i].slot else EMPTY_SLOT {
      FetchedSlotAt(answers, i);
    }
  }

  lemma {:induction false} FetchedFits(answers: seq<Answer>)
    requires forall a :: a in answers ==> Sane(a)
    ensures forall s :: s in FetchedSlots(answers) ==> Fits(s)
    decreases |answers|
  {
    if answers != [] {
      FetchedFits(answers[1..]);
      assert answers[0] in answers;
    }
  }

  // ----- the response the protocol asks for

  function ValueBlock(key: string, bytes: string, flags: nat, cas: bool): string {
    "VALUE " + key + " " + Print(flags) + " " + Print(|bytes|) + (if cas then " 0" else "") + "\r\n" + bytes + "\r\n"
  }

  function Blocks(keys: seq<string>, slots: seq<Slot>, cas: bool): string
    requires |keys| >= |slots|
  {
    if slots == [] then ""
    else
      var i := |slots| - 1;
      Blocks(keys, slots[..i], cas)
      + if slots[i].val.Some? then ValueBlock(keys[i], slots[i].val.value.bytes, slots[i].flags, cas) else ""
  }

  function Response(keys: seq<string>, slots: seq<Slot>, cas: bool): string
    requires |keys| >= |slots|
  {
    Blocks(keys, slots, cas) + "END\r\n"
  }

  lemma {:induction false} BlocksDependOnKeys(keys: seq<string>, keys': seq<string>, slots: seq<Slot>, cas: bool)
    requires |slots| <= |keys| && |slots| <= |keys'| && forall i :: 0 <= i < |slots| ==> keys[i] == keys'[i]
    ensures Blocks(keys, slots, cas) == Blocks(keys', slots, cas)
    decreases |slots|
  {
    if slots != [] {
      BlocksDependOnKeys(keys, keys', slots[..|slots| - 1], cas);
    }
  }

  /** When one key is found among many, the response is the one to that key alone. */
  lemma {:induction false} OneFound(keys: seq<string>, slots: seq<Slot>, cas: bool, k: nat)
    requires |keys| >= |slots| > k && forall i :: 0 <= i < |slots| ==> (slots[i].val.Some? <==> i == k)
    ensures Response(keys, slots, cas) == Response([keys[k]], [slots[k]], cas)
    decreases |slots|
  {
    var n := |slots| - 1;
    assert Blocks([keys[k]], [slots[k]][..0], cas) == "";
    if k == n {
      NoneFound(keys, slots[..n], cas);
    } else {
      OneFound(keys, slots[..n], cas, k);
    }
  }

  lemma {:induction false} NoneFound(keys: seq<string>, slots: seq<Slot>, cas: bool)
    requires |keys| >= |slots| && forall i :: 0 <= i < |slots| ==> slots[i].val.None?
    ensures Blocks(keys, slots, cas) == ""
    decreases |slots|
  {
    if slots != [] {
      NoneFound(keys, slots[..|slots| - 1], cas);
    }
  }

  // ----- counting

  function Found(slots: seq<Slot>): nat {
    if slots == [] then 0 else Found(slots[..|slots| - 1]) + if slots[|slots| - 1].val.Some? then 1 else 0
  }

  function KeyLen(keys: seq<string>, slots: seq<Slot>): nat
    requires |keys| >= |slots|
  {
    if slots == [] then 0
    else KeyLen(keys, slots[..|slots| - 1]) + if slots[|slots| - 1].val.Some? then |keys[|slots| - 1]| else 0
  }

  /** Room for the headers of the slots in front of `n` leaves room for those behind. */
  lemma {:induction false} Room(keys: seq<string>, slots: seq<Slot>, n: nat)
    requires n <= |slots| <= |keys|
    ensures Found(slots[..n]) <= Found(slots) && KeyLen(keys, slots[..n]) <= KeyLen(keys, slots)
    ensures Found(slots) > 0 <==> exists i :: 0 <= i < |slots| && slots[i].val.Some?
    decreases |slots|
  {
    if n < |slots| {
      var front := slots[..|slots| - 1];
      Room(keys, front, n);
      assert front[..n] == slots[..n];
      if front != [] && exists i :: 0 <= i < |front| && front[i].val.Some? {
        var i :| 0 <= i < |front| && front[i].val.Some?;
        assert slots[i].val.Some?;
      }
    } else {
      assert slots[..n] == slots;
      if slots != [] {
        var front := slots[..n - 1];
        Room(keys, front, n - 1);
        assert front[..n - 1] == front;
        if Found(front) > 0 {
          var i :| 0 <= i < |front| && front[i].val.Some?;
          assert slots[i].val.Some?;
        }
      }
    }
  }

  lemma NextSlot(keys: seq<string>, slots: seq<Slot>, i: nat, cas: bool)
    requires i < |slots| <= |keys|
    ensures Found(slots[..i + 1]) == Found(slots[..i]) + if slots[i].val.Some? then 1 else 0
    ensures KeyLen(keys, slots[..i + 1]) == KeyLen(keys, slots[..i]) + if slots[i].val.Some? then |keys[i]| else 0
    ensures Blocks(keys, slots[..i + 1], cas) == Blocks(keys, slots[..i], cas)
         + if slots[i].val.Some? then ValueBlock(keys[i], slots[i].val.value.bytes, slots[i].flags, cas) else ""
  {
    assert slots[..i + 1][..i] == slots[..i];
  }

  // ----- headers

  /** memcpy to the write pointer. */
  method Put(buf: array<char>, p: nat, text: string) returns (p': nat)
    requires p + |text| <= buf.Length
    modifies buf
    ensures p' == p + |text| && buf[..p'] == old(buf[..p]) + text
  {
    forall i | 0 <= i < |text| {
      buf[p + i] := text[i];
    }
    p' := p + |text|;
  }

  /** sprintf, which also writes a terminator behind the text. */
  method PutString(buf: array<char>, p: nat, text: string) returns (p': nat)
    requires p + |text| + 1 <= buf.Length
    modifies buf
    ensures p' == p + |text| < buf.Length && buf[..p'] == old(buf[..p]) + text && buf[p'] == '\0'
  {
    p' := Put(buf, p, text);
    buf[p'] := '\0';
  }

  /** A header behind its "VALUE ". */
  function HeaderRest(key: string, flags: nat, vallen: nat, cas: bool): string {
    key + " " + Print(flags) + " " + Print(vallen) + (if cas then " 0" else "") + "\r\n"
  }

  lemma HeaderRestLength(key: string, flags: nat, vallen: nat, cas: bool)
    requires flags < U32 && vallen < U64
    ensures |Print(flags)| <= 10 && |Print(vallen)| <= 20
    ensures |HeaderRest(key, flags, vallen, cas)| <= |key| + 36
  {
    PowersOfTen();
    PrintLength(flags, 10);
    PrintLength(vallen, 20);
  }

  /** The statements from the label header_set to the line end. */
  method HeaderSet(buf: array<char>, p: nat, key: string, flags: nat, vallen: nat, cas: bool) returns (p': nat)
    requires flags < U32 && vallen < U64 && p + HeaderSize(|key|) - 8 <= buf.Length
    modifies buf
    ensures p' == p + |HeaderRest(key, flags, vallen, cas)| <= buf.Length
    ensures buf[..p'] == old(buf[..p]) + HeaderRest(key, flags, vallen, cas)
  {
    hide Print;
    HeaderRestLength(key, flags, vallen, cas);
    p' := Put(buf, p, key);
    p' := PutString(buf, p', " " + Print(flags) + " " + Print(vallen));
    if cas {
      p' := PutString(buf, p', " 0" + "\r\n");
    } else {
      p' := Put(buf, p', "\r\n");
    }
  }

  // ----- gathering

  const END_TEXT := "\r\nEND\r\n"

  /** The header iovecs lie in the first `n` bytes, those of values are the whole values, and the
      others are the text that ends a response. */
  predicate Within(vec: seq<Iovec>, n: nat) {
    forall v :: v in vec ==> InPlace(v, n)
  }

  predicate InPlace(v: Iovec, n: nat) {
    match v
    case InHeader(from, len) => from + len <= n
    case Value(block, len) => len == |block.bytes|
    case Static(text) => text == END_TEXT
  }

  lemma ContentsStay(v: Iovec, header: string, more: string)
    requires InPlace(v, |header|)
    ensures Contents(v, header + more) == Contents(v, header) && InPlace(v, |header + more|)
  {
    if v.InHeader? {
      assert (header + more)[v.from..v.from + v.len] == header[v.from..v.from + v.len];
    }
  }

  lemma {:induction false} GatherStays(vec: seq<Iovec>, header: string, more: string)
    requires Within(vec, |header|)
    ensures Gather(vec, header + more) == Gather(vec, header) && Within(vec, |header + more|)
    decreases |vec|
  {
    hide InPlace, Contents;
    forall v | v in vec ensures InPlace(v, |header + more|) {
      ContentsStay(v, header, more);
    }
    if vec != [] {
      var front, v := vec[..|vec| - 1], vec[|vec| - 1];
      assert forall w :: w in front ==> w in vec;
      GatherStays(front, header, more);
      assert v in vec;
      ContentsStay(v, header, more);
    }
  }

  lemma GatherSnoc(vec: seq<Iovec>, v: Iovec, header: string)
    ensures Gather(vec + [v], header) == Gather(vec, header) + Contents(v, header)
    ensures Within(vec, |header|) && InPlace(v, |header|) ==> Within(vec + [v], |header|)
  {
    hide InPlace, Contents;
    assert (vec + [v])[..|vec|] == vec;
  }

  /** One more header and its value. */
  lemma GatherValue(vec: seq<Iovec>, header: string, h: string, block: Block)
    requires Within(vec, |header|)
    ensures var vec' := vec + [InHeader(|header|, |h|), Value(block, |block.bytes|)];
            Gather(vec', header + h) == Gather(vec, header) + h + block.bytes && Within(vec', |header + h|)
  {
    hide Gather, Within;
    var a, b := InHeader(|header|, |h|), Value(block, |block.bytes|);
    GatherStays(vec, header, h);
    GatherSnoc(vec, a, header + h);
    GatherSnoc(vec + [a], b, header + h);
    assert vec + [a, b] == vec + [a] + [b];
    assert (header + h)[|header|..|header| + |h|] == h;
  }

  lemma GatherStatic(vec: seq<Iovec>, header: string, text: string)
    ensures Gather(vec + [Static(text)], header) == Gather(vec, header) + text
    ensures Within(vec, |header|) && text == END_TEXT ==> Within(vec + [Static(text)], |header|)
  {
    GatherSnoc(vec, Static(text), header);
  }

  // ----- the multi-key path

  function Frees(vals: seq<Option<Block>>): seq<Block> {
    if vals == [] then []
    else Frees(vals[..|vals| - 1]) + match vals[|vals| - 1] case None => [] case Some(b) => [b]
  }

  function Vals(slots: seq<Slot>): (vals: seq<Option<Block>>)
    ensures |vals| == |slots| && forall i :: 0 <= i < |slots| ==> vals[i] == slots[i].val
  {
    seq(|slots|, i requires 0 <= i < |slots| => slots[i].val)
  }

  lemma {:induction false} NothingBehind(keys: seq<string>, slots: seq<Slot>, n: nat)
    requires n <= |slots| <= |keys| && forall i :: n <= i < |slots| ==> slots[i].val.None?
    ensures Found(slots) == Found(slots[..n]) && KeyLen(keys, slots) == KeyLen(keys, slots[..n])
    decreases |slots|
  {
    if n == |slots| {
      assert slots[..n] == slots;
    } else {
      var front := slots[..|slots| - 1];
      NothingBehind(keys, front, n);
      assert front[..n] == slots[..n];
    }
  }

  /** The first `i` answers were fetched into `front`, and the loop goes on. */
  ghost predicate Fetching(keys: seq<string>, answers: seq<Answer>, i: nat, front: seq<Slot>, found: nat, keylen: nat)
    requires |keys| == |answers| && i <= |answers|
  {
    && |front| == i
    && FetchedSlots(answers) == front + FetchedSlots(answers[i..]) && Failure(answers) == Failure(answers[i..])
    && found == Found(front) && keylen == KeyLen(keys, front)
  }

  predicate Stops(a: Answer) {
    a.end.Ended? || a.end.Failed?
  }

  lemma CountOne(keys: seq<string>, front: seq<Slot>, slot: Slot)
    requires |front| < |keys|
    ensures Found(front + [slot]) == Found(front) + if slot.val.Some? then 1 else 0
    ensures KeyLen(keys, front + [slot]) == KeyLen(keys, front) + if slot.val.Some? then |keys[|front|]| else 0
  {
    assert (front + [slot])[..|front|] == front;
  }

  lemma FetchGoesOn(keys: seq<string>, answers: seq<Answer>, i: nat, front: seq<Slot>, found: nat, keylen: nat)
    requires |keys| == |answers| && i < |answers| && Fetching(keys, answers, i, front, found, keylen)
      && !Stops(answers[i])
    ensures var s := answers[i].slot;
            Fetching(keys, answers, i + 1, front + [s], found + (if s.val.Some? then 1 else 0),
                     keylen + if s.val.Some? then |keys[i]| else 0)
  {
    hide FetchedSlots, Failure, Found, KeyLen, Stops;
    NextAnswer(answers, i);
    CountOne(keys, front, answers[i].slot);
    Assoc(front, [answers[i].slot], FetchedSlots(answers[i + 1..]));
  }

  lemma NextAnswer(answers: seq<Answer>, i: nat)
    requires i < |answers| && !Stops(answers[i])
    ensures FetchedSlots(answers[i..]) == [answers[i].slot] + FetchedSlots(answers[i + 1..])
    ensures Failure(answers[i..]) == Failure(answers[i + 1..])
  {
    assert answers[i..][0] == answers[i] && answers[i..][1..] == answers[i + 1..];
  }

  lemma FetchStops(keys: seq<string>, answers: seq<Answer>, i: nat, front: seq<Slot>, found: nat, keylen: nat,
      slots: seq<Slot>)
    requires |keys| == |answers| == |slots| && i < |answers| && Fetching(keys, answers, i, front, found, keylen)
    requires Stops(answers[i]) && answers[i].slot.val.None?
    requires slots[..i] == front && slots[i] == answers[i].slot
    requires forall j :: i < j < |slots| ==> slots[j] == EMPTY_SLOT
    ensures slots == FetchedSlots(answers) && found == Found(slots) && keylen == KeyLen(keys, slots)
    ensures Failure(answers) == if answers[i].end.Failed? then Some(answers[i].end.e) else None
  {
    assert answers[i..][0] == answers[i];
    assert slots[i..] == [slots[i]] + seq(|slots| - i - 1, _ => EMPTY_SLOT);
    assert slots == front + slots[i..];
    NothingBehind(keys, slots, i);
  }

  lemma FetchBegins(keys: seq<string>, answers: seq<Answer>)
    requires |keys| == |answers|
    ensures Fetching(keys, answers, 0, [], 0, 0)
  {
    assert answers[0..] == answers;
  }

  lemma FetchEnds(keys: seq<string>, answers: seq<Answer>, slots: seq<Slot>, found: nat, keylen: nat)
    requires |keys| == |answers| && Fetching(keys, answers, |answers|, slots, found, keylen)
    ensures slots == FetchedSlots(answers) && Failure(answers) == None
    ensures found == Found(slots) && keylen == KeyLen(keys, slots)
  {
    assert answers[|answers|..] == [];
  }

  /** The fetch loop: fills the slots, and counts the values found and the length of their keys. */
  method FetchAll(keys: seq<string>, answers: seq<Answer>, multi: array<Slot>)
    returns (failed: Option<Err>, found: nat, keylen: nat)
    requires |keys| == |answers| == multi.Length && forall a :: a in answers ==> Sane(a)
    requires forall i :: 0 <= i < multi.Length ==> multi[i] == EMPTY_SLOT
    modifies multi
    ensures multi[..] == FetchedSlots(answers) && failed == Failure(answers)
    ensures found == Found(multi[..]) && keylen == KeyLen(keys, multi[..])
  {
    hide Fetching, FetchedSlots, Failure, Found, KeyLen;
    found, keylen := 0, 0;
    FetchBegins(keys, answers);
    for i := 0 to multi.Length
      invariant forall j :: i <= j < multi.Length ==> multi[j] == EMPTY_SLOT
      invariant Fetching(keys, answers, i, multi[..i], found, keylen)
    {
      var a := answers[i];
      assert a in answers;
      ghost var front := multi[..i];
      multi[i] := a.slot;
      assert multi[..i] == front && multi[..i + 1] == front + [a.slot];
      if Stops(a) {
        FetchStops(keys, answers, i, front, found, keylen, multi[..]);
        return if a.end.Failed? then Some(a.end.e) else None, found, keylen;
      }
      FetchGoesOn(keys, answers, i, front, found, keylen);
      if a.slot.val.Some? {
        found, keylen := found + 1, keylen + |keys[i]|;
      }
    }
    assert multi[..multi.Length] == multi[..];
    FetchEnds(keys, answers, multi[..], found, keylen);
    failed := None;
  }

  /** The written headers and iovecs are those of the slots in front of `i`. */
  ghost predicate Filled(keys: seq<string>, slots: seq<Slot>, cas: bool, i: nat, header: string, vec: seq<Iovec>)
    requires i <= |slots| <= |keys|
  {
    && |vec| == 2 * Found(slots[..i])
    && |header| <= Found(slots[..i]) * HeaderSize(0) + KeyLen(keys, slots[..i])
    && Within(vec, |header|)
    && Gather(vec, header) + (if vec == [] then "" else "\r\n") == Blocks(keys, slots[..i], cas)
  }

  lemma FilledAtStart(keys: seq<string>, slots: seq<Slot>, cas: bool)
    requires |slots| <= |keys|
    ensures Filled(keys, slots, cas, 0, "", [])
  {
    assert slots[..0] == [];
  }

  lemma FilledSkips(keys: seq<string>, slots: seq<Slot>, cas: bool, i: nat, header: string, vec: seq<Iovec>)
    requires i < |slots| <= |keys| && slots[i].val.None? && Filled(keys, slots, cas, i, header, vec)
    ensures Filled(keys, slots, cas, i + 1, header, vec)
  {
    NextSlot(keys, slots, i, cas);
  }

  /** A header with its beginning and its value make the block of the protocol. */
  lemma BlockOf(key: string, b: string, flags: nat, cas: bool)
    ensures "VALUE " + HeaderRest(key, flags, |b|, cas) + b + "\r\n" == ValueBlock(key, b, flags, cas)
  {
    hide Print;
  }

  lemma Joined(gathered: string, rest: string, b: string)
    ensures gathered + ("\r\nVALUE " + rest) + b + "\r\n" == gathered + "\r\n" + ("VALUE " + rest + b + "\r\n")
  {
    assert "\r\nVALUE " == "\r\n" + "VALUE ";
  }

  /** The beginning of a header: the line end of the value in front of it belongs to it. */
  function Begin(vec: seq<Iovec>): string {
    if vec == [] then "VALUE " else "\r\nVALUE "
  }

  /** What is gathered grows by one block. */
  lemma BlockGathered(gathered: string, begin: string, key: string, b: string, flags: nat, cas: bool, first: bool)
    requires begin == if first then "VALUE " else "\r\nVALUE "
    ensures gathered + (begin + HeaderRest(key, flags, |b|, cas)) + b + "\r\n"
         == gathered + (if first then "" else "\r\n") + ValueBlock(key, b, flags, cas)
  {
    hide HeaderRest, ValueBlock;
    var rest := HeaderRest(key, flags, |b|, cas);
    BlockOf(key, b, flags, cas);
    if first {
      assert gathered + ("VALUE " + rest) + b + "\r\n" == gathered + "" + ("VALUE " + rest + b + "\r\n");
    } else {
      Joined(gathered, rest, b);
    }
  }

  lemma FilledGrows(keys: seq<string>, slots: seq<Slot>, cas: bool, i: nat, header: string, vec: seq<Iovec>)
    requires i < |slots| <= |keys| && Filled(keys, slots, cas, i, header, vec)
    requires slots[i].val.Some? && Fits(slots[i])
    ensures var h := Begin(vec) + HeaderRest(keys[i], slots[i].flags, slots[i].vallen, cas);
            Filled(keys, slots, cas, i + 1, header + h,
                   vec + [InHeader(|header|, |h|), Value(slots[i].val.value, slots[i].vallen)])
  {
    hide HeaderRest, ValueBlock, Gather, Within, Found, KeyLen, Blocks;
    var b := slots[i].val.value;
    var rest := HeaderRest(keys[i], slots[i].flags, slots[i].vallen, cas);
    NextSlot(keys, slots, i, cas);
    GatherValue(vec, header, Begin(vec) + rest, b);
    HeaderRestLength(keys[i], slots[i].flags, slots[i].vallen, cas);
    BlockGathered(Gather(vec, header), Begin(vec), keys[i], b.bytes, slots[i].flags, cas, vec == []);
  }

  /** There is room for one more header and the terminator sprintf leaves behind it. */
  lemma RoomForOne(keys: seq<string>, slots: seq<Slot>, cas: bool, i: nat, header: string, vec: seq<Iovec>)
    requires i < |slots| <= |keys| && slots[i].val.Some? && Filled(keys, slots, cas, i, header, vec)
    ensures |header| + HeaderSize(|keys[i]|) <= Found(slots) * HeaderSize(0) + KeyLen(keys, slots)
    ensures |vec| + 2 <= 2 * Found(slots)
  {
    NextSlot(keys, slots, i, cas);
    Room(keys, slots, i + 1);
  }

  /** From the label header_set to the end of the loop body. */
  method ValueSet(buf: array<char>, header: nat, p: nat, vec: array<Iovec>, pv: nat,
                  key: string, slot: Slot, val: Block, cas: bool) returns (p': nat, pv': nat)
    requires header <= p && p + HeaderSize(|key|) - 8 <= buf.Length && pv + 2 <= vec.Length
    requires slot.flags < U32 && slot.vallen < U64
    modifies buf, vec
    ensures p' == p + |HeaderRest(key, slot.flags, slot.vallen, cas)| <= buf.Length && pv' == pv + 2
    ensures buf[..p'] == old(buf[..p]) + HeaderRest(key, slot.flags, slot.vallen, cas)
    ensures vec[..pv'] == old(vec[..pv]) + [InHeader(header, p' - header), Value(val, slot.vallen)]
  {
    hide HeaderRest;
    p' := HeaderSet(buf, p, key, slot.flags, slot.vallen, cas);
    vec[pv] := InHeader(header, p' - header);
    vec[pv + 1] := Value(val, slot.vallen);
    pv' := pv + 2;
  }

  /** The body of the loop behind its test, with the beginning that the entry to it writes. */
  method OneValue(keys: seq<string>, slots: seq<Slot>, carry: seq<Option<Block>>, cas: bool, i: nat,
                  buf: array<char>, p: nat, vec: array<Iovec>, pv: nat, begin: string) returns (p': nat, pv': nat)
    requires i < |slots| == |keys| && carry == Vals(slots) && carry[i].Some? && Fits(slots[i])
    requires buf.Length == Found(slots) * HeaderSize(0) + KeyLen(keys, slots) && vec.Length == Found(slots) * 2 + 1
    requires p <= buf.Length && pv <= vec.Length && Filled(keys, slots, cas, i, buf[..p], vec[..pv])
    requires begin == Begin(vec[..pv])
    modifies buf, vec
    ensures p' <= buf.Length && 0 < pv' < vec.Length && Filled(keys, slots, cas, i + 1, buf[..p'], vec[..pv'])
    ensures exists h, v ::
              vec[..pv'] == old(vec[..pv]) + [h, v] && h.InHeader? && v == Value(carry[i].value, slots[i].vallen)
  {
    hide Filled, HeaderRest;
    ghost var header, front := buf[..p], vec[..pv];
    RoomForOne(keys, slots, cas, i, header, front);
    FilledGrows(keys, slots, cas, i, header, front);
    p' := Put(buf, p, begin);
    p', pv' := ValueSet(buf, p, p', vec, pv, keys[i], slots[i], carry[i].value, cas);
    Assoc(header, begin, HeaderRest(keys[i], slots[i].flags, slots[i].vallen, cas));
  }

  /** The values iovecs point to are the ones the finalizer will free. */
  ghost predicate Held(vec: seq<Iovec>, carry: seq<Option<Block>>) {
    forall v :: v in vec && v.Value? ==> Some(v.block) in carry
  }

  /** The rendering loop, entered in its middle for the first value found.  The headers take no
      more than the space computed for them, and every iovec is filled. */
  method Render(keys: seq<string>, slots: seq<Slot>, carry: seq<Option<Block>>, cas: bool, found: nat, keylen: nat)
    returns (vec: seq<Iovec>, header: string)
    requires |keys| == |slots| && carry == Vals(slots) && forall s :: s in slots ==> Fits(s)
    requires found == Found(slots) > 0 && keylen == KeyLen(keys, slots)
    ensures |vec| == found * 2 + 1 && |header| <= found * 52 + keylen
    ensures Gather(vec, header) == Response(keys, slots, cas) && Held(vec, carry) && Within(vec, |header|)
  {
    hide Filled, HeaderRest, Response;
    var buf := new char[found * HeaderSize(0) + keylen];
    var vecs := new Iovec[found * 2 + 1](_ => Static(""));
    var i := 0;
    FilledAtStart(keys, slots, cas);
    assert slots[..|slots|] == slots;
    while i < |keys| && carry[i].None?
      invariant i <= |slots| && Found(slots[..i]) == 0 && Filled(keys, slots, cas, i, "", [])
    {
      FilledSkips(keys, slots, cas, i, "", []);
      i := i + 1;
    }
    assert buf[..0] == "" && vecs[..0] == [];
    var p: nat, pv: nat := OneValue(keys, slots, carry, cas, i, buf, 0, vecs, 0, "VALUE ");
    i := i + 1;
    while i < |keys|
      invariant i <= |slots| && p <= buf.Length && 0 < pv < vecs.Length
      invariant Filled(keys, slots, cas, i, buf[..p], vecs[..pv]) && Held(vecs[..pv], carry)
    {
      if carry[i].Some? {
        p, pv := OneValue(keys, slots, carry, cas, i, buf, p, vecs, pv, "\r\nVALUE ");
      } else {
        FilledSkips(keys, slots, cas, i, buf[..p], vecs[..pv]);
      }
      i := i + 1;
    }
    ghost var front := vecs[..pv];
    vecs[pv] := Static(END_TEXT);
    vec, header := vecs[..], buf[..p];
    FilledAtEnd(keys, slots, cas, header, front, vec);
  }

  /** The last iovec, which ends the last value and the response. */
  lemma FilledAtEnd(keys: seq<string>, slots: seq<Slot>, cas: bool, header: string, front: seq<Iovec>, vec: seq<Iovec>)
    requires |slots| <= |keys| && Filled(keys, slots, cas, |slots|, header, front) && front != []
    requires |vec| == Found(slots) * 2 + 1 && |front| < |vec| && vec[..|front|] == front
      && vec[|front|] == Static(END_TEXT)
    ensures |header| <= Found(slots) * HeaderSize(0) + KeyLen(keys, slots)
    ensures Gather(vec, header) == Response(keys, slots, cas) && Within(vec, |header|)
    ensures vec == front + [Static(END_TEXT)]
  {
    hide Found, KeyLen, Blocks, Gather, Within;
    assert slots[..|slots|] == slots;
    assert vec == front + [Static(END_TEXT)];
    GatherStatic(front, header, END_TEXT);
    assert END_TEXT == "\r\n" + "END\r\n";
    Assoc(Gather(front, header), "\r\n", "END\r\n");
  }

  // ----- requests

  /** `multi_set_carry`: takes the values out of the slots, so that each has one owner. */
  method Carry(multi: array<Slot>) returns (carry: seq<Option<Block>>)
    modifies multi
    ensures carry == Vals(old(multi[..])) && Frees(Vals(multi[..])) == []
    ensures forall i :: 0 <= i < multi.Length ==> multi[i] == old(multi[i]).(val := None)
  {
    carry := Vals(multi[..]);
    for i := 0 to multi.Length
      invariant forall j :: 0 <= j < i ==> multi[j] == old(multi[j]).(val := None)
      invariant forall j :: i <= j < multi.Length ==> multi[j] == old(multi[j])
    {
      multi[i] := multi[i].(val := None);
    }
    NothingFreed(Vals(multi[..]));
  }

  lemma {:induction false} NothingFreed(vals: seq<Option<Block>>)
    requires forall i :: 0 <= i < |vals| ==> vals[i] == None
    ensures Frees(vals) == []
    decreases |vals|
  {
    if vals != [] {
      NothingFreed(vals[..|vals| - 1]);
    }
  }

  /** The single-key path.  Its finalizer frees the header; the value it fetched is freed by
      nobody. */
  method GetSingle(key: string, slot: Slot, err: Option<Err>, cas: bool) returns (reply: Reply)
    requires Fits(slot)
    ensures if err.Some? && err != Some(NotFound) then reply == Text(ErrorText(err.value))
            else Sent(reply) == Response([key], [slot], cas) && (reply.Writev? <==> slot.val.Some?)
    ensures reply.Writev? ==> |reply.vec| == 3 && |reply.header| <= 52 + |key| && reply.frees == []
    ensures reply.Writev? ==> Within(reply.vec, |reply.header|)
  {
    if err.Some? && err != Some(NotFound) {
      return Text(ErrorText(err.value));
    }
    reply := SingleValue(key, slot, cas);
  }

  /** The same behind the test of the error. */
  method SingleValue(key: string, slot: Slot, cas: bool) returns (reply: Reply)
    requires Fits(slot)
    ensures Sent(reply) == Response([key], [slot], cas) && (reply.Writev? <==> slot.val.Some?)
    ensures reply.Writev? ==> |reply.vec| == 3 && |reply.header| <= 52 + |key| && reply.frees == []
    ensures reply.Writev? ==> Within(reply.vec, |reply.header|)
  {
    hide Filled, HeaderRest, ValueBlock;
    assert Blocks([key], [slot][..0], cas) == "" && Found([slot][..0]) == 0 && KeyLen([key], [slot][..0]) == 0;
    if slot.val.None? {
      return Text("END\r\n");
    }
    var buf := new char[HeaderSize(|key|)];
    var vec := new Iovec[3](_ => Static(""));
    var p := Put(buf, 0, "VALUE ");
    var q, n := ValueSet(buf, 0, p, vec, 0, key, slot, slot.val.value, cas);
    ghost var front := vec[..n];
    vec[n] := Static(END_TEXT);
    reply := Writev(vec[..], buf[..q], []);
    FilledAtStart([key], [slot], cas);
    FilledGrows([key], [slot], cas, 0, "", []);
    assert buf[..q] == "" + ("VALUE " + HeaderRest(key, slot.flags, slot.vallen, cas));
    FilledAtEnd([key], [slot], cas, reply.header, front, reply.vec);
  }

  /** What is sent to a request for many keys: the reply to too many of them, to an error of
      `memcached_mget`, or to the first failing fetch; else the response to the slots. */
  ghost predicate Replies(keys: seq<string>, mget: Option<Err>, answers: seq<Answer>, cas: bool, reply: Reply)
    requires |keys| == |answers|
  {
    if |keys| > 1024 then reply == Text("CLIENT_ERROR\r\n")
    else if mget.Some? then reply == Text(ErrorText(mget.value))
    else
      && (forall i :: 0 <= i < |answers| && Reaches(answers, i) && answers[i].end.Failed? ==>
            reply == Text(ErrorText(answers[i].end.e)))
      && (NoneFails(answers) ==> forall slots :: SlotsOf(answers, slots) ==> Sent(reply) == Response(keys, slots, cas))
  }

  ghost predicate NoneFails(answers: seq<Answer>) {
    forall i :: 0 <= i < |answers| && Reaches(answers, i) ==> !answers[i].end.Failed?
  }

  lemma RepliesAsFetched(keys: seq<string>, answers: seq<Answer>, cas: bool, reply: Reply)
    requires |keys| == |answers| <= 1024
    requires if Failure(answers).Some? then reply == Text(ErrorText(Failure(answers).value))
             else Sent(reply) == Response(keys, FetchedSlots(answers), cas)
    ensures Replies(keys, None, answers, cas, reply)
  {
    hide SlotsOf, Response, Sent, ErrorText, FetchedSlots, Failure;
    FailureIsFirst(answers);
    forall slots | SlotsOf(answers, slots) ensures slots == FetchedSlots(answers) {
      SlotsAreFetched(answers, slots);
    }
  }

  /** The multi-key path; `multi` are its slots, still empty.  When values are sent, they move to
      the finalizer's carry, which frees each of them once, and no slot frees any; else the
      slots free what they have. */
  method GetMulti(keys: seq<string>, mget: Option<Err>, answers: seq<Answer>, multi: array<Slot>, cas: bool)
    returns (reply: Reply)
    requires |keys| == |answers| == multi.Length && forall a :: a in answers ==> Sane(a)
    requires forall i :: 0 <= i < multi.Length ==> multi[i] == EMPTY_SLOT
    modifies multi
    ensures Replies(keys, mget, answers, cas, reply)
    ensures reply.Writev? ==> |keys| <= 1024 && mget.None?
    ensures reply.Writev? ==>
              var slots := FetchedSlots(answers);
              && |reply.vec| == Found(slots) * 2 + 1
              && |reply.header| <= Found(slots) * 52 + KeyLen(keys, slots)
              && reply.frees == Frees(Vals(slots)) && Frees(Vals(multi[..])) == []
              && Held(reply.vec, Vals(slots)) && Within(reply.vec, |reply.header|)
    ensures !reply.Writev? ==>
              multi[..] == if |keys| > MULTI_MAX || mget.Some? then old(multi[..]) else FetchedSlots(answers)
  {
    hide Response, Replies;
    RepliesToErrors(keys, mget, answers, cas);
    if |keys| > MULTI_MAX {
      return Text(ErrorText(ClientError));
    }
    if mget.Some? {
      return Text(ErrorText(mget.value));
    }
    var failed, found, keylen := FetchAll(keys, answers, multi);
    if failed.Some? {
      reply := Text(ErrorText(failed.value));
      RepliesAsFetched(keys, answers, cas, reply);
      return;
    }
    var slots := multi[..];
    FetchedFits(answers);
    if found == 0 {
      NothingFound(keys, slots, cas);
      reply := Text("END\r\n");
      RepliesAsFetched(keys, answers, cas, reply);
      return;
    }
    var carry := Carry(multi);
    var vec, header := Render(keys, slots, carry, cas, found, keylen);
    reply := Writev(vec, header, Frees(carry));
    RepliesAsFetched(keys, answers, cas, reply);
  }

  lemma RepliesToErrors(keys: seq<string>, mget: Option<Err>, answers: seq<Answer>, cas: bool)
    requires |keys| == |answers|
    ensures |keys| > MULTI_MAX ==> Replies(keys, mget, answers, cas, Text(ErrorText(ClientError)))
    ensures |keys| <= MULTI_MAX && mget.Some? ==> Replies(keys, mget, answers, cas, Text(ErrorText(mget.value)))
  {
  }

  lemma NothingFound(keys: seq<string>, slots: seq<Slot>, cas: bool)
    requires |keys| >= |slots| && Found(slots) == 0
    ensures Response(keys, slots, cas) == "END\r\n"
  {
    Room(keys, slots, 0);
    NoneFound(keys, slots, cas);
  }

  /** `request_get` and `request_gets`: whichever path is taken, the response is the protocol's,
      or the reply to the error the library reported.  `freed` are the values that the finalizer
      of the reply and the slots free: every value fetched for many keys, once; and none that was
      fetched for a single one. */
  method Get(keys: seq<string>, slot: Slot, err: Option<Err>, mget: Option<Err>, answers: seq<Answer>, gets: bool)
    returns (reply: Reply, ghost freed: seq<Block>)
    requires |keys| == |answers| && Fits(slot) && forall a :: a in answers ==> Sane(a)
    ensures |keys| == 1 ==>
              if err.Some? && err != Some(NotFound) then reply == Text(ErrorText(err.value))
              else Sent(reply) == Response(keys, [slot], gets)
    ensures |keys| != 1 ==> Replies(keys, mget, answers, gets, reply)
    ensures reply.Writev? ==> Within(reply.vec, |reply.header|) && reply.frees == freed
    ensures |keys| == 1 && err.None? ==> (reply.Writev? <==> slot.val.Some?)
    ensures |keys| == 1 ==> freed == [] && (freed == Frees([slot.val]) <==> slot.val.None?)
    ensures |keys| != 1 ==>
              freed == if |keys| <= MULTI_MAX && mget.None? then Frees(Vals(FetchedSlots(answers))) else []
  {
    hide Response, Found, KeyLen, FetchedSlots, Sent, Within, Held, ErrorText, Frees, Vals, Replies;
    if |keys| == 1 {
      assert keys == [keys[0]];
      reply := GetSingle(keys[0], slot, err, gets);
      freed := [];
      OneValueHeld(slot.val);
    } else {
      var multi := new Slot[|keys|](_ => EMPTY_SLOT);
      EmptySlotsHoldNothing(multi[..]);
      reply := GetMulti(keys, mget, answers, multi, gets);
      // the destructors of the slots run when the request is over
      ghost var held := Frees(Vals(multi[..]));
      freed := if reply.Writev? then reply.frees + held else held;
      assert reply.Writev? ==> reply.frees + [] == reply.frees;
    }
  }

  lemma EmptySlotsHoldNothing(slots: seq<Slot>)
    requires forall i :: 0 <= i < |slots| ==> slots[i] == EMPTY_SLOT
    ensures Frees(Vals(slots)) == []
  {
    NothingFreed(Vals(slots));
  }

  lemma OneValueHeld(val: Option<Block>)
    ensures Frees([val]) == if val.Some? then [val.value] else []
  {
    assert [val][..0] == [];
  }

  /** A value that is sent and never freed: the one found for a single key. */
  method LeakingGet() returns (reply: Reply, ghost leaked: Block, ghost freed: seq<Block>)
    ensures Sent(reply) == Response(["k"], [Slot(Some(leaked), 1, 0)], false)
    ensures reply.Writev? && leaked !in reply.frees && leaked !in freed
  {
    var slot := Slot(Some(Block(1, "v")), 1, 0);
    leaked := Block(1, "v");
    reply, freed := Get(["k"], slot, None, None, [Answer(slot, Success)], false);
  }

  // ----- on the wire

  /** Exactly the blocks of a list are freed, each as often as it is in it. */
  lemma {:induction false} FreesEach(vals: seq<Option<Block>>, b: Block)
    ensures multiset(Frees(vals))[b] == multiset(vals)[Some(b)]
    decreases |vals|
  {
    hide Frees;
    if vals == [] {
      FreesNothing();
    } else {
      var front, v := vals[..|vals| - 1], vals[|vals| - 1];
      FreesEach(front, b);
      FreesSnoc(front, v);
      assert vals == front + [v];
    }
  }

  lemma FreesNothing()
    ensures Frees([]) == []
  {
  }

  lemma FreesSnoc(vals: seq<Option<Block>>, v: Option<Block>)
    ensures Frees(vals + [v]) == Frees(vals) + match v case None => [] case Some(b) => [b]
  {
    assert (vals + [v])[..|vals|] == vals;
  }

  lemma BlocksSnoc(keys: seq<string>, slots: seq<Slot>, s: Slot, cas: bool)
    requires |keys| > |slots|
    ensures Blocks(keys, slots + [s], cas) == Blocks(keys, slots, cas)
         + if s.val.Some? then ValueBlock(keys[|slots|], s.val.value.bytes, s.flags, cas) else ""
  {
    assert (slots + [s])[..|slots|] == slots;
  }

  /** The blocks of found keys, in the order of the keys; nothing stands for a missing one. */
  lemma BlocksInOrder(keys: seq<string>, x: Slot, missing: Slot, z: Slot, cas: bool)
    requires |keys| == 3 && x.val.Some? && missing.val.None? && z.val.Some?
    ensures Response(keys, [x, missing, z], cas)
         == ValueBlock(keys[0], x.val.value.bytes, x.flags, cas) + ValueBlock(keys[2], z.val.value.bytes, z.flags, cas)
            + "END\r\n"
  {
    hide Blocks, ValueBlock;
    NothingBlocks(keys);
    BlocksSnoc(keys, [], x, cas);
    BlocksSnoc(keys, [x], missing, cas);
    BlocksSnoc(keys, [x, missing], z, cas);
    assert [] + [x] == [x] && [x] + [missing] == [x, missing] && [x, missing] + [z] == [x, missing, z];
  }

  lemma NothingBlocks(keys: seq<string>)
    ensures Blocks(keys, [], false) == "" && Blocks(keys, [], true) == ""
  {
  }

  /** A block of gets, and one of get, for flags 7 and a value of one byte. */
  lemma BlockOfGets()
    ensures ValueBlock("k", "v", 7, true) == "VALUE k 7 1 0\r\nv\r\n"
  {
    hide Print;
    PrintSome();
  }

  lemma BlockOfGet()
    ensures ValueBlock("k", "v", 7, false) == "VALUE k 7 1\r\nv\r\n"
  {
    hide Print;
    PrintSome();
  }

  lemma PrintSome()
    ensures Print(1) == "1" && Print(7) == "7"
  {
  }

  /** The line of each error, by its first letter and its length; they all differ. */
  lemma ErrorLine(e: Err)
    ensures var t := ErrorText(e);
            && |t| > 2 && t[|t| - 2] == '\r' && t[|t| - 1] == '\n'
            && match e
               case NotStored => t[0] == 'N' && |t| == 12
               case NotFound => t[0] == 'N' && |t| == 11
               case Deleted => t[0] == 'D' && |t| == 9
               case ClientError => t[0] == 'C' && |t| == 14
               case ServerError => t[0] == 'S' && |t| == 14
               case NoServers => t[0] == 'S' && |t| == 24
               case OtherError => t[0] == 'S' && |t| == 28
  {
  }
}
