/** The same grammar over a stream: a parser that keeps the text it has read instead of
    positions in a buffer, and the proof that the parser over a buffer agrees with it. */
module MemtextStream {
  import opened Common
  import opened Decimal
  import opened MemtextParser

  /** `keys` are the finished keys of the line, `text` the unfinished key, number or payload,
      and `payload` the finished one; `left` counts the payload bytes to come. */
  datatype Reader = Reader(
    cs: State, command: Command, keys: seq<string>, text: string,
    nums: map<Field, nat>, noreply: bool, payload: string, left: nat)

  const NEW_READER := Reader(Start, GET, [], "", map[Flags := 0, Exptime := 0, Bytes := 0, CasUnique := 0],
                             false, "", 0)

  predicate Formed(r: Reader) {
    forall f: Field :: f in r.nums
  }

  lemma NewReaderFormed()
    ensures Formed(NEW_READER)
  {
    forall f: Field ensures f in NEW_READER.nums {
      match f
      case Flags =>
      case Exptime =>
      case Bytes =>
      case CasUnique =>
    }
  }

  function Failed(r: Reader): Reader {
    r.(cs := Error)
  }

  function Completed(r: Reader, cl: Class): Option<Request>
    requires Formed(r)
  {
    if r.keys == [] then None
    else
      match cl
      case Retrieval => Some(GetRequest(r.command, r.keys))
      case Storage =>
        if r.command == SET then
          Some(SetRequest(r.keys[0], r.payload, r.nums[Flags] % U16, r.nums[Exptime], r.noreply))
        else None
      case Delete => Some(DeleteRequest(r.keys[0], r.nums[Exptime], r.noreply))
      case _ => None
  }

  function Act(r: Reader, c: char, a: Action): (r': (Reader, seq<Request>))
    requires Formed(r)
    ensures Formed(r'.0)
  {
    match a
    case Nothing => (r.(text := r.text + [c]), [])
    case Reset => (r.(keys := [], text := "", noreply := false, nums := r.nums[Exptime := 0]), [])
    case SetCommand(cmd) => (r.(command := cmd), [])
    case MarkKey => (r.(text := [c]), [])
    case NextKey => if |r.keys| < MAX_MULTI_GET then (r.(text := [c]), []) else (r.(cs := Outside), [])
    case EndKey => (r.(keys := r.keys + [r.text]), [])
    case Mark(_) => (r.(text := [c]), [])
    case EndNum(f) =>
      if r.text == "" || !AllDigits(r.text) then (Failed(r), [])
      else
        (match Convert(f, r.text)
         case None => (Failed(r), [])
         case Some(v) => (r.(nums := r.nums[f := v]), []))
    case SetNoreply => (r.(noreply := true), [])
    case StartData => (r.(text := "", left := r.nums[Bytes]), [])
    case DataByte =>
      var left := if r.left == 0 then U64 - 1 else r.left - 1;
      if left == 0 && r.cs.Data? then (r.(cs := DataCr(r.cs.cl), left := 0, payload := r.text + [c]), [])
      else (r.(left := left, text := r.text + [c]), [])
    case Do(cl) =>
      (match Completed(r, cl)
       case None => (Failed(r), [])
       case Some(req) => (r, [req]))
  }

  function Read(r: Reader, c: char): (r': (Reader, seq<Request>))
    requires Formed(r)
    ensures Formed(r'.0)
  {
    var (cs, a) := Delta(r.cs, c);
    Act(r.(cs := cs), c, a)
  }

  /** The reader after a stretch of the stream. */
  function After(r: Reader, s: string): (r': Reader)
    requires Formed(r)
    ensures Formed(r')
    decreases |s|
  {
    if s == "" then r else After(Read(r, s[0]).0, s[1..])
  }

  /** The requests it delivered on the way. */
  function Out(r: Reader, s: string): seq<Request>
    requires Formed(r)
    decreases |s|
  {
    if s == "" then [] else Read(r, s[0]).1 + Out(Read(r, s[0]).0, s[1..])
  }

  lemma {:induction false} ReadConcat(r: Reader, s: string, t: string)
    requires Formed(r)
    ensures After(r, s + t) == After(After(r, s), t)
    ensures Out(r, s + t) == Out(r, s) + Out(After(r, s), t)
    decreases |s|
  {
    hide Read;
    if s == "" {
      assert s + t == t;
    } else {
      ReadConcat(Read(r, s[0]).0, s[1..], t);
      assert (s + t)[0] == s[0] && (s + t)[1..] == s[1..] + t;
    }
  }

  predicate Stuck(cs: State) {
    cs == Error || cs == Outside
  }

  lemma {:induction false} ErrorStays(r: Reader, s: string)
    requires Formed(r) && Stuck(r.cs)
    ensures After(r, s).cs == r.cs && Out(r, s) == []
    decreases |s|
  {
    if s != "" {
      ErrorStays(Read(r, s[0]).0, s[1..]);
    }
  }

  // ----- agreement

  /** States in which a key is being read, and in which the keys read so far are complete. */
  predicate InKey(cs: State) { cs.Key? }
  predicate BeforeKeys(cs: State) { cs.Word? || cs.KeyFirst? }
  predicate AfterKeys(cs: State) {
    cs.KeyNext? || cs.NumFirst? || cs.Zero? || cs.Num? || cs.DeleteOption? || cs.StorageOption?
    || cs.NoreplyFirst? || cs.Noreply? || cs.StorageEnd? || cs.Cr? || cs.Data? || cs.DataCr? || cs.DataLf?
  }
  predicate InNum(cs: State) { cs.Zero? || cs.Num? }

  ghost predicate KeysAgree(ctx: Context, data: string, p: nat, keys: seq<string>)
    requires Shaped(ctx)
  {
    && |keys| <= MAX_MULTI_GET
    && forall i :: 0 <= i < |keys| ==>
      && ctx.key_pos[i] + ctx.key_len[i] <= p && KeyAt(ctx, data, i) == keys[i]
  }

  /** The text from `from` up to here is `s`. */
  ghost predicate TextIs(data: string, from: nat, p: nat, s: string) {
    from <= p <= |data| && data[from..p] == s
  }

  /** The parser over `data`, about to read position `p`, is where the reader of the stream is:
      whatever the rest of the line can still use agrees. */
  ghost predicate Agree(ctx: Context, data: string, p: nat, r: Reader) {
    && Shaped(ctx) && Formed(r) && p <= |data|
    && ctx.cs == r.cs && ctx.command == r.command && ctx.noreply == r.noreply
    && (forall f: Field :: (InNum(r.cs) && r.cs.f == f) || Stuck(r.cs) || ctx.nums[f] == r.nums[f])
    && (BeforeKeys(r.cs) ==> ctx.keys == 0 && r.keys == [])
    && (InKey(r.cs) ==>
          && ctx.keys == |r.keys| < MAX_MULTI_GET && (r.cs.cl != Retrieval ==> r.keys == [])
          && KeysAgree(ctx, data, p, r.keys)
          && TextIs(data, ctx.key_pos[ctx.keys], p, r.text))
    && (AfterKeys(r.cs) ==>
          && ctx.keys + 1 == |r.keys| <= MAX_MULTI_GET && KeysAgree(ctx, data, p, r.keys))
    && (InNum(r.cs) ==> TextIs(data, ctx.nums[r.cs.f], p, r.text) && ctx.nums[r.cs.f] < p)
    && (r.cs.Data? ==> TextIs(data, ctx.data_pos, p, r.text) && ctx.data_count == r.left)
    && (r.cs.DataCr? || r.cs.DataLf? ==>
          ctx.data_pos + ctx.data_len <= p && TextIs(data, ctx.data_pos, ctx.data_pos + ctx.data_len, r.payload))
  }

  /** What each action says about the states around it. */
  ghost predicate Shape(cs: State, cs': State, a: Action) {
    match a
    case Nothing =>
      || Stuck(cs')
      || (BeforeKeys(cs) && BeforeKeys(cs'))
      || (InKey(cs) && cs' == cs)
      || (InNum(cs) && cs' == cs)
      || (Between(cs) && Between(cs'))
      || (cs.DataCr? && cs' == DataLf(cs.cl))
    case Reset => (cs == Start || cs == Final) && cs'.Word?
    case SetCommand(_) => cs.Word? && cs'.Word?
    case MarkKey => cs.KeyFirst? && cs' == Key(cs.cl)
    case NextKey => cs.KeyNext? && cs' == Key(Retrieval)
    case EndKey => cs.Key? && Between(cs')
    case Mark(f) => Between(cs) && InNum(cs') && cs'.f == f
    case EndNum(f) => InNum(cs) && cs.f == f && Between(cs')
    case SetNoreply => Between(cs) && Between(cs')
    case StartData => cs.Cr? && cs'.Data?
    case DataByte => cs.Data? && cs' == cs
    case Do(cl) => cs' == Final && (cs == DataLf(cl) || (cs == Cr(cl) && cl != Storage))
  }

  /** Behind a key, but not in a number or the payload. */
  predicate Between(cs: State) {
    AfterKeys(cs) && !InNum(cs) && !cs.Data? && !cs.DataCr? && !cs.DataLf?
  }

  lemma DeltaHasShape(cs: State, c: char)
    ensures Shape(cs, Delta(cs, c).0, Delta(cs, c).1)
  {
  }

  // ----- each action keeps the agreement

  /** What the transition and its action see: the buffer parser and the reader before a step,
      with the machine already in its next state. */
  ghost predicate Stepping(ctx: Context, data: string, p: nat, r: Reader, cs': State, a: Action) {
    Agree(ctx, data, p, r) && p < |data| < U32 && Shape(r.cs, cs', a)
  }

  ghost predicate StepAgrees(ctx: Context, data: string, p: nat, r: Reader, cs': State, a: Action)
    requires Stepping(ctx, data, p, r, cs', a)
  {
    var (ctx', out) := Run(ctx.(cs := cs'), data, p, a);
    var (r', out') := Act(r.(cs := cs'), data[p], a);
    out == out' && Agree(ctx', data, p + 1, r')
  }

  lemma TextGrows(data: string, from: nat, p: nat, s: string)
    requires TextIs(data, from, p, s) && p < |data|
    ensures TextIs(data, from, p + 1, s + [data[p]])
  {
  }

  lemma KeysStay(ctx: Context, data: string, p: nat, keys: seq<string>, ctx': Context)
    requires Shaped(ctx) && Shaped(ctx') && KeysAgree(ctx, data, p, keys)
    requires forall i :: 0 <= i < |keys| ==> ctx'.key_pos[i] == ctx.key_pos[i] && ctx'.key_len[i] == ctx.key_len[i]
    ensures KeysAgree(ctx', data, p + 1, keys)
  {
    forall i | 0 <= i < |keys|
      ensures ctx'.key_pos[i] + ctx'.key_len[i] <= p + 1 && KeyAt(ctx', data, i) == keys[i]
    {
      assert ctx.key_pos[i] + ctx.key_len[i] <= p && KeyAt(ctx, data, i) == keys[i];
    }
  }

  lemma NothingAgrees(ctx: Context, data: string, p: nat, r: Reader, cs': State)
    requires Stepping(ctx, data, p, r, cs', Nothing)
    ensures StepAgrees(ctx, data, p, r, cs', Nothing)
  {
    hide KeysAgree, TextIs, KeyAt, Span, Convert, Deliver, Completed;
    if InKey(cs') || InNum(cs') {
      TextCharAgrees(ctx, data, p, r, cs');
    } else if AfterKeys(r.cs) {
      KeysStay(ctx, data, p, r.keys, ctx.(cs := cs'));
    }
  }

  /** One more character of a key or a number. */
  lemma TextCharAgrees(ctx: Context, data: string, p: nat, r: Reader, cs': State)
    requires Stepping(ctx, data, p, r, cs', Nothing) && (InKey(cs') || InNum(cs'))
    ensures StepAgrees(ctx, data, p, r, cs', Nothing)
  {
    hide KeysAgree, TextIs, KeyAt, Span, Convert, Deliver, Completed;
    TextGrows(data, if InKey(cs') then ctx.key_pos[ctx.keys] else ctx.nums[r.cs.f], p, r.text);
    KeysStay(ctx, data, p, r.keys, ctx.(cs := cs'));
  }

  lemma ResetAgrees(ctx: Context, data: string, p: nat, r: Reader, cs': State, a: Action)
    requires Stepping(ctx, data, p, r, cs', a) && (a.Reset? || a.SetCommand?)
    ensures StepAgrees(ctx, data, p, r, cs', a)
  {
    hide KeysAgree, TextIs, KeyAt, Span, Convert, Deliver, Completed;
  }

  lemma MarkKeyAgrees(ctx: Context, data: string, p: nat, r: Reader, cs': State, a: Action)
    requires Stepping(ctx, data, p, r, cs', a) && (a.MarkKey? || a.NextKey?)
    ensures StepAgrees(ctx, data, p, r, cs', a)
  {
    hide KeysAgree, KeyAt, Span, Convert, Deliver, Completed;
    var ctx' := Run(ctx.(cs := cs'), data, p, a).0;
    if a.NextKey? && |r.keys| < MAX_MULTI_GET {
      KeysStay(ctx, data, p, r.keys, ctx');
    }
    NoKeys(ctx', data, p + 1);
    assert data[p..p + 1] == [data[p]];
  }

  lemma NoKeys(ctx: Context, data: string, p: nat)
    requires Shaped(ctx)
    ensures KeysAgree(ctx, data, p, [])
  {
  }

  lemma EndKeyAgrees(ctx: Context, data: string, p: nat, r: Reader, cs': State)
    requires Stepping(ctx, data, p, r, cs', EndKey)
    ensures StepAgrees(ctx, data, p, r, cs', EndKey)
  {
    hide KeysAgree;
    var ctx' := Run(ctx.(cs := cs'), data, p, EndKey).0;
    KeysStay(ctx, data, p, r.keys, ctx');
    KeyAdded(ctx', data, p + 1, r.keys, r.text);
  }

  lemma KeyAdded(ctx: Context, data: string, p: nat, keys: seq<string>, key: string)
    requires Shaped(ctx) && KeysAgree(ctx, data, p, keys) && |keys| < MAX_MULTI_GET
    requires ctx.key_pos[|keys|] + ctx.key_len[|keys|] <= p && KeyAt(ctx, data, |keys|) == key
    ensures KeysAgree(ctx, data, p, keys + [key])
  {
  }

  lemma MarkAgrees(ctx: Context, data: string, p: nat, r: Reader, cs': State, a: Action)
    requires Stepping(ctx, data, p, r, cs', a) && a.Mark?
    ensures StepAgrees(ctx, data, p, r, cs', a)
  {
    hide KeysAgree, KeyAt, Convert, Deliver, Completed;
    var ctx' := Run(ctx.(cs := cs'), data, p, a).0;
    KeysStay(ctx, data, p, r.keys, ctx');
    assert data[p..p + 1] == [data[p]];
  }

  lemma EndNumAgrees(ctx: Context, data: string, p: nat, r: Reader, cs': State, a: Action)
    requires Stepping(ctx, data, p, r, cs', a) && a.EndNum?
    ensures StepAgrees(ctx, data, p, r, cs', a)
  {
    hide KeysAgree, Convert, TextIs, Span, KeyAt, Deliver, Completed;
    var ctx' := Run(ctx.(cs := cs'), data, p, a).0;
    TextSpan(data, ctx.nums[a.f], p, r.text);
    KeysStay(ctx, data, p, r.keys, ctx');
  }

  lemma TextSpan(data: string, from: nat, p: nat, s: string)
    requires TextIs(data, from, p, s)
    ensures Span(data, from, p) == s
  {
  }

  lemma SetNoreplyAgrees(ctx: Context, data: string, p: nat, r: Reader, cs': State, a: Action)
    requires Stepping(ctx, data, p, r, cs', a) && (a.SetNoreply? || a.StartData?)
    ensures StepAgrees(ctx, data, p, r, cs', a)
  {
    hide KeysAgree;
    var ctx' := Run(ctx.(cs := cs'), data, p, a).0;
    KeysStay(ctx, data, p, r.keys, ctx');
  }

  lemma DataByteAgrees(ctx: Context, data: string, p: nat, r: Reader, cs': State)
    requires Stepping(ctx, data, p, r, cs', DataByte)
    ensures StepAgrees(ctx, data, p, r, cs', DataByte)
  {
    hide KeysAgree, TextIs, KeyAt, Span, Convert, Deliver, Completed;
    var ctx' := Run(ctx.(cs := cs'), data, p, DataByte).0;
    TextGrows(data, ctx.data_pos, p, r.text);
    KeysStay(ctx, data, p, r.keys, ctx');
  }

  lemma DoAgrees(ctx: Context, data: string, p: nat, r: Reader, cs': State, a: Action)
    requires Stepping(ctx, data, p, r, cs', a) && a.Do?
    ensures StepAgrees(ctx, data, p, r, cs', a)
  {
    hide KeysAgree, KeyAt, Deliver, Completed, TextIs;
    DeliverAgrees(ctx, data, p, r, cs', a.cl);
  }

  /** The callbacks see the same request. */
  lemma DeliverAgrees(ctx: Context, data: string, p: nat, r: Reader, cs': State, cl: Class)
    requires Stepping(ctx, data, p, r, cs', Do(cl))
    ensures Shaped(ctx) && Formed(r) && ctx.keys < MAX_MULTI_GET
    ensures Deliver(ctx.(cs := cs'), data, cl) == Completed(r.(cs := cs'), cl)
  {
    hide KeysAgree, KeyAt;
    KeysDelivered(ctx, ctx.(cs := cs'), data, p, r.keys);
  }

  /** The marks of the keys give the keys. */
  lemma KeysDelivered(ctx: Context, c: Context, data: string, p: nat, keys: seq<string>)
    requires Shaped(ctx) && c == ctx.(cs := c.cs) && KeysAgree(ctx, data, p, keys) && ctx.keys + 1 == |keys|
    ensures Shaped(c) && KeyAt(c, data, 0) == keys[0]
    ensures c.keys < MAX_MULTI_GET
    ensures seq(c.keys + 1, i requires 0 <= i < MAX_MULTI_GET => KeyAt(c, data, i)) == keys
  {
    forall i | 0 <= i < |keys| ensures KeyAt(c, data, i) == keys[i] {
      assert KeyAt(c, data, i) == KeyAt(ctx, data, i);
    }
  }

  /** One character: both parsers deliver the same and stay in agreement. */
  lemma OneStepAgrees(ctx: Context, data: string, p: nat, r: Reader)
    requires Agree(ctx, data, p, r) && p < |data| < U32
    ensures Step(ctx, data, p).1 == Read(r, data[p]).1
    ensures Agree(Step(ctx, data, p).0, data, p + 1, Read(r, data[p]).0)
  {
    hide Delta, Shape, Agree, Run, Act;
    var (cs', a) := Delta(ctx.cs, data[p]);
    SameState(ctx, data, p, r);
    DeltaHasShape(r.cs, data[p]);
    match a
    case Nothing => NothingAgrees(ctx, data, p, r, cs');
    case Reset => ResetAgrees(ctx, data, p, r, cs', a);
    case SetCommand(_) => ResetAgrees(ctx, data, p, r, cs', a);
    case MarkKey => MarkKeyAgrees(ctx, data, p, r, cs', a);
    case NextKey => MarkKeyAgrees(ctx, data, p, r, cs', a);
    case EndKey => EndKeyAgrees(ctx, data, p, r, cs');
    case Mark(_) => MarkAgrees(ctx, data, p, r, cs', a);
    case EndNum(_) => EndNumAgrees(ctx, data, p, r, cs', a);
    case SetNoreply => SetNoreplyAgrees(ctx, data, p, r, cs', a);
    case StartData => SetNoreplyAgrees(ctx, data, p, r, cs', a);
    case DataByte => DataByteAgrees(ctx, data, p, r, cs');
    case Do(_) => DoAgrees(ctx, data, p, r, cs', a);
  }

  lemma SameState(ctx: Context, data: string, p: nat, r: Reader)
    requires Agree(ctx, data, p, r)
    ensures ctx.cs == r.cs && Shaped(ctx) && Formed(r) && p <= |data|
  {
  }

  /** More data behind what was read changes nothing; and at the end of a command the data may
      be dropped, whatever it left in the parser. */
  lemma AgreementMoves(ctx: Context, data: string, p: nat, r: Reader, more: string)
    requires Agree(ctx, data, p, r)
    ensures Agree(ctx, data + more, p, r)
    ensures r.cs == Final ==> forall data' :: Agree(ctx, data', 0, r)
  {
    assert forall i, j :: 0 <= i <= j <= |data| ==> (data + more)[i..j] == data[i..j];
    forall i | 0 <= i < |r.keys| && i < MAX_MULTI_GET && (InKey(r.cs) || AfterKeys(r.cs))
      ensures KeyAt(ctx, data + more, i) == KeyAt(ctx, data, i)
    {
      assert ctx.key_pos[i] + ctx.key_len[i] <= p;
    }
  }
}
