/** `memtext.rl`: the control table of the grammar, and the parser that runs it over a buffer.
    The bytes of the text protocol are written as characters of the same code. */
module MemtextParser {
  import opened Common
  import opened Decimal

  const MAX_MULTI_GET: nat := 256
  const NUM_BUF_MAX: nat := 20
  const U16: nat := 0x1_0000
  const U32: nat := 0x1_0000_0000
  const U64: nat := 0x1_0000_0000_0000_0000

  datatype Command = GET | GETS | SET | ADD | REPLACE | APPEND | PREPEND | CAS | DELETE | INCR | DECR

  /** The five shapes of a command line. */
  datatype Class = Retrieval | Storage | CasStore | Delete | Numeric

  datatype Field = Flags | Exptime | Bytes | CasUnique

  /** The states of the generated machine, by what has been read of the current line.  `Final`
      is main's final state, `Data` the one state of the called machine.  `Outside` is no state of
      it: a mark was written outside its array, and nothing is known of what the program does. */
  datatype State =
    | Start
    | Final
    | Error
    | Outside
    | Word(w: string)
    | KeyFirst(cl: Class)
    | KeyNext
    | Key(cl: Class)
    | NumFirst(cl: Class, f: Field)
    | Zero(cl: Class, f: Field)
    | Num(cl: Class, f: Field)
    | DeleteOption
    | StorageOption
    | NoreplyFirst(cl: Class)
    | Noreply(cl: Class, n: nat)
    | StorageEnd
    | Cr(cl: Class)
    | Data(cl: Class)
    | DataCr(cl: Class)
    | DataLf(cl: Class)

  /** The actions embedded in a transition; `NextKey` is incr_key followed by mark_key. */
  datatype Action =
    | Nothing
    | Reset
    | SetCommand(c: Command)
    | MarkKey
    | NextKey
    | EndKey
    | Mark(f: Field)
    | EndNum(f: Field)
    | SetNoreply
    | StartData
    | DataByte
    | Do(cl: Class)

  const NOREPLY := "noreply"

  function WordCommand(w: string): Option<Command> {
    if w == "get" then Some(GET)
    else if w == "gets" then Some(GETS)
    else if w == "set" then Some(SET)
    else if w == "add" then Some(ADD)
    else if w == "replace" then Some(REPLACE)
    else if w == "append" then Some(APPEND)
    else if w == "prepend" then Some(PREPEND)
    else if w == "cas" then Some(CAS)
    else if w == "delete" then Some(DELETE)
    else if w == "incr" then Some(INCR)
    else if w == "decr" then Some(DECR)
    else None
  }

  predicate IsWordPrefix(w: string) {
    || w <= "gets" || w <= "set" || w <= "add" || w <= "replace" || w <= "append"
    || w <= "prepend" || w <= "cas" || w <= "delete" || w <= "incr" || w <= "decr"
  }

  function ClassOf(c: Command): Class {
    match c
    case GET => Retrieval
    case GETS => Retrieval
    case CAS => CasStore
    case DELETE => Delete
    case INCR => Numeric
    case DECR => Numeric
    case _ => Storage
  }

  predicate IsKeyChar(c: char) {
    c != '\r' && c != ' ' && c != '\0' && c != '\n'
  }

  function OnWord(w: string, c: char): (State, Action) {
    var w' := w + [c];
    if IsWordPrefix(w') then
      (Word(w'), if WordCommand(w').Some? then SetCommand(WordCommand(w').value) else Nothing)
    else if c == ' ' && WordCommand(w).Some? then (KeyFirst(ClassOf(WordCommand(w).value)), Nothing)
    else (Error, Nothing)
  }

  function OnKey(cl: Class, c: char): (State, Action) {
    if IsKeyChar(c) then (Key(cl), Nothing)
    else if c == ' ' then
      (match cl
       case Retrieval => (KeyNext, EndKey)
       case Storage => (NumFirst(cl, Flags), EndKey)
       case CasStore => (NumFirst(cl, Flags), EndKey)
       case Delete => (DeleteOption, EndKey)
       case Numeric => (NumFirst(cl, CasUnique), EndKey))
    else if c == '\r' && (cl == Retrieval || cl == Delete) then (Cr(cl), EndKey)
    else (Error, Nothing)
  }

  function OnNumFirst(cl: Class, f: Field, c: char): (State, Action) {
    if c == '0' && f != Bytes then (Zero(cl, f), Mark(f))
    else if '1' <= c <= '9' then (Num(cl, f), Mark(f))
    else (Error, Nothing)
  }

  /** Behind a number of the line. */
  function AfterNum(cl: Class, f: Field, c: char): (State, Action) {
    if c == ' ' then
      (match (cl, f)
       case (Storage, Flags) => (NumFirst(cl, Exptime), EndNum(f))
       case (Storage, Exptime) => (NumFirst(cl, Bytes), EndNum(f))
       case (Storage, Bytes) => (StorageOption, EndNum(f))
       case (CasStore, Flags) => (NumFirst(cl, Exptime), EndNum(f))
       case (CasStore, Exptime) => (NumFirst(cl, Bytes), EndNum(f))
       case (CasStore, Bytes) => (NumFirst(cl, CasUnique), EndNum(f))
       case (CasStore, CasUnique) => (NoreplyFirst(cl), EndNum(f))
       case (Delete, Exptime) => (NoreplyFirst(cl), EndNum(f))
       case (Numeric, CasUnique) => (NoreplyFirst(cl), EndNum(f))
       case _ => (Error, Nothing))
    else if c == '\r' && ((cl == Storage && f == Bytes) || ((cl == CasStore || cl == Numeric) && f == CasUnique)
                          || (cl == Delete && f == Exptime)) then
      (Cr(cl), EndNum(f))
    else (Error, Nothing)
  }

  function OnNoreply(cl: Class, n: nat, c: char): (State, Action) {
    if n < |NOREPLY| then (if c == NOREPLY[n] then (Noreply(cl, n + 1), Nothing) else (Error, Nothing))
    else if c == '\r' then (Cr(cl), SetNoreply)
    else if c == ' ' && cl == Storage then (StorageEnd, SetNoreply)
    else (Error, Nothing)
  }

  /** The transition on one character; the action of the called machine decides itself when to
      leave the state `Data`. */
  function Delta(cs: State, c: char): (State, Action) {
    match cs
    case Start => if IsWordPrefix([c]) then (Word([c]), Reset) else (Error, Nothing)
    case Final => if IsWordPrefix([c]) then (Word([c]), Reset) else (Error, Nothing)
    case Error => (Error, Nothing)
    case Outside => (Outside, Nothing)
    case Word(w) => OnWord(w, c)
    case KeyFirst(cl) => if IsKeyChar(c) then (Key(cl), MarkKey) else (Error, Nothing)
    case KeyNext =>
      if IsKeyChar(c) then (Key(Retrieval), NextKey)
      else if c == '\r' then (Cr(Retrieval), Nothing)
      else (Error, Nothing)
    case Key(cl) => OnKey(cl, c)
    case NumFirst(cl, f) => OnNumFirst(cl, f, c)
    case Zero(cl, f) => AfterNum(cl, f, c)
    case Num(cl, f) => if IsDigit(c) then (Num(cl, f), Nothing) else AfterNum(cl, f, c)
    case DeleteOption =>
      if IsDigit(c) then OnNumFirst(Delete, Exptime, c)
      else if c == 'n' then (Noreply(Delete, 1), Nothing)
      else (Error, Nothing)
    case StorageOption =>
      if c == 'n' then (Noreply(Storage, 1), Nothing)
      else if c == '\r' then (Cr(Storage), Nothing)
      else (Error, Nothing)
    case NoreplyFirst(cl) => if c == 'n' then (Noreply(cl, 1), Nothing) else (Error, Nothing)
    case Noreply(cl, n) => OnNoreply(cl, n, c)
    case StorageEnd => if c == '\r' then (Cr(Storage), Nothing) else (Error, Nothing)
    case Cr(cl) =>
      if c != '\n' then (Error, Nothing)
      else if cl == Storage || cl == CasStore then (Data(cl), StartData)
      else (Final, Do(cl))
    case Data(cl) => (Data(cl), DataByte)
    case DataCr(cl) => if c == '\r' then (DataLf(cl), Nothing) else (Error, Nothing)
    case DataLf(cl) => if c == '\n' then (Final, Do(cl)) else (Error, Nothing)
  }

  // ----- requests

  datatype Request =
    | GetRequest(command: Command, keys: seq<string>)
    | SetRequest(key: string, data: string, flags: nat, exptime: nat, noreply: bool)
    | DeleteRequest(key: string, exptime: nat, noreply: bool)

  /** strtoul on a numeral: the largest value on overflow. */
  function StrToUl(s: string): nat
    requires AllDigits(s)
  {
    if Value(s) < U64 then Value(s) else U64 - 1
  }

  /** SET_INTEGER: the value stored in a field, or a conversion error. */
  function Convert(f: Field, s: string): Option<nat>
    requires AllDigits(s) && s != ""
  {
    if s[0] == '0' then Some(0)
    else if |s| > NUM_BUF_MAX then None
    else
      var v := if f == Exptime then StrToUl(s) % U32 else StrToUl(s);
      if v == 0 then None else Some(v)
  }

  // ----- the parser over a buffer

  /** `memtext_parser`.  Positions are relative to the start of the data; while a number is being
      read its field holds the position of its first digit. */
  datatype Context = Context(
    cs: State, command: Command,
    key_pos: seq<nat>, key_len: seq<nat>, keys: nat,
    nums: map<Field, nat>, noreply: bool,
    data_pos: nat, data_len: nat, data_count: nat)

  const INIT := Context(Start, GET, seq(MAX_MULTI_GET, _ => 0), seq(MAX_MULTI_GET, _ => 0), 0,
                        map[Flags := 0, Exptime := 0, Bytes := 0, CasUnique := 0], false, 0, 0, 0)

  predicate Shaped(ctx: Context) {
    && |ctx.key_pos| == |ctx.key_len| == MAX_MULTI_GET
    && forall f: Field :: f in ctx.nums
  }

  /** The characters of the buffer from `from` to `to`; a position outside it is an error the
      program would not notice. */
  function Span(data: string, from: nat, to: nat): string {
    if from <= to <= |data| then data[from..to] else ""
  }

  function KeyAt(ctx: Context, data: string, i: nat): string
    requires Shaped(ctx) && i < MAX_MULTI_GET
  {
    Span(data, ctx.key_pos[i], ctx.key_pos[i] + ctx.key_len[i])
  }

  function Fail(ctx: Context): Context {
    ctx.(cs := Error)
  }

  function LeavesArrays(ctx: Context): Context {
    ctx.(cs := Outside)
  }

  /** The callbacks of `do_*`: get, gets, set and delete are served, the others are null. */
  function Deliver(ctx: Context, data: string, cl: Class): Option<Request>
    requires Shaped(ctx) && (cl == Retrieval ==> ctx.keys < MAX_MULTI_GET)
  {
    match cl
    case Retrieval =>
      Some(GetRequest(ctx.command, seq(ctx.keys + 1, i requires 0 <= i < MAX_MULTI_GET => KeyAt(ctx, data, i))))
    case Storage =>
      if ctx.command == SET then
        Some(SetRequest(KeyAt(ctx, data, 0), Span(data, ctx.data_pos, ctx.data_pos + ctx.data_len),
                        ctx.nums[Flags] % U16, ctx.nums[Exptime], ctx.noreply))
      else None
    case Delete => Some(DeleteRequest(KeyAt(ctx, data, 0), ctx.nums[Exptime], ctx.noreply))
    case _ => None
  }

  /** Runs one action at position `p`, with the machine already in its next state. */
  function Run(ctx: Context, data: string, p: nat, a: Action): (r: (Context, seq<Request>))
    requires Shaped(ctx)
    ensures Shaped(r.0)
  {
    match a
    case Nothing => (ctx, [])
    case Reset => (ctx.(keys := 0, noreply := false, nums := ctx.nums[Exptime := 0]), [])
    case SetCommand(c) => (ctx.(command := c), [])
    case MarkKey =>
      if ctx.keys < MAX_MULTI_GET then (ctx.(key_pos := ctx.key_pos[ctx.keys := p]), []) else (LeavesArrays(ctx), [])
    case NextKey =>
      // the check lets index 256 pass, which is outside the arrays
      var keys := ctx.keys + 1;
      if keys > MAX_MULTI_GET then (Fail(ctx.(keys := keys)), [])
      else if keys < MAX_MULTI_GET then (ctx.(keys := keys, key_pos := ctx.key_pos[keys := p]), [])
      else (LeavesArrays(ctx.(keys := keys)), [])
    case EndKey =>
      if ctx.keys < MAX_MULTI_GET then
        (ctx.(key_len := ctx.key_len[ctx.keys := (p - ctx.key_pos[ctx.keys]) % U64]), [])
      else (LeavesArrays(ctx), [])
    case Mark(f) => (ctx.(nums := ctx.nums[f := if f == Exptime then p % U32 else p]), [])
    case EndNum(f) =>
      var s := Span(data, ctx.nums[f], p);
      if s == "" || !AllDigits(s) then (Fail(ctx), [])
      else
        (match Convert(f, s)
         case None => (Fail(ctx), [])
         case Some(v) => (ctx.(nums := ctx.nums[f := v]), []))
    case SetNoreply => (ctx.(noreply := true), [])
    case StartData => (ctx.(data_pos := p + 1, data_count := ctx.nums[Bytes]), [])
    case DataByte =>
      // the counter is unsigned
      var left := if ctx.data_count == 0 then U64 - 1 else ctx.data_count - 1;
      if left == 0 && ctx.cs.Data? then
        (ctx.(cs := DataCr(ctx.cs.cl), data_count := 0, data_len := (p + 1 - ctx.data_pos) % U64), [])
      else (ctx.(data_count := left), [])
    case Do(cl) =>
      if cl == Retrieval && ctx.keys >= MAX_MULTI_GET then (LeavesArrays(ctx), [])
      else
        (match Deliver(ctx, data, cl)
         case None => (Fail(ctx), [])
         case Some(req) => (ctx, [req]))
  }

  function Step(ctx: Context, data: string, p: nat): (r: (Context, seq<Request>))
    requires Shaped(ctx) && p < |data|
    ensures Shaped(r.0)
  {
    var (cs, a) := Delta(ctx.cs, data[p]);
    Run(ctx.(cs := cs), data, p, a)
  }

  /** The check in front of the 257th mark of a line does not stop it: the index it lets pass is
      one too many. */
  lemma CheckLetsOneTooManyPass(ctx: Context, data: string, p: nat)
    requires Shaped(ctx) && p < |data| && ctx.cs == KeyNext && ctx.keys == MAX_MULTI_GET - 1 && IsKeyChar(data[p])
    ensures var ctx' := Step(ctx, data, p).0;
            !(ctx'.keys > MAX_MULTI_GET) && ctx'.keys >= |ctx'.key_pos| && ctx'.cs == Outside
  {
  }
}
