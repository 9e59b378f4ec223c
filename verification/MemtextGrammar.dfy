/** The converse of reading printed lines: a stream that is accepted is a list of them. */
module MemtextGrammar {
  import opened Common
  import opened Decimal
  import opened MemtextParser
  import opened MemtextStream
  import opened MemtextRoundTrip

  function WordOf(c: Command): string {
    match c
    case GET => "get"
    case GETS => "gets"
    case SET => "set"
    case ADD => "add"
    case REPLACE => "replace"
    case APPEND => "append"
    case PREPEND => "prepend"
    case CAS => "cas"
    case DELETE => "delete"
    case INCR => "incr"
    case DECR => "decr"
  }

  /** What the reader forgets of a line: its numbers as they were written, whether a delete had
      a time, and whether there was a trailing space. */
  datatype Draft = Draft(flags: nat, exptime: nat, bytes: nat, timed: bool, pad: bool)

  ghost predicate AllKeys(keys: seq<string>) {
    forall k :: k in keys ==> IsKey(k)
  }

  /** Inside a line. */
  predicate Going(cs: State) {
    !Stuck(cs) && cs != Final
  }

  // ----- the text of a line so far, state by state

  ghost predicate RetrievalSofar(r: Reader, d: Draft, t: string) {
    && AllKeys(r.keys) && ClassOf(r.command) == Retrieval
    && match r.cs
       case KeyNext => 0 < |r.keys| <= MAX_MULTI_GET && t == WordOf(r.command) + SpacedKeys(r.keys) + " "
       case Cr(_) => 0 < |r.keys| <= MAX_MULTI_GET && t == WordOf(r.command) + SpacedKeys(r.keys) + Pad(d.pad) + "\r"
       case _ => false
  }

  /** The storage line in front of number `f`. */
  function Before(key: string, d: Draft, f: Field): string {
    "set" + " " + key + " "
    + match f
      case Exptime => Print(d.flags) + " "
      case Bytes => Print(d.flags) + " " + (Print(d.exptime) + " ")
      case _ => ""
  }

  /** The numbers in front of `f` are in their fields. */
  ghost predicate Stored(r: Reader, d: Draft, f: Field)
    requires Formed(r)
  {
    && (f == Exptime || f == Bytes ==> !Unstorable(Flags, d.flags) && r.nums[Flags] == FieldValue(Flags, d.flags))
    && (f == Bytes ==> !Unstorable(Exptime, d.exptime) && r.nums[Exptime] == FieldValue(Exptime, d.exptime))
  }

  ghost predicate AllStored(r: Reader, d: Draft)
    requires Formed(r)
  {
    Stored(r, d, Bytes) && d.bytes > 0 && r.nums[Bytes] == FieldValue(Bytes, d.bytes)
  }

  function Numbers(key: string, d: Draft): string {
    Before(key, d, Bytes) + Print(d.bytes)
  }

  function Header(r: Reader, d: Draft): string
    requires r.keys != []
  {
    Numbers(r.keys[0], d) + NoreplyWord(r.noreply) + Pad(d.pad) + "\r"
  }

  ghost predicate SetSofar(r: Reader, d: Draft, t: string)
    requires Formed(r) && r.keys != []
  {
    var key := r.keys[0];
    match r.cs
    case NumFirst(_, f) => !r.noreply && !d.pad && f != CasUnique && Stored(r, d, f) && t == Before(key, d, f)
    case Zero(_, f) =>
      && !r.noreply && !d.pad && f != CasUnique && f != Bytes && Stored(r, d, f)
      && r.text == "0" && t == Before(key, d, f) + r.text
    case Num(_, f) =>
      && !r.noreply && !d.pad && f != CasUnique && Stored(r, d, f)
      && Numeral(r.text) && r.text[0] != '0' && t == Before(key, d, f) + r.text
    case StorageOption => !r.noreply && AllStored(r, d) && t == Numbers(key, d) + " "
    case Noreply(_, n) =>
      && !r.noreply && AllStored(r, d) && 0 < n <= |NOREPLY|
      && t == Numbers(key, d) + " " + NOREPLY[..n]
    case StorageEnd => r.noreply && d.pad && AllStored(r, d) && t == Numbers(key, d) + " " + NOREPLY + " "
    case Cr(_) => AllStored(r, d) && t == Header(r, d)
    case Data(_) =>
      && AllStored(r, d) && r.left + |r.text| == r.nums[Bytes] && r.left > 0
      && t == Header(r, d) + "\n" + r.text
    case DataCr(_) => AllStored(r, d) && |r.payload| == r.nums[Bytes] && t == Header(r, d) + "\n" + r.payload
    case DataLf(_) => AllStored(r, d) && |r.payload| == r.nums[Bytes] && t == Header(r, d) + "\n" + r.payload + "\r"
    case _ => false
  }

  function Deletion(key: string, d: Draft): string {
    "delete" + " " + key + if d.timed then " " + Print(d.exptime) else ""
  }

  ghost predicate TimeStored(r: Reader, d: Draft)
    requires Formed(r)
  {
    if d.timed then !Unstorable(Exptime, d.exptime) && r.nums[Exptime] == FieldValue(Exptime, d.exptime)
    else r.nums[Exptime] == 0
  }

  ghost predicate DeleteSofar(r: Reader, d: Draft, t: string)
    requires Formed(r) && r.keys != []
  {
    var key := r.keys[0];
    match r.cs
    case DeleteOption => !r.noreply && !d.timed && TimeStored(r, d) && t == Deletion(key, d) + " "
    case Zero(_, f) => !r.noreply && !d.timed && f == Exptime && r.text == "0" && t == Deletion(key, d) + " " + r.text
    case Num(_, f) =>
      && !r.noreply && !d.timed && f == Exptime
      && Numeral(r.text) && r.text[0] != '0' && t == Deletion(key, d) + " " + r.text
    case NoreplyFirst(_) => !r.noreply && TimeStored(r, d) && t == Deletion(key, d) + " "
    case Noreply(_, n) =>
      && !r.noreply && TimeStored(r, d) && 0 < n <= |NOREPLY|
      && t == Deletion(key, d) + " " + NOREPLY[..n]
    case Cr(_) => TimeStored(r, d) && t == Deletion(key, d) + NoreplyWord(r.noreply) + "\r"
    case _ => false
  }

  /** The class of a state behind the first key. */
  function ClassAt(cs: State): Class
    requires AfterKeys(cs)
  {
    match cs
    case KeyNext => Retrieval
    case DeleteOption => Delete
    case StorageOption => Storage
    case StorageEnd => Storage
    case _ => cs.cl
  }

  /** `t` is what was read of the present line.  Lines of commands that nobody serves only have
      to be of such a command. */
  ghost predicate Sofar(r: Reader, d: Draft, t: string)
    requires Formed(r)
  {
    match r.cs
    case Start => t == ""
    case Final => t == ""
    case Error => true
    case Outside => true
    case Word(w) =>
      && t == w && r.keys == [] && !r.noreply && r.nums[Exptime] == 0
      && (WordCommand(w).Some? ==> r.command == WordCommand(w).value)
    case KeyFirst(cl) =>
      && r.keys == [] && !r.noreply && r.nums[Exptime] == 0
      && ClassOf(r.command) == cl && t == WordOf(r.command) + " "
    case Key(cl) =>
      && ClassOf(r.command) == cl && AllKeys(r.keys) && IsKey(r.text) && |r.keys| < MAX_MULTI_GET
      && (cl != Retrieval ==> r.keys == [] && !r.noreply && r.nums[Exptime] == 0)
      && t == WordOf(r.command) + SpacedKeys(r.keys + [r.text])
    case _ => LaterSofar(r, d, t)
  }

  ghost predicate LaterSofar(r: Reader, d: Draft, t: string)
    requires Formed(r) && AfterKeys(r.cs)
  {
    && ClassAt(r.cs) == ClassOf(r.command)
    && (ClassAt(r.cs) == Retrieval ==> RetrievalSofar(r, d, t))
    && (r.command == SET ==> |r.keys| == 1 && IsKey(r.keys[0]) && SetSofar(r, d, t))
    && (r.command == DELETE ==> |r.keys| == 1 && IsKey(r.keys[0]) && DeleteSofar(r, d, t))
  }

  /** How the draft grows with a transition; `text` is the number that ended. */
  function Noted(d: Draft, cs: State, cs': State, a: Action, text: string): Draft {
    match a
    case EndKey => d.(timed := false, pad := false)
    case EndNum(f) =>
      if !AllDigits(text) then d
      else
        (match f
         case Flags => d.(flags := Value(text))
         case Exptime => d.(exptime := Value(text), timed := true)
         case Bytes => d.(bytes := Value(text))
         case CasUnique => d)
    case SetNoreply => d.(pad := cs'.StorageEnd?)
    case Nothing => if (cs.KeyNext? || cs.StorageOption?) && cs'.Cr? then d.(pad := true) else d
    case _ => d
  }

  function Next(r: Reader, d: Draft, c: char): Draft {
    var (cs', a) := Delta(r.cs, c);
    Noted(d, r.cs, cs', a, r.text)
  }

  /** One character inside a line. */
  ghost predicate Grows(r: Reader, d: Draft, t: string, c: char)
    requires Formed(r)
  {
    var (r', out) := Read(r, c);
    Going(r'.cs) ==> out == [] && Sofar(r', Next(r, d, c), t + [c])
  }

  lemma WordOfCommand(w: string)
    ensures WordCommand(w).Some? ==> w == WordOf(WordCommand(w).value)
  {
  }

  lemma StartGrows(r: Reader, d: Draft, t: string, c: char)
    requires Formed(r) && Sofar(r, d, t) && (r.cs == Start || r.cs == Final)
    ensures Grows(r, d, t, c)
  {
    hide IsWordPrefix;
    assert t + [c] == [c];
  }

  lemma WordGrows(r: Reader, d: Draft, t: string, c: char)
    requires Formed(r) && Sofar(r, d, t) && r.cs.Word?
    ensures Grows(r, d, t, c)
  {
    hide IsWordPrefix, WordCommand, WordOf, ClassOf;
    WordOfCommand(t);
    var r' := Read(r, c).0;
    if r'.cs.Word? {
      assert Sofar(r', Next(r, d, c), t + [c]);
    } else if r'.cs != Error {
      assert WordCommand(t).Some? && c == ' ';
      assert r'.command == r.command == WordCommand(t).value;
      assert t + [c] == WordOf(r.command) + " ";
      assert r'.cs == KeyFirst(ClassOf(r.command));
      assert Sofar(r', Next(r, d, c), t + [c]);
    }
  }

  lemma OneSpacedKey(k: string)
    ensures SpacedKeys([] + [k]) == " " + k
  {
    assert [k][..0] == [];
    assert [] + [k] == [k];
  }

  lemma KeyFirstGrows(r: Reader, d: Draft, t: string, c: char)
    requires Formed(r) && Sofar(r, d, t) && r.cs.KeyFirst?
    ensures Grows(r, d, t, c)
  {
    hide WordOf, SpacedKeys;
    OneSpacedKey([c]);
    assert t + [c] == WordOf(r.command) + (" " + [c]);
  }

  lemma SpacedSnoc(keys: seq<string>, k: string)
    ensures SpacedKeys(keys + [k]) == SpacedKeys(keys) + (" " + k)
  {
    assert (keys + [k])[..|keys|] == keys;
  }

  lemma KeyNextGrows(r: Reader, d: Draft, t: string, c: char)
    requires Formed(r) && Sofar(r, d, t) && r.cs.KeyNext?
    ensures Grows(r, d, t, c)
  {
    hide WordOf, SpacedKeys;
    SpacedSnoc(r.keys, [c]);
    assert t + [c] == WordOf(r.command) + (SpacedKeys(r.keys) + (" " + [c]));
  }

  // ----- the end of a key

  lemma KeyGrows(r: Reader, d: Draft, t: string, c: char)
    requires Formed(r) && Sofar(r, d, t) && r.cs.Key?
    ensures Grows(r, d, t, c)
  {
    hide SpacedKeys, WordOf, ClassOf, RetrievalSofar, SetSofar, DeleteSofar;
    var r', d' := Read(r, c).0, Next(r, d, c);
    if IsKeyChar(c) {
      SpacedSnoc(r.keys, r.text);
      SpacedSnoc(r.keys, r.text + [c]);
      assert t + [c] == WordOf(r.command) + (SpacedKeys(r.keys) + (" " + (r.text + [c])));
    } else if r'.cs != Error {
      KeyEnds(r, d, t, c);
    }
  }

  lemma KeyEnds(r: Reader, d: Draft, t: string, c: char)
    requires Formed(r) && Sofar(r, d, t) && r.cs.Key? && !IsKeyChar(c) && Read(r, c).0.cs != Error
    ensures Read(r, c).1 == [] && AfterKeys(Read(r, c).0.cs) && LaterSofar(Read(r, c).0, Next(r, d, c), t + [c])
  {
    hide SpacedKeys, IsKey, NoreplyWord;
    var r', d' := Read(r, c).0, Next(r, d, c);
    assert AllKeys(r.keys + [r.text]);
    if r.keys == [] {
      OneSpacedKey(r.text);
    }
    assert c == ' ' || c == '\r';
    assert ClassAt(r'.cs) == ClassOf(r.command) && r'.keys == r.keys + [r.text];
    match r.cs.cl
    case Retrieval => assert RetrievalSofar(r', d', t + [c]);
    case Storage => if r.command == SET { KeyOfSet(r, d, t, r', d'); }
    case Delete => KeyOfDelete(r, d, t, c, r', d');
    case _ =>
  }

  lemma KeyOfSet(r: Reader, d: Draft, t: string, r': Reader, d': Draft)
    requires Formed(r') && r'.cs == NumFirst(Storage, Flags) && !r'.noreply && !d'.pad && r'.keys == [r.text]
    requires t == "set" + (" " + r.text)
    ensures SetSofar(r', d', t + [' '])
  {
  }

  lemma KeyOfDelete(r: Reader, d: Draft, t: string, c: char, r': Reader, d': Draft)
    requires Formed(r') && !r'.noreply && r'.nums[Exptime] == 0 && r'.keys == [r.text] && !d'.timed
    requires t == "delete" + (" " + r.text)
    requires (c == ' ' && r'.cs == DeleteOption) || (c == '\r' && r'.cs == Cr(Delete))
    ensures DeleteSofar(r', d', t + [c])
  {
  }

  // ----- storage lines

  /** What the end of a numeral stores, if anything. */
  lemma NumeralEnds(f: Field, s: string)
    requires Numeral(s)
    ensures Print(Value(s)) == s && (s[0] != '0' ==> Value(s) > 0)
    ensures Convert(f, s) == if Unstorable(f, Value(s)) then None else Some(FieldValue(f, Value(s)))
  {
    hide Convert, Unstorable, FieldValue;
    PrintValue(s);
    PrintIsNumeral(Value(s));
    ConvertPrinted(f, Value(s));
  }

  /** The state and the action behind a character inside a set line. */
  ghost predicate SetGrows(r: Reader, d: Draft, t: string, c: char)
    requires Formed(r) && r.keys != []
  {
    var (r', out) := Read(r, c);
    Going(r'.cs) ==>
      out == [] && r'.keys == r.keys && r'.command == r.command && SetSofar(r', Next(r, d, c), t + [c])
  }

  lemma SetNumberBegins(r: Reader, d: Draft, t: string, c: char)
    requires Formed(r) && r.keys != [] && SetSofar(r, d, t) && r.cs.NumFirst? && r.cs.cl == Storage
    ensures SetGrows(r, d, t, c)
  {
    hide Before;
  }

  lemma SetNumberGoesOn(r: Reader, d: Draft, t: string, c: char)
    requires Formed(r) && r.keys != [] && SetSofar(r, d, t) && r.cs.Num? && r.cs.cl == Storage && IsDigit(c)
    ensures SetGrows(r, d, t, c)
  {
    hide Before;
    assert (r.text + [c])[0] == r.text[0];
  }

  lemma SetNumberEnds(r: Reader, d: Draft, t: string, c: char)
    requires Formed(r) && r.keys != [] && SetSofar(r, d, t) && InNum(r.cs) && r.cs.cl == Storage && !IsDigit(c)
    ensures SetGrows(r, d, t, c)
  {
    hide Convert, Unstorable, FieldValue, Print, Value;
    var r', d' := Read(r, c).0, Next(r, d, c);
    var f, n := r.cs.f, Value(r.text);
    NumeralEnds(f, r.text);
    if r'.cs != Error {
      assert Delta(r.cs, c).1 == EndNum(f);
      assert r' == r.(cs := AfterNum(Storage, f, c).0, nums := r.nums[f := FieldValue(f, n)]) && !Unstorable(f, n);
      NumberOfSet(r, d, t, c, r', d', n);
    }
  }

  lemma NumberOfSet(r: Reader, d: Draft, t: string, c: char, r': Reader, d': Draft, n: nat)
    requires Formed(r) && r.keys != [] && SetSofar(r, d, t) && InNum(r.cs) && r.cs.cl == Storage
      && (c == ' ' || c == '\r')
    requires r.text == Print(n) && !Unstorable(r.cs.f, n) && (r.cs.f == Bytes ==> n > 0)
    requires r' == r.(cs := AfterNum(Storage, r.cs.f, c).0, nums := r.nums[r.cs.f := FieldValue(r.cs.f, n)])
      && r'.cs != Error
    requires d' == match r.cs.f
                   case Flags => d.(flags := n)
                   case Exptime => d.(exptime := n, timed := true)
                   case _ => d.(bytes := n)
    ensures SetSofar(r', d', t + [c])
  {
    hide Unstorable, FieldValue, Print;
    var key := r.keys[0];
    match r.cs.f
    case Flags => assert t + [c] == Before(key, d', Exptime);
    case Exptime => assert t + [c] == Before(key, d', Bytes);
    case Bytes =>
      assert t == Numbers(key, d');
      if c == '\r' {
        assert t + [c] == Header(r', d');
      }
  }

  lemma SetTailGrows(r: Reader, d: Draft, t: string, c: char)
    requires Formed(r) && r.keys != [] && SetSofar(r, d, t)
    requires r.cs.StorageOption? || r.cs.StorageEnd? || (r.cs.Noreply? && r.cs.cl == Storage)
    ensures SetGrows(r, d, t, c)
  {
    hide Numbers, Unstorable, FieldValue;
    var r', d' := Read(r, c).0, Next(r, d, c);
    var s := Numbers(r.keys[0], d);
    if r'.cs != Error {
      TailOfSet(s, c);
      NumbersIgnorePad(r.keys[0], d, d');
      assert AllStored(r', d') && Numbers(r.keys[0], d') == s;
    }
  }

  lemma NumbersIgnorePad(key: string, d: Draft, d': Draft)
    requires d' == d.(pad := d'.pad)
    ensures Numbers(key, d') == Numbers(key, d)
  {
  }

  /** The texts behind the numbers of a set line. */
  lemma TailOfSet(s: string, c: char)
    ensures s + " " + [c] == s + (" " + [c]) && s + "" + " " + "\r" == s + " " + ['\r']
    ensures NOREPLY[..1] == "n" && NOREPLY[..7] == NOREPLY
    ensures forall n :: 0 <= n < 7 && c == NOREPLY[n] ==> s + " " + NOREPLY[..n] + [c] == s + " " + NOREPLY[..n + 1]
    ensures s + " noreply" + "" + "\r" == s + " " + NOREPLY + ['\r']
    ensures s + " noreply" + " " + "\r" == s + " " + NOREPLY + " " + ['\r']
  {
  }

  lemma SetDataGrows(r: Reader, d: Draft, t: string, c: char)
    requires Formed(r) && r.keys != [] && SetSofar(r, d, t)
    requires (r.cs.Cr? || r.cs.Data? || r.cs.DataCr?) && r.cs.cl == Storage
    ensures SetGrows(r, d, t, c)
  {
    hide Header, Unstorable;
    var r', d' := Read(r, c).0, Next(r, d, c);
    if r'.cs != Error {
      HeaderStays(r, d, r', d');
    }
  }

  lemma HeaderStays(r: Reader, d: Draft, r': Reader, d': Draft)
    requires r.keys != [] && r'.keys == r.keys && r'.noreply == r.noreply && d' == d
    ensures Header(r', d') == Header(r, d)
  {
  }

  /** One character inside a set line. */
  lemma SetLineGrows(r: Reader, d: Draft, t: string, c: char)
    requires Formed(r) && r.keys != [] && SetSofar(r, d, t) && AfterKeys(r.cs) && ClassAt(r.cs) == Storage
    ensures SetGrows(r, d, t, c)
  {
    hide SetSofar, SetGrows;
    match r.cs
    case NumFirst(_, _) => SetNumberBegins(r, d, t, c);
    case Zero(_, _) => SetZeroEnds(r, d, t, c);
    case Num(_, _) => if IsDigit(c) { SetNumberGoesOn(r, d, t, c); } else { SetNumberEnds(r, d, t, c); }
    case StorageOption => SetTailGrows(r, d, t, c);
    case StorageEnd => SetTailGrows(r, d, t, c);
    case Noreply(_, _) => SetTailGrows(r, d, t, c);
    case Cr(_) => SetDataGrows(r, d, t, c);
    case Data(_) => SetDataGrows(r, d, t, c);
    case DataCr(_) => SetDataGrows(r, d, t, c);
    case _ => SetOtherGrows(r, d, t, c);
  }

  lemma SetZeroEnds(r: Reader, d: Draft, t: string, c: char)
    requires Formed(r) && r.keys != [] && SetSofar(r, d, t) && r.cs.Zero? && r.cs.cl == Storage
    ensures SetGrows(r, d, t, c)
  {
    hide SetSofar;
    if !IsDigit(c) {
      SetNumberEnds(r, d, t, c);
    }
  }

  lemma SetOtherGrows(r: Reader, d: Draft, t: string, c: char)
    requires Formed(r) && r.keys != [] && SetSofar(r, d, t) && (r.cs.NoreplyFirst? || r.cs.DataLf?)
    ensures SetGrows(r, d, t, c)
  {
    hide Header, AllStored, Stored, Numbers, Before, Completed;
  }

  // ----- delete lines

  ghost predicate DeleteGrows(r: Reader, d: Draft, t: string, c: char)
    requires Formed(r) && r.keys != []
  {
    var (r', out) := Read(r, c);
    Going(r'.cs) ==>
      out == [] && r'.keys == r.keys && r'.command == r.command && DeleteSofar(r', Next(r, d, c), t + [c])
  }

  lemma DeleteNumberGrows(r: Reader, d: Draft, t: string, c: char)
    requires Formed(r) && r.keys != [] && DeleteSofar(r, d, t)
    requires (r.cs.Num? && r.cs.cl == Delete && IsDigit(c)) || r.cs == DeleteOption
    ensures DeleteGrows(r, d, t, c)
  {
    hide Deletion, Unstorable, FieldValue;
    assert r.cs.Num? ==> (r.text + [c])[0] == r.text[0];
    DeletionIgnores(r.keys[0], d, Next(r, d, c));
    assert NOREPLY[..1] == ['n'];
  }

  lemma DeletionIgnores(key: string, d: Draft, d': Draft)
    ensures d' == d ==> Deletion(key, d') == Deletion(key, d)
    ensures !d.timed && d' == d.(exptime := d'.exptime, timed := true) ==>
              Deletion(key, d') == Deletion(key, d) + " " + Print(d'.exptime)
    ensures d' == d.(pad := d'.pad) ==> Deletion(key, d') == Deletion(key, d)
  {
    hide Print;
  }

  lemma DeleteNumberEnds(r: Reader, d: Draft, t: string, c: char)
    requires Formed(r) && r.keys != [] && DeleteSofar(r, d, t) && InNum(r.cs) && r.cs.cl == Delete && !IsDigit(c)
    ensures DeleteGrows(r, d, t, c)
  {
    hide Convert, Unstorable, FieldValue, Print, Value, Deletion;
    var r', d' := Read(r, c).0, Next(r, d, c);
    NumeralEnds(Exptime, r.text);
    DeletionIgnores(r.keys[0], d, d');
    if r'.cs != Error {
      assert Delta(r.cs, c).1 == EndNum(Exptime);
      assert t == Deletion(r.keys[0], d');
    }
  }

  lemma DeleteTailGrows(r: Reader, d: Draft, t: string, c: char)
    requires Formed(r) && r.keys != [] && DeleteSofar(r, d, t)
    requires (r.cs.NoreplyFirst? || r.cs.Noreply?) && r.cs.cl == Delete
    ensures DeleteGrows(r, d, t, c)
  {
    hide Deletion, Unstorable, FieldValue;
    TailOfSet(Deletion(r.keys[0], d), c);
    DeletionIgnores(r.keys[0], d, Next(r, d, c));
  }

  lemma DeleteLineGrows(r: Reader, d: Draft, t: string, c: char)
    requires Formed(r) && r.keys != [] && DeleteSofar(r, d, t) && AfterKeys(r.cs) && ClassAt(r.cs) == Delete
    ensures DeleteGrows(r, d, t, c)
  {
    hide DeleteSofar, DeleteGrows;
    match r.cs
    case Zero(_, _) => DeleteZeroEnds(r, d, t, c);
    case Num(_, _) => if IsDigit(c) { DeleteNumberGrows(r, d, t, c); } else { DeleteNumberEnds(r, d, t, c); }
    case DeleteOption => DeleteNumberGrows(r, d, t, c);
    case NoreplyFirst(_) => DeleteTailGrows(r, d, t, c);
    case Noreply(_, _) => DeleteTailGrows(r, d, t, c);
    case _ => DeleteOtherGrows(r, d, t, c);
  }

  lemma DeleteZeroEnds(r: Reader, d: Draft, t: string, c: char)
    requires Formed(r) && r.keys != [] && DeleteSofar(r, d, t) && r.cs.Zero? && r.cs.cl == Delete
    ensures DeleteGrows(r, d, t, c)
  {
    hide DeleteSofar;
    if !IsDigit(c) {
      DeleteNumberEnds(r, d, t, c);
    }
  }

  lemma DeleteOtherGrows(r: Reader, d: Draft, t: string, c: char)
    requires Formed(r) && r.keys != [] && DeleteSofar(r, d, t) && AfterKeys(r.cs) && ClassAt(r.cs) == Delete
    requires !InNum(r.cs) && !r.cs.DeleteOption? && !r.cs.NoreplyFirst? && !r.cs.Noreply?
    ensures DeleteGrows(r, d, t, c)
  {
  }

  // ----- any character

  /** States that lines of a retrieval or a delete never get to. */
  predicate Straight(cs: State)
    requires AfterKeys(cs)
  {
    && (ClassAt(cs) == Retrieval ==> cs.KeyNext? || cs.Cr?)
    && (ClassAt(cs) == Delete ==> !cs.DataLf?)
  }

  lemma SofarIsStraight(r: Reader, d: Draft, t: string)
    requires Formed(r) && AfterKeys(r.cs) && Sofar(r, d, t)
    ensures Straight(r.cs) && ClassAt(r.cs) == ClassOf(r.command)
    ensures ClassOf(r.command) == Delete ==> r.command == DELETE
    ensures r.command == SET ==> ClassAt(r.cs) == Storage
  {
    hide SetSofar;
  }

  lemma ClassStays(cs: State, c: char)
    requires AfterKeys(cs) && !cs.KeyNext? && Straight(cs)
    ensures var (cs', a) := Delta(cs, c);
            Going(cs') ==>
              && AfterKeys(cs') && ClassAt(cs') == ClassAt(cs) && !cs'.KeyNext? && ClassAt(cs) != Retrieval
              && (a.Nothing? || a.Mark? || a.EndNum? || a.SetNoreply? || a.StartData? || a.DataByte?)
    ensures Delta(cs, c).0 == Final <==> c == '\n' && Delta(cs, c).1.Do?
  {
    hide IsDigit;
  }

  /** Behind the first key a line keeps its class, its command and its keys up to its end. */
  lemma LaterStays(r: Reader, c: char)
    requires Formed(r) && AfterKeys(r.cs) && !r.cs.KeyNext? && Straight(r.cs)
    ensures var (r', out) := Read(r, c);
            Going(r'.cs) ==>
              && out == [] && AfterKeys(r'.cs) && ClassAt(r'.cs) == ClassAt(r.cs) && r'.command == r.command
              && !r'.cs.KeyNext?
              && ClassAt(r.cs) != Retrieval
  {
    hide Delta, Straight, Convert, Completed;
    ClassStays(r.cs, c);
  }

  lemma LaterGrows(r: Reader, d: Draft, t: string, c: char)
    requires Formed(r) && AfterKeys(r.cs) && !r.cs.KeyNext? && Sofar(r, d, t)
    ensures Grows(r, d, t, c)
  {
    hide Read, Next, SetSofar, DeleteSofar, RetrievalSofar, Straight;
    SofarIsStraight(r, d, t);
    LaterStays(r, c);
    if r.command == SET {
      SetLineGrows(r, d, t, c);
    } else if r.command == DELETE {
      DeleteLineGrows(r, d, t, c);
    }
  }

  lemma StepGrows(r: Reader, d: Draft, t: string, c: char)
    requires Formed(r) && Sofar(r, d, t)
    ensures Grows(r, d, t, c)
  {
    hide Sofar, Grows;
    match r.cs
    case Start => StartGrows(r, d, t, c);
    case Final => StartGrows(r, d, t, c);
    case Error => ErrorGrows(r, d, t, c);
    case Outside => ErrorGrows(r, d, t, c);
    case Word(_) => WordGrows(r, d, t, c);
    case KeyFirst(_) => KeyFirstGrows(r, d, t, c);
    case Key(_) => KeyGrows(r, d, t, c);
    case KeyNext => KeyNextGrows(r, d, t, c);
    case _ => LaterGrows(r, d, t, c);
  }

  lemma ErrorGrows(r: Reader, d: Draft, t: string, c: char)
    requires Formed(r) && Stuck(r.cs)
    ensures Grows(r, d, t, c)
  {
    hide Sofar, Next;
  }

  // ----- the end of a line

  /** The line that ends here. */
  function LineOf(r: Reader, d: Draft): Line {
    if r.keys == [] then GetLine(false, [], false)
    else
      match ClassOf(r.command)
      case Retrieval => GetLine(r.command == GETS, r.keys, d.pad)
      case Delete => DeleteLine(r.keys[0], if d.timed then Some(d.exptime) else None, r.noreply)
      case _ => SetLine(r.keys[0], d.flags, d.exptime, r.payload, r.noreply, d.pad)
  }

  /** The line feed in `t` ends a printed line, and delivers what it stands for. */
  ghost predicate Ends(l: Line, t: string, out: seq<Request>) {
    Printable(l) && !Rejected(l) && PrintLine(l) == t && out == [Meaning(l)]
  }

  lemma GetEnds(r: Reader, d: Draft, t: string)
    requires Formed(r) && r.cs == Cr(Retrieval) && RetrievalSofar(r, d, t)
    ensures Ends(LineOf(r, d), t + ['\n'], Read(r, '\n').1)
  {
    hide SpacedKeys, IsKey;
  }

  lemma DeleteEnds(r: Reader, d: Draft, t: string)
    requires Formed(r) && r.cs == Cr(Delete) && r.command == DELETE
    requires |r.keys| == 1 && IsKey(r.keys[0]) && DeleteSofar(r, d, t)
    ensures Ends(LineOf(r, d), t + ['\n'], Read(r, '\n').1)
  {
    hide IsKey, Unstorable, Print;
    var l := LineOf(r, d);
    assert PrintLine(l) == t + ['\n'];
  }

  lemma SetEnds(r: Reader, d: Draft, t: string)
    requires Formed(r) && r.cs == DataLf(Storage) && r.command == SET
    requires |r.keys| == 1 && IsKey(r.keys[0]) && SetSofar(r, d, t) && |t| < U64 - 1
    ensures Ends(LineOf(r, d), t + ['\n'], Read(r, '\n').1)
  {
    hide IsKey, Unstorable, Print, Read, Header;
    StorageLineEnds(r);
    var l := LineOf(r, d);
    assert |r.payload| < U64 - 1 && d.bytes == |r.payload|;
    SetLinePrinted(r, d, l);
  }

  lemma StorageLineEnds(r: Reader)
    requires Formed(r) && r.cs == DataLf(Storage) && r.command == SET && r.keys != []
    ensures Read(r, '\n').1 == [SetRequest(r.keys[0], r.payload, r.nums[Flags] % U16, r.nums[Exptime], r.noreply)]
  {
  }

  lemma SetLinePrinted(r: Reader, d: Draft, l: Line)
    requires r.keys != [] && d.bytes == |r.payload|
    requires l == SetLine(r.keys[0], d.flags, d.exptime, r.payload, r.noreply, d.pad)
    ensures PrintLine(l) == Header(r, d) + "\n" + r.payload + "\r" + ['\n']
  {
    hide Print, NoreplyWord, Pad;
  }

  /** Only a served command reaches the end of its line. */
  lemma LineEndsHere(r: Reader, d: Draft, t: string, c: char)
    requires Formed(r) && Sofar(r, d, t) && |t| < U64 - 1 && r.cs != Final && Read(r, c).0.cs == Final
    ensures Ends(LineOf(r, d), t + [c], Read(r, c).1)
  {
    hide SetSofar, DeleteSofar, RetrievalSofar, Ends, LineOf;
    if AfterKeys(r.cs) {
      SofarIsStraight(r, d, t);
    }
    ServedLine(r, c);
    match ClassOf(r.command)
    case Retrieval => GetEnds(r, d, t);
    case Delete => DeleteEnds(r, d, t);
    case _ => SetEnds(r, d, t);
  }

  lemma ServedLine(r: Reader, c: char)
    requires Formed(r) && r.cs != Final && Read(r, c).0.cs == Final
    requires AfterKeys(r.cs) ==> Straight(r.cs) && ClassAt(r.cs) == ClassOf(r.command)
    ensures c == '\n' && AfterKeys(r.cs)
    ensures r.cs == Cr(Retrieval) || r.cs == Cr(Delete) || (r.cs == DataLf(Storage) && r.command == SET)
    ensures r.cs == Cr(Delete) ==> r.command == DELETE
  {
    hide Delta, Convert;
    DeltaHasShape(r.cs, c);
    OnlyLineFeedEnds(r.cs, c);
  }

  lemma OnlyLineFeedEnds(cs: State, c: char)
    ensures Delta(cs, c).0 == Final ==> c == '\n' && Delta(cs, c).1.Do?
  {
    hide IsWordPrefix, WordCommand;
  }

  // ----- whole streams

  lemma {:induction false} PrintAllSnoc(lines: seq<Line>, l: Line)
    ensures PrintAll(lines + [l]) == PrintAll(lines) + PrintLine(l)
    ensures (forall k :: k in lines ==> !Rejected(k)) && !Rejected(l) ==>
              Understood(lines + [l]) == Understood(lines) + [Meaning(l)]
    decreases |lines|
  {
    hide PrintLine, Rejected, Meaning;
    if lines == [] {
      assert lines + [l] == [l];
    } else {
      PrintAllSnoc(lines[1..], l);
      assert (lines + [l])[1..] == lines[1..] + [l];
    }
  }

  ghost predicate Accepted(lines: seq<Line>) {
    forall l :: l in lines ==> Printable(l) && !Rejected(l)
  }

  /** Whatever was read without an error is a list of printed lines and the beginning of
      another one, and what they stand for was delivered. */
  lemma {:induction false} Recognised(s: string) returns (lines: seq<Line>, d: Draft, t: string)
    requires Formed(NEW_READER) && |s| < U64 - 1 && !Stuck(After(NEW_READER, s).cs)
    ensures s == PrintAll(lines) + t && Accepted(lines) && Out(NEW_READER, s) == Understood(lines)
    ensures Sofar(After(NEW_READER, s), d, t)
    decreases |s|
  {
    hide Read, Sofar, Printable, Rejected, PrintLine, LineOf;
    if s == "" {
      NothingRead(NEW_READER);
      lines, d, t := [], Draft(0, 0, 0, false, false), "";
      StartsSofar(d);
    } else {
      var n := |s| - 1;
      var u, c := s[..n], s[n];
      assert s == u + [c];
      ReadConcat(NEW_READER, u, [c]);
      var r := After(NEW_READER, u);
      OneChar(r, c);
      if Stuck(r.cs) {
        ErrorStays(r, [c]);
      }
      lines, d, t := Recognised(u);
      lines, d, t := LineGoesOn(r, lines, d, t, c);
    }
  }

  lemma StartsSofar(d: Draft)
    requires Formed(NEW_READER)
    ensures Sofar(NEW_READER, d, "")
  {
    hide LaterSofar;
  }

  lemma LineGoesOn(r: Reader, lines: seq<Line>, d: Draft, t: string, c: char)
    returns (lines': seq<Line>, d': Draft, t': string)
    requires Formed(r) && Sofar(r, d, t) && |t| < U64 - 1 && !Stuck(Read(r, c).0.cs) && Accepted(lines)
    ensures PrintAll(lines') + t' == PrintAll(lines) + t + [c] && Accepted(lines')
    ensures Understood(lines') == Understood(lines) + Read(r, c).1
    ensures Sofar(Read(r, c).0, d', t')
  {
    hide Sofar, Printable, Rejected, PrintLine, LineOf, Read, Meaning;
    if Read(r, c).0.cs == Final {
      NotTwice(r, c);
      LineEndsHere(r, d, t, c);
      var l := LineOf(r, d);
      lines', d', t' := lines + [l], d, "";
      PrintAllSnoc(lines, l);
      FinalSofar(Read(r, c).0, d);
    } else {
      StepGrows(r, d, t, c);
      lines', d', t' := lines, Next(r, d, c), t + [c];
    }
  }

  lemma NotTwice(r: Reader, c: char)
    requires Formed(r) && Read(r, c).0.cs == Final
    ensures r.cs != Final
  {
  }

  lemma FinalSofar(r: Reader, d: Draft)
    requires Formed(r) && r.cs == Final
    ensures Sofar(r, d, "")
  {
    hide LaterSofar;
  }

  // ----- marks outside their arrays

  function GetWord(gets: bool): string {
    if gets then "gets" else "get"
  }

  /** Behind accepted lines, `s` has a retrieval line with 256 keys and the beginning of another. */
  ghost predicate Overrun(s: string, lines: seq<Line>, gets: bool, keys: seq<string>, c: char, rest: string) {
    && Accepted(lines) && |keys| == 256 && AllKeys(keys) && IsKey([c])
    && s == PrintAll(lines) + (GetWord(gets) + SpacedKeys(keys) + " " + [c]) + rest
  }

  ghost predicate Overruns(s: string) {
    exists lines, gets, keys, c, rest :: Overrun(s, lines, gets, keys, c, rest)
  }

  lemma OneKeyTooMany(r: Reader, c: char)
    requires Formed(r) && r.cs == KeyNext && |r.keys| >= MAX_MULTI_GET && IsKey([c])
    ensures Read(r, c).0.cs == Outside
  {
  }

  lemma LongLineOverruns(r: Reader, gets: bool, keys: seq<string>, c: char)
    requires Formed(r) && (r.cs == Start || r.cs == Final)
    requires |keys| == 256 && AllKeys(keys) && IsKey([c])
    ensures After(r, GetWord(gets) + SpacedKeys(keys) + " " + [c]).cs == Outside
  {
    hide Read, WordCommand, SpacedKeys, IsKey;
    var w, cmd := GetWord(gets), if gets then GETS else GET;
    var s := w + SpacedKeys(keys);
    SetIsCommand();
    KeysRun(r, w, cmd, keys);
    KeySpace(After(r, s));
    GoesChar(r, s, Core(After(r, s)), ' ', Core(Read(After(r, s), ' ').0));
    OneKeyTooMany(After(r, s + " "), c);
    OneChar(After(r, s + " "), c);
    ReadConcat(r, s + " ", [c]);
  }

  lemma OverrunLeaves(s: string, lines: seq<Line>, gets: bool, keys: seq<string>, c: char, rest: string)
    requires Formed(NEW_READER) && Overrun(s, lines, gets, keys, c, rest)
    ensures After(NEW_READER, s).cs == Outside
  {
    hide Printable, Rejected, PrintAll, Read, SpacedKeys, After, Out, IsKey;
    var long := GetWord(gets) + SpacedKeys(keys) + " " + [c];
    LinesRead(NEW_READER, lines);
    LongLineOverruns(After(NEW_READER, PrintAll(lines)), gets, keys, c);
    ReadConcat(NEW_READER, PrintAll(lines), long);
    ReadConcat(NEW_READER, PrintAll(lines) + long, rest);
    ErrorStays(After(NEW_READER, PrintAll(lines) + long), rest);
  }

  /** Only the 257th key of a line leads outside. */
  lemma LeavesAtKey(r: Reader, d: Draft, t: string, c: char)
    requires Formed(r) && Sofar(r, d, t) && r.cs != Outside && Read(r, c).0.cs == Outside
    ensures AllKeys(r.keys) && |r.keys| == MAX_MULTI_GET && IsKeyChar(c)
    ensures t == GetWord(r.command == GETS) + SpacedKeys(r.keys) + " "
  {
    hide SetSofar, DeleteSofar, SpacedKeys, IsKey, Convert, Completed;
    OnlyNextKeyLeaves(r, c);
  }

  lemma OnlyNextKeyLeaves(r: Reader, c: char)
    requires Formed(r) && r.cs != Outside && Read(r, c).0.cs == Outside
    ensures r.cs == KeyNext && |r.keys| >= MAX_MULTI_GET && IsKeyChar(c)
  {
  }

  lemma {:induction false} LeavesOverrun(s: string)
    requires Formed(NEW_READER) && |s| < U64 - 1 && After(NEW_READER, s).cs == Outside
    ensures Overruns(s)
    decreases |s|
  {
    hide Read, Sofar, PrintAll, SpacedKeys, AllKeys, Accepted, Overruns, Overrun;
    if s == "" {
      NothingRead(NEW_READER);
    } else {
      var n := |s| - 1;
      var u, c := s[..n], s[n];
      assert s == u + [c];
      ReadConcat(NEW_READER, u, [c]);
      var r := After(NEW_READER, u);
      OneChar(r, c);
      if r.cs == Outside {
        LeavesOverrun(u);
        OverrunGoesOn(u, c);
      } else {
        if r.cs == Error {
          ErrorStays(r, [c]);
        }
        var lines, d, t := Recognised(u);
        LeavesAtKey(r, d, t, c);
        OverrunsHere(s, lines, r.command == GETS, r.keys, c, t);
      }
    }
  }

  lemma OverrunGoesOn(u: string, c: char)
    requires Overruns(u)
    ensures Overruns(u + [c])
  {
    hide Accepted, AllKeys, PrintAll, SpacedKeys;
    var lines, gets, keys, c0, rest :| Overrun(u, lines, gets, keys, c0, rest);
    var head := PrintAll(lines) + (GetWord(gets) + SpacedKeys(keys) + " " + [c0]);
    assert (head + rest) + [c] == head + (rest + [c]);
    assert Overrun(u + [c], lines, gets, keys, c0, rest + [c]);
  }

  lemma OverrunsHere(s: string, lines: seq<Line>, gets: bool, keys: seq<string>, c: char, t: string)
    requires Accepted(lines) && |keys| == MAX_MULTI_GET && AllKeys(keys) && IsKeyChar(c)
    requires t == GetWord(gets) + SpacedKeys(keys) + " " && s == PrintAll(lines) + t + [c]
    ensures Overruns(s)
  {
    hide Accepted, AllKeys, PrintAll, SpacedKeys;
    assert s == PrintAll(lines) + (t + [c]) + "";
    assert Overrun(s, lines, gets, keys, c, "");
  }

  /** The marks stay inside their arrays if and only if no retrieval line reaches a 257th key. */
  lemma MarksStayInside(s: string)
    requires |s| < U64 - 1
    ensures Formed(NEW_READER)
    ensures After(NEW_READER, s).cs == Outside <==> Overruns(s)
  {
    hide Overrun, After;
    NewReaderFormed();
    if After(NEW_READER, s).cs == Outside {
      LeavesOverrun(s);
    }
    if Overruns(s) {
      var lines, gets, keys, c, rest :| Overrun(s, lines, gets, keys, c, rest);
      OverrunLeaves(s, lines, gets, keys, c, rest);
    }
  }

  /** A line that does: 257 keys of one character. */
  lemma LongLine()
    ensures Formed(NEW_READER)
    ensures var s := "get" + SpacedKeys(seq(256, _ => "k")) + " " + ['k'];
            Overruns(s) && After(NEW_READER, s).cs == Outside
  {
    hide SpacedKeys, After;
    NewReaderFormed();
    var keys := seq(MAX_MULTI_GET, _ => "k");
    var s := "get" + SpacedKeys(keys) + " " + ['k'];
    assert AllKeys(keys) by {
      assert forall k :: k in keys ==> k == "k";
    }
    assert s == PrintAll([]) + (GetWord(false) + SpacedKeys(keys) + " " + ['k']) + "";
    assert Overrun(s, [], false, keys, 'k', "");
    OverrunLeaves(s, [], false, keys, 'k', "");
  }

  // ----- the language

  /** The language of the parser, as long as its marks stay inside their arrays: a stream is read
      to the end of a command if and only if it is a list of printed lines, none of which is
      rejected; what they stand for is delivered. */
  lemma LanguageIsPrinted(s: string)
    requires |s| < U64 - 1
    ensures Formed(NEW_READER)
    ensures After(NEW_READER, s).cs == Outside <==> Overruns(s)
    ensures !Overruns(s) ==>
              (After(NEW_READER, s).cs == Final <==> s != "" && exists lines :: Accepted(lines) && s == PrintAll(lines))
    ensures forall lines :: Accepted(lines) && s == PrintAll(lines) ==>
              !Overruns(s) && Out(NEW_READER, s) == Understood(lines)
  {
    hide Sofar, Printable, Rejected, PrintLine, After, Out, Overruns;
    MarksStayInside(s);
    if After(NEW_READER, s).cs == Final {
      var lines, d, t := Recognised(s);
      FinalText(After(NEW_READER, s), d, t);
      assert s == PrintAll(lines) + "" == PrintAll(lines);
      NothingRead(NEW_READER);
    }
    forall lines | Accepted(lines) && s == PrintAll(lines)
      ensures Out(NEW_READER, s) == Understood(lines) && After(NEW_READER, s).cs == if s == "" then Start else Final
    {
      LinesRead(NEW_READER, lines);
      if lines != [] {
        PrintAllNotEmpty(lines);
      }
    }
  }

  lemma PrintAllNotEmpty(lines: seq<Line>)
    requires lines != []
    ensures PrintAll(lines) != ""
  {
  }

  lemma FinalText(r: Reader, d: Draft, t: string)
    requires Formed(r) && r.cs == Final && Sofar(r, d, t)
    ensures t == ""
  {
  }
}
