/** The protocol lines a client prints, and what the grammar reads from them. */
module MemtextRoundTrip {
  import opened Common
  import opened Decimal
  import opened MemtextParser
  import opened MemtextStream

  /** `pad` is the trailing space some client libraries send. */
  datatype Line =
    | GetLine(gets: bool, keys: seq<string>, pad: bool)
    | SetLine(key: string, flags: nat, exptime: nat, data: string, noreply: bool, pad: bool)
    | DeleteLine(key: string, time: Option<nat>, noreply: bool)

  predicate IsKey(k: string) {
    k != "" && ' ' !in k && '\r' !in k && '\n' !in k && '\0' !in k
  }

  predicate Printable(l: Line) {
    match l
    case GetLine(_, keys, _) => 0 < |keys| <= 256 && forall k :: k in keys ==> IsKey(k)
    case SetLine(key, _, _, data, _, _) => IsKey(key) && |data| < U64
    case DeleteLine(key, _, _) => IsKey(key)
  }

  function SpacedKeys(keys: seq<string>): string {
    if keys == [] then "" else SpacedKeys(keys[..|keys| - 1]) + (" " + keys[|keys| - 1])
  }

  function Pad(pad: bool): string { if pad then " " else "" }
  function NoreplyWord(noreply: bool): string { if noreply then " noreply" else "" }

  function PrintLine(l: Line): string {
    match l
    case GetLine(gets, keys, pad) => (if gets then "gets" else "get") + SpacedKeys(keys) + Pad(pad) + "\r\n"
    case SetLine(key, flags, exptime, data, noreply, pad) =>
      "set" + " " + key + " " + Print(flags) + " " + Print(exptime) + " " + Print(|data|)
      + NoreplyWord(noreply) + Pad(pad) + "\r\n" + data + "\r\n"
    case DeleteLine(key, exptime, noreply) =>
      "delete" + " " + key + (if exptime.Some? then " " + Print(exptime.value) else "") + NoreplyWord(noreply) + "\r\n"
  }

  /** What a field keeps of a number: strtoul gives at most 64 bits, exptime has 32. */
  function FieldValue(f: Field, n: nat): nat {
    var v := if n < U64 then n else U64 - 1;
    if f == Exptime then v % U32 else v
  }

  /** Numerals have at most 20 digits; and a number that is not zero but becomes zero in its
      field is taken for a conversion error. */
  predicate Unstorable(f: Field, n: nat) {
    n >= Pow10(NUM_BUF_MAX) || (n != 0 && FieldValue(f, n) == 0)
  }

  /** In figures: 64 bits are kept as they are or modulo 2^32, and what has more than 64 bits and
      no more than 20 digits becomes the largest number. */
  lemma LargeNumbers(f: Field, n: nat)
    ensures n < 0x1_0000_0000_0000_0000 ==>
              && FieldValue(f, n) == (if f == Exptime then n % 0x1_0000_0000 else n)
              && (Unstorable(f, n) <==> f == Exptime && n != 0 && n % 0x1_0000_0000 == 0)
    ensures 0x1_0000_0000_0000_0000 <= n < 100_000_000_000_000_000_000 ==>
              && FieldValue(f, n) == (if f == Exptime then 0xFFFF_FFFF else 0xFFFF_FFFF_FFFF_FFFF)
              && !Unstorable(f, n)
    ensures n >= 100_000_000_000_000_000_000 ==> Unstorable(f, n)
  {
    hide Pow10;
    PowersOfTen();
  }

  /** The grammar has no payload of length 0. */
  predicate Rejected(l: Line) {
    match l
    case GetLine(_, _, _) => false
    case SetLine(_, flags, exptime, data, _, _) =>
      data == "" || Unstorable(Flags, flags) || Unstorable(Exptime, exptime)
    case DeleteLine(_, exptime, _) => exptime.Some? && Unstorable(Exptime, exptime.value)
  }

  /** The request a line stands for; of the flags it has 16 bits. */
  function Meaning(l: Line): Request {
    match l
    case GetLine(gets, keys, _) => GetRequest(if gets then GETS else GET, keys)
    case SetLine(key, flags, exptime, data, noreply, _) =>
      SetRequest(key, data, FieldValue(Flags, flags) % U16, FieldValue(Exptime, exptime), noreply)
    case DeleteLine(key, exptime, noreply) =>
      DeleteRequest(key, if exptime.Some? then FieldValue(Exptime, exptime.value) else 0, noreply)
  }

  // ----- segments of a line

  lemma OneChar(r: Reader, c: char)
    requires Formed(r)
    ensures After(r, [c]) == Read(r, c).0 && Out(r, [c]) == Read(r, c).1
  {
    assert [c][1..] == "";
  }

  lemma NothingRead(r: Reader)
    requires Formed(r)
    ensures After(r, "") == r && Out(r, "") == []
  {
  }

  lemma ReadFirst(r: Reader, s: string)
    requires Formed(r) && s != ""
    ensures After(r, s) == After(Read(r, s[0]).0, s[1..])
    ensures Out(r, s) == Read(r, s[0]).1 + Out(Read(r, s[0]).0, s[1..])
  {
  }

  /** Everything but the scratch text. */
  function Core(r: Reader): Reader {
    r.(text := "")
  }

  lemma WordChar(r: Reader, u: string, c: char)
    requires Formed(r) && r.cs == Word(u) && IsWordPrefix(u + [c])
    ensures Read(r, c).1 == []
    ensures var cmd := if WordCommand(u + [c]).Some? then WordCommand(u + [c]).value else r.command;
            Core(Read(r, c).0) == Core(r).(cs := Word(u + [c]), command := cmd)
  {
  }

  lemma PrefixOfPrefix(u: string, v: string)
    requires IsWordPrefix(u + v)
    ensures IsWordPrefix(u)
  {
    assert u <= u + v;
  }

  /** Behind a part of a command word the rest of the word is read. */
  lemma {:induction false} WordTail(r: Reader, u: string, v: string, cmd: Command)
    requires Formed(r) && r.cs == Word(u) && IsWordPrefix(u + v) && WordCommand(u + v) == Some(cmd)
    requires v == "" ==> r.command == cmd
    ensures Out(r, v) == [] && Core(After(r, v)) == Core(r).(cs := Word(u + v), command := cmd)
    decreases |v|
  {
    hide Read, IsWordPrefix, WordCommand;
    if v == "" {
      assert u + v == u;
    } else {
      var u', v' := u + [v[0]], v[1..];
      assert u' + v' == u + v;
      PrefixOfPrefix(u', v');
      WordChar(r, u, v[0]);
      assert v' == "" ==> u' == u + v;
      WordTail(Read(r, v[0]).0, u', v', cmd);
    }
  }

  /** A command word at the start of a line. */
  lemma WordRun(r: Reader, w: string, cmd: Command)
    requires Formed(r) && (r.cs == Start || r.cs == Final) && WordCommand(w) == Some(cmd)
    ensures Out(r, w) == []
    ensures Core(After(r, w)) ==
            Core(r).(cs := Word(w), command := cmd, keys := [], noreply := false, nums := r.nums[Exptime := 0])
  {
    hide Read;
    assert IsWordPrefix(w) && |w| >= 3 && w == [w[0]] + w[1..];
    PrefixOfPrefix([w[0]], w[1..]);
    WordBegins(r, w[0]);
    WordTail(Read(r, w[0]).0, [w[0]], w[1..], cmd);
  }

  lemma WordBegins(r: Reader, c: char)
    requires Formed(r) && (r.cs == Start || r.cs == Final) && IsWordPrefix([c])
    ensures Read(r, c).1 == []
    ensures Core(Read(r, c).0) == Core(r).(cs := Word([c]), keys := [], noreply := false, nums := r.nums[Exptime := 0])
  {
    hide IsWordPrefix;
  }

  /** The rest of a key. */
  lemma {:induction false} KeyTail(r: Reader, k: string)
    requires Formed(r) && r.cs.Key? && forall i :: 0 <= i < |k| ==> IsKeyChar(k[i])
    ensures Out(r, k) == [] && After(r, k) == r.(text := r.text + k)
    decreases |k|
  {
    if k == "" {
      assert r.text + k == r.text;
    } else {
      KeyTail(Read(r, k[0]).0, k[1..]);
      assert r.text + k == (r.text + [k[0]]) + k[1..];
    }
  }

  lemma KeyRun(r: Reader, k: string)
    requires Formed(r) && IsKey(k) && (r.cs.KeyFirst? || (r.cs.KeyNext? && |r.keys| < MAX_MULTI_GET))
    ensures Out(r, k) == []
    ensures After(r, k) == r.(cs := Key(if r.cs.KeyFirst? then r.cs.cl else Retrieval), text := k)
  {
    var r1 := Read(r, k[0]).0;
    KeyTail(r1, k[1..]);
    assert k == [k[0]] + k[1..];
  }

  /** The rest of a number. */
  lemma {:induction false} NumTail(r: Reader, s: string)
    requires Formed(r) && r.cs.Num? && AllDigits(s)
    ensures Out(r, s) == [] && After(r, s) == r.(text := r.text + s)
    decreases |s|
  {
    if s == "" {
      assert r.text + s == r.text;
    } else {
      NumTail(Read(r, s[0]).0, s[1..]);
      assert r.text + s == (r.text + [s[0]]) + s[1..];
    }
  }

  function InNumber(cl: Class, f: Field, n: nat): State {
    if n == 0 then Zero(cl, f) else Num(cl, f)
  }

  /** A printed number where one may start. */
  lemma NumRun(r: Reader, cl: Class, f: Field, n: nat)
    requires Formed(r) && (r.cs == NumFirst(cl, f) || (r.cs == DeleteOption && cl == Delete && f == Exptime))
    requires f == Bytes ==> n > 0
    ensures Out(r, Print(n)) == [] && After(r, Print(n)) == r.(cs := InNumber(cl, f, n), text := Print(n))
  {
    hide Print, Value, Read;
    PrintIsNumeral(n);
    PrintZero();
    var s := Print(n);
    NumBegins(r, cl, f, s[0]);
    assert s == [s[0]] + s[1..];
    if n == 0 {
      assert s[1..] == "";
    } else {
      NumTail(Read(r, s[0]).0, s[1..]);
    }
  }

  lemma NumBegins(r: Reader, cl: Class, f: Field, c: char)
    requires Formed(r) && (r.cs == NumFirst(cl, f) || (r.cs == DeleteOption && cl == Delete && f == Exptime))
    requires IsDigit(c) && (c == '0' ==> f != Bytes)
    ensures Read(r, c).1 == [] && Read(r, c).0 == r.(cs := if c == '0' then Zero(cl, f) else Num(cl, f), text := [c])
  {
  }

  /** What converting a printed number gives. */
  lemma ConvertPrinted(f: Field, n: nat)
    ensures AllDigits(Print(n)) && Print(n) != ""
    ensures Convert(f, Print(n)) == if Unstorable(f, n) then None else Some(FieldValue(f, n))
  {
    hide Print, Value, Pow10;
    PrintIsNumeral(n);
    PowersOfTen();
    if n < Pow10(NUM_BUF_MAX) {
      PrintLength(n, NUM_BUF_MAX);
    } else {
      PrintTooLong(n, NUM_BUF_MAX);
    }
  }

  /** A printed number and the character behind it. */
  lemma NumberThen(r: Reader, cl: Class, f: Field, n: nat, c: char)
    requires Formed(r) && (f == Bytes ==> n > 0)
    requires r.cs == NumFirst(cl, f) || (r.cs == DeleteOption && cl == Delete && f == Exptime)
    requires !IsDigit(c) && AfterNum(cl, f, c).1 == EndNum(f)
    ensures Out(r, Print(n) + [c]) == []
    ensures Unstorable(f, n) ==> After(r, Print(n) + [c]).cs == Error
    ensures !Unstorable(f, n) ==>
              Core(After(r, Print(n) + [c])) ==
              Core(r).(cs := AfterNum(cl, f, c).0, nums := r.nums[f := FieldValue(f, n)])
  {
    hide Convert, FieldValue, Unstorable, AfterNum, Read, Print;
    NumRun(r, cl, f, n);
    var r1 := After(r, Print(n));
    OneChar(r1, c);
    ReadConcat(r, Print(n), [c]);
    ConvertPrinted(f, n);
    EndOfNumber(r1, cl, f, n, c);
  }

  lemma EndOfNumber(r: Reader, cl: Class, f: Field, n: nat, c: char)
    requires Formed(r) && r.cs == InNumber(cl, f, n) && r.text == Print(n) && r.text != "" && AllDigits(r.text)
    requires !IsDigit(c) && AfterNum(cl, f, c).1 == EndNum(f)
    ensures Read(r, c).1 == []
    ensures match Convert(f, r.text)
            case None => Read(r, c).0.cs == Error
            case Some(v) => Core(Read(r, c).0) == Core(r).(cs := AfterNum(cl, f, c).0, nums := r.nums[f := v])
  {
    hide Convert, AfterNum;
  }

  /** The payload is counted, not looked at. */
  lemma {:induction false} DataRun(r: Reader, d: string)
    requires Formed(r) && r.cs.Data? && d != "" && r.left == |d|
    ensures Out(r, d) == []
    ensures Core(After(r, d)) == Core(r).(cs := DataCr(r.cs.cl), payload := r.text + d, left := 0)
    decreases |d|
  {
    hide Read, After, Out;
    DataChar(r, d[0]);
    ReadFirst(r, d);
    if |d| == 1 {
      assert d == [d[0]] && d[1..] == "";
      NothingRead(Read(r, d[0]).0);
    } else {
      DataRun(Read(r, d[0]).0, d[1..]);
      assert (r.text + [d[0]]) + d[1..] == r.text + d;
    }
  }

  lemma DataChar(r: Reader, c: char)
    requires Formed(r) && r.cs.Data? && r.left > 0
    ensures Read(r, c).1 == []
    ensures r.left > 1 ==> Read(r, c).0 == r.(left := r.left - 1, text := r.text + [c])
    ensures r.left == 1 ==> Read(r, c).0 == r.(cs := DataCr(r.cs.cl), left := 0, payload := r.text + [c])
  {
  }

  lemma {:induction false} NoreplyTail(r: Reader, n: nat)
    requires Formed(r) && n <= |NOREPLY| && r.cs.Noreply? && r.cs.n == n
    ensures Out(r, NOREPLY[n..]) == []
    ensures Core(After(r, NOREPLY[n..])) == Core(r).(cs := Noreply(r.cs.cl, |NOREPLY|))
    decreases |NOREPLY| - n
  {
    hide Read;
    if n < |NOREPLY| {
      NoreplyChar(r, n);
      assert NOREPLY[n..][0] == NOREPLY[n] && NOREPLY[n..][1..] == NOREPLY[n + 1..];
      NoreplyTail(Read(r, NOREPLY[n]).0, n + 1);
    }
  }

  lemma NoreplyChar(r: Reader, n: nat)
    requires Formed(r) && n < |NOREPLY| && r.cs.Noreply? && r.cs.n == n
    ensures Read(r, NOREPLY[n]).1 == [] && Core(Read(r, NOREPLY[n]).0) == Core(r).(cs := Noreply(r.cs.cl, n + 1))
  {
  }

  function NoreplyClass(cs: State): Option<Class> {
    match cs
    case StorageOption => Some(Storage)
    case DeleteOption => Some(Delete)
    case NoreplyFirst(cl) => Some(cl)
    case _ => None
  }

  lemma NoreplyRun(r: Reader)
    requires Formed(r) && NoreplyClass(r.cs).Some?
    ensures Out(r, "noreply") == []
    ensures Core(After(r, "noreply")) == Core(r).(cs := Noreply(NoreplyClass(r.cs).value, |NOREPLY|))
  {
    hide Read;
    NoreplyBegins(r);
    NoreplyTail(Read(r, 'n').0, 1);
    assert "noreply"[1..] == NOREPLY[1..];
  }

  lemma NoreplyBegins(r: Reader)
    requires Formed(r) && NoreplyClass(r.cs).Some?
    ensures Read(r, 'n').1 == [] && Core(Read(r, 'n').0) == Core(r).(cs := Noreply(NoreplyClass(r.cs).value, 1))
  {
  }

  /** The scratch text does not matter to a character that ends or starts something. */
  lemma CrRead(r: Reader)
    requires Formed(r)
    ensures r.cs == StorageOption || r.cs == StorageEnd ==>
              Read(r, '\r').1 == [] && Core(Read(r, '\r').0) == Core(r).(cs := Cr(Storage))
    ensures r.cs == KeyNext ==> Read(r, '\r').1 == [] && Core(Read(r, '\r').0) == Core(r).(cs := Cr(Retrieval))
    ensures r.cs.Noreply? && r.cs.n == |NOREPLY| ==>
              Read(r, '\r').1 == [] && Core(Read(r, '\r').0) == Core(r).(cs := Cr(r.cs.cl), noreply := true)
    ensures r.cs == Noreply(Storage, |NOREPLY|) ==>
              Read(r, ' ').1 == [] && Core(Read(r, ' ').0) == Core(r).(cs := StorageEnd, noreply := true)
  {
  }

  // ----- lines

  /** `s` is read without delivering anything and leads, up to the scratch text, to `core`. */
  ghost predicate Goes(r: Reader, s: string, core: Reader) {
    Formed(r) && Out(r, s) == [] && Core(After(r, s)) == core
  }

  /** A line up to its first key. */
  lemma HeadRun(r: Reader, w: string, cmd: Command, key: string)
    requires Formed(r) && (r.cs == Start || r.cs == Final) && WordCommand(w) == Some(cmd) && IsKey(key)
    ensures Out(r, w + " " + key) == []
    ensures After(r, w + " " + key) ==
            After(r, w + " ").(cs := Key(ClassOf(cmd)), text := key)
    ensures Core(After(r, w + " " + key)) ==
            Core(r).(cs := Key(ClassOf(cmd)), command := cmd, keys := [], noreply := false,
                nums := r.nums[Exptime := 0])
  {
    hide Read, WordCommand, ClassOf;
    WordRun(r, w, cmd);
    var r1 := After(r, w);
    WordSpace(r1, w, cmd);
    OneChar(r1, ' ');
    ReadConcat(r, w, " ");
    ReadConcat(r, w + " ", key);
    KeyRun(After(r, w + " "), key);
  }

  lemma WordSpace(r: Reader, w: string, cmd: Command)
    requires Formed(r) && r.cs == Word(w) && WordCommand(w) == Some(cmd)
    ensures Read(r, ' ').1 == [] && Core(Read(r, ' ').0) == Core(r).(cs := KeyFirst(ClassOf(cmd)))
  {
    hide IsWordPrefix, WordCommand, ClassOf;
    SpaceEndsWord(w);
  }

  lemma NoPrefix(u: string, word: string)
    requires u != "" && u[|u| - 1] == ' ' && ' ' !in word
    ensures !(u <= word)
  {
    if |u| <= |word| {
      assert word[|u| - 1] in word;
      assert u[|u| - 1] != word[|u| - 1];
    }
  }

  lemma SpaceEndsWord(w: string)
    ensures !IsWordPrefix(w + [' '])
  {
    var u := w + [' '];
    NoPrefix(u, "gets");
    NoPrefix(u, "set");
    NoPrefix(u, "add");
    NoPrefix(u, "replace");
    NoPrefix(u, "append");
    NoPrefix(u, "prepend");
    NoPrefix(u, "cas");
    NoPrefix(u, "delete");
    NoPrefix(u, "incr");
    NoPrefix(u, "decr");
  }

  /** The state behind a key and a space. */
  function BehindKey(cl: Class): State {
    match cl
    case Retrieval => KeyNext
    case Delete => DeleteOption
    case _ => NumFirst(cl, if cl == Numeric then CasUnique else Flags)
  }

  /** The space behind a key. */
  lemma KeySpace(r: Reader)
    requires Formed(r) && r.cs.Key?
    ensures Read(r, ' ').1 == []
    ensures Core(Read(r, ' ').0) == Core(r).(cs := BehindKey(r.cs.cl), keys := r.keys + [r.text])
  {
  }

  lemma KeyCr(r: Reader)
    requires Formed(r) && (r.cs == Key(Retrieval) || r.cs == Key(Delete))
    ensures Read(r, '\r').1 == []
    ensures Core(Read(r, '\r').0) == Core(r).(cs := Cr(r.cs.cl), keys := r.keys + [r.text])
  {
  }

  lemma NoZeroBytes(r: Reader, s: string)
    requires Formed(r) && r.cs == NumFirst(Storage, Bytes) && s != "" && s[0] == '0'
    ensures After(r, s).cs == Error && Out(r, s) == []
  {
    ErrorStays(Read(r, s[0]).0, s[1..]);
  }

  /** The flags and the exptime of a storage line. */
  lemma TwoNumbers(r: Reader, flags: nat, exptime: nat)
    requires Formed(r) && r.cs == NumFirst(Storage, Flags)
    ensures var s := Print(flags) + [' '] + (Print(exptime) + [' ']);
            && Out(r, s) == []
            && (Unstorable(Flags, flags) || Unstorable(Exptime, exptime) ==> After(r, s).cs == Error)
            && (!Unstorable(Flags, flags) && !Unstorable(Exptime, exptime) ==>
                  Core(After(r, s)) == Core(r).(cs := NumFirst(Storage, Bytes), nums := Stored(r.nums, flags, exptime)))
  {
    hide Read, Print, After, Out, Unstorable, FieldValue;
    var s1, s2 := Print(flags) + [' '], Print(exptime) + [' '];
    NumberThen(r, Storage, Flags, flags, ' ');
    ReadConcat(r, s1, s2);
    if Unstorable(Flags, flags) {
      ErrorStays(After(r, s1), s2);
    } else {
      NumberThen(After(r, s1), Storage, Exptime, exptime, ' ');
    }
  }

  function Stored(nums: map<Field, nat>, flags: nat, exptime: nat): map<Field, nat> {
    nums[Flags := FieldValue(Flags, flags)][Exptime := FieldValue(Exptime, exptime)]
  }

  /** The numbers of a storage line, up to the character behind them. */
  lemma NumbersRun(r: Reader, flags: nat, exptime: nat, len: nat, c: char)
    requires Formed(r) && r.cs == NumFirst(Storage, Flags) && (c == ' ' || c == '\r')
    requires len < U64
    ensures var s := Print(flags) + " " + (Print(exptime) + " ") + (Print(len) + [c]);
            && Out(r, s) == []
            && (len == 0 || Unstorable(Flags, flags) || Unstorable(Exptime, exptime) ==> After(r, s).cs == Error)
            && (len != 0 && !Unstorable(Flags, flags) && !Unstorable(Exptime, exptime) ==>
                  Core(After(r, s)) == Core(r).(cs := if c == ' ' then StorageOption else Cr(Storage),
                                                nums := Stored(r.nums, flags, exptime)[Bytes := len]))
  {
    hide Read, Print, After, Out, Unstorable, Stored;
    var s1, s2 := Print(flags) + [' '] + (Print(exptime) + [' ']), Print(len) + [c];
    TwoNumbers(r, flags, exptime);
    var r2 := After(r, s1);
    ReadConcat(r, s1, s2);
    if r2.cs == Error {
      ErrorStays(r2, s2);
    } else {
      LastNumber(r2, len, c);
    }
  }

  lemma LastNumber(r: Reader, len: nat, c: char)
    requires Formed(r) && r.cs == NumFirst(Storage, Bytes) && (c == ' ' || c == '\r') && len < U64
    ensures Out(r, Print(len) + [c]) == []
    ensures len == 0 ==> After(r, Print(len) + [c]).cs == Error
    ensures len != 0 ==>
              Core(After(r, Print(len) + [c])) ==
              Core(r).(cs := if c == ' ' then StorageOption else Cr(Storage), nums := r.nums[Bytes := len])
  {
    hide Read, Print, After, Out, Pow10;
    PowersOfTen();
    if len == 0 {
      PrintZero();
      NoZeroBytes(r, Print(len) + [c]);
    } else {
      NumberThen(r, Storage, Bytes, len, c);
    }
  }

  /** What follows the first character behind the numbers. */
  function TailRest(noreply: bool, pad: bool): string {
    ToCr(noreply, pad) + ['\n']
  }

  function ToCr(noreply: bool, pad: bool): string {
    if noreply then (if pad then "noreply" + " " + "\r" else "noreply" + "\r") else if pad then "\r" else ""
  }

  /** One more character of a segment. */
  lemma GoesChar(r: Reader, s: string, core: Reader, c: char, core2: Reader)
    requires Goes(r, s, core) && Read(After(r, s), c).1 == [] && Core(Read(After(r, s), c).0) == core2
    ensures Goes(r, s + [c], core2) && After(r, s + [c]) == Read(After(r, s), c).0
  {
    hide Read;
    OneChar(After(r, s), c);
    ReadConcat(r, s, [c]);
  }

  lemma NoreplyCr(r: Reader)
    requires Formed(r) && NoreplyClass(r.cs).Some?
    ensures Goes(r, "noreply" + "\r", Core(r).(cs := Cr(NoreplyClass(r.cs).value), noreply := true))
  {
    hide Read;
    NoreplyRun(r);
    CrRead(After(r, "noreply"));
    GoesChar(r, "noreply", Core(After(r, "noreply")), '\r',
        Core(r).(cs := Cr(NoreplyClass(r.cs).value), noreply := true));
  }

  lemma NoreplyPadCr(r: Reader)
    requires Formed(r) && r.cs == StorageOption
    ensures Goes(r, "noreply" + " " + "\r", Core(r).(cs := Cr(Storage), noreply := true))
  {
    hide Read;
    NoreplyRun(r);
    CrRead(After(r, "noreply"));
    GoesChar(r, "noreply", Core(After(r, "noreply")), ' ', Core(r).(cs := StorageEnd, noreply := true));
    var r1 := After(r, "noreply" + " ");
    CrRead(r1);
    GoesChar(r, "noreply" + " ", Core(r1), '\r', Core(r).(cs := Cr(Storage), noreply := true));
  }

  lemma TailRun(r: Reader, noreply: bool, pad: bool)
    requires Formed(r) && r.cs == if noreply || pad then StorageOption else Cr(Storage)
    ensures Goes(r, TailRest(noreply, pad),
                 Core(r).(cs := Data(Storage), noreply := r.noreply || noreply, left := r.nums[Bytes]))
    ensures After(r, TailRest(noreply, pad)).text == ""
  {
    hide Read, After, Out, ToCr;
    CrRun(r, noreply, pad);
    ToData(r, ToCr(noreply, pad), r.(noreply := r.noreply || noreply));
  }

  lemma CrRun(r: Reader, noreply: bool, pad: bool)
    requires Formed(r) && r.cs == if noreply || pad then StorageOption else Cr(Storage)
    ensures Goes(r, ToCr(noreply, pad), Core(r).(cs := Cr(Storage), noreply := r.noreply || noreply))
  {
    hide Read, After, Out;
    if noreply {
      if pad { NoreplyPadCr(r); } else { NoreplyCr(r); }
    } else if pad {
      CrRead(r);
      OneChar(r, '\r');
    } else {
      NothingRead(r);
    }
  }

  /** The line feed behind a storage line. */
  lemma ToData(r: Reader, s: string, base: Reader)
    requires Formed(base) && Goes(r, s, Core(base).(cs := Cr(Storage)))
    ensures Goes(r, s + ['\n'], Core(base).(cs := Data(Storage), left := base.nums[Bytes]))
    ensures After(r, s + ['\n']).text == ""
  {
    hide Read;
    var r1 := After(r, s);
    LfStartsData(r1);
    GoesChar(r, s, Core(r1), '\n', Core(base).(cs := Data(Storage), left := base.nums[Bytes]));
  }

  lemma LfStartsData(r: Reader)
    requires Formed(r) && r.cs == Cr(Storage)
    ensures Read(r, '\n').1 == [] && Read(r, '\n').0 == r.(cs := Data(Storage), text := "", left := r.nums[Bytes])
  {
  }

  /** A payload and the line end behind it complete a storage command. */
  lemma PayloadRun(r: Reader, d: string)
    requires Formed(r) && r.cs == Data(Storage) && r.text == "" && d != "" && r.left == |d|
    requires r.command == SET && r.keys != []
    ensures After(r, d + "\r\n").cs == Final
    ensures Out(r, d + "\r\n") == [SetRequest(r.keys[0], d, r.nums[Flags] % U16, r.nums[Exptime], r.noreply)]
  {
    hide Read, After, Out;
    DataRun(r, d);
    assert r.text + d == d;
    StorageEnds(After(r, d));
    TwoChars(r, d, '\r', '\n');
    assert d + "\r\n" == d + ['\r'] + ['\n'];
  }

  lemma TwoChars(r: Reader, s: string, c: char, d: char)
    requires Formed(r)
    ensures var r1 := After(r, s);
            && After(r, s + [c] + [d]) == Read(Read(r1, c).0, d).0
            && Out(r, s + [c] + [d]) == Out(r, s) + Read(r1, c).1 + Read(Read(r1, c).0, d).1
  {
    hide Read;
    OneChar(After(r, s), c);
    ReadConcat(r, s, [c]);
    OneChar(After(r, s + [c]), d);
    ReadConcat(r, s + [c], [d]);
  }

  lemma StorageEnds(r: Reader)
    requires Formed(r) && r.cs == DataCr(Storage) && r.command == SET && r.keys != []
    ensures Read(r, '\r').1 == []
    ensures var r1 := Read(r, '\r').0;
            && Read(r1, '\n').0.cs == Final
            && Read(r1, '\n').1 == [SetRequest(r.keys[0], r.payload, r.nums[Flags] % U16, r.nums[Exptime], r.noreply)]
  {
  }

  lemma LineEnds(r: Reader)
    requires Formed(r) && r.keys != []
    ensures r.cs == Cr(Retrieval) ==>
              Read(r, '\n').0.cs == Final && Read(r, '\n').1 == [GetRequest(r.command, r.keys)]
    ensures r.cs == Cr(Delete) ==>
              Read(r, '\n').0.cs == Final && Read(r, '\n').1 == [DeleteRequest(r.keys[0], r.nums[Exptime], r.noreply)]
  {
  }

  /** What reading a whole line at the start of one means. */
  ghost predicate Reads(r: Reader, l: Line)
    requires Formed(r)
  {
    if Rejected(l) then After(r, PrintLine(l)).cs == Error && Out(r, PrintLine(l)) == []
    else After(r, PrintLine(l)).cs == Final && Out(r, PrintLine(l)) == [Meaning(l)]
  }

  /** A line up to the space behind its first key. */
  lemma HeadSpace(r: Reader, w: string, cmd: Command, key: string)
    requires Formed(r) && (r.cs == Start || r.cs == Final) && WordCommand(w) == Some(cmd) && IsKey(key)
    ensures Goes(r, w + " " + key + " ",
                 Core(r).(cs := BehindKey(ClassOf(cmd)), command := cmd, keys := [key], noreply := false,
                     nums := r.nums[Exptime := 0]))
  {
    hide Read, WordCommand, ClassOf, BehindKey;
    HeadRun(r, w, cmd, key);
    var r1 := After(r, w + " " + key);
    KeySpace(r1);
    GoesChar(r, w + " " + key, Core(r1), ' ', Core(Read(r1, ' ').0));
  }

  lemma SetReads(r: Reader, l: Line)
    requires Formed(r) && (r.cs == Start || r.cs == Final) && l.SetLine? && Printable(l)
    ensures Reads(r, l)
  {
    hide Read, Print, After, Out, WordCommand, Unstorable, FieldValue;
    var c := if l.noreply || l.pad then ' ' else '\r';
    var head := "set" + " " + l.key + " ";
    var nums := Print(l.flags) + " " + (Print(l.exptime) + " ") + (Print(|l.data|) + [c]);
    var end := TailRest(l.noreply, l.pad) + (l.data + "\r\n");
    SetIsCommand();
    HeadSpace(r, "set", SET, l.key);
    var r2 := After(r, head);
    NumbersRun(r2, l.flags, l.exptime, |l.data|, c);
    ReadConcat(r, head, nums);
    var r3 := After(r2, nums);
    SetLineSplits(l, head, nums, TailRest(l.noreply, l.pad));
    ReadConcat(r, head + nums, end);
    if Rejected(l) {
      ErrorStays(r3, end);
    } else {
      StorageRest(r3, l.noreply, l.pad, l.data);
    }
  }

  lemma SetIsCommand()
    ensures WordCommand("set") == Some(SET) && WordCommand("delete") == Some(DELETE)
    ensures WordCommand("get") == Some(GET) && WordCommand("gets") == Some(GETS)
  {
  }

  /** A storage line from the character behind its numbers. */
  lemma StorageRest(r: Reader, noreply: bool, pad: bool, data: string)
    requires Formed(r) && r.cs == if noreply || pad then StorageOption else Cr(Storage)
    requires r.command == SET && |r.keys| == 1 && !r.noreply && data != "" && r.nums[Bytes] == |data|
    ensures After(r, TailRest(noreply, pad) + (data + "\r\n")).cs == Final
    ensures Out(r, TailRest(noreply, pad) + (data + "\r\n"))
         == [SetRequest(r.keys[0], data, r.nums[Flags] % U16, r.nums[Exptime], noreply)]
  {
    hide Read, After, Out, TailRest;
    TailRun(r, noreply, pad);
    ReadConcat(r, TailRest(noreply, pad), data + "\r\n");
    PayloadRun(After(r, TailRest(noreply, pad)), data);
  }

  lemma SetLineSplits(l: Line, head: string, nums: string, tail: string)
    requires l.SetLine?
    requires var c := if l.noreply || l.pad then ' ' else '\r';
             && head == "set" + " " + l.key + " "
             && nums == Print(l.flags) + " " + (Print(l.exptime) + " ") + (Print(|l.data|) + [c])
             && tail == TailRest(l.noreply, l.pad)
    ensures PrintLine(l) == (head + nums) + (tail + (l.data + "\r\n"))
  {
    hide Print;
    var c := if l.noreply || l.pad then ' ' else '\r';
    var f, e, n := Print(l.flags), Print(l.exptime), Print(|l.data|);
    NumbersSplit(head, f, e, n, c);
    var x := head + f + " " + e + " " + n;
    assert NoreplyWord(l.noreply) + Pad(l.pad) + "\r\n" == [c] + tail;
    EndSplit(x, NoreplyWord(l.noreply), Pad(l.pad), c, tail, l.data);
  }

  lemma NumbersSplit(h: string, f: string, e: string, n: string, c: char)
    ensures h + f + " " + e + " " + n + [c] == h + (f + " " + (e + " ") + (n + [c]))
  {
  }

  lemma EndSplit(x: string, a: string, b: string, c: char, tail: string, d: string)
    requires a + b + "\r\n" == [c] + tail
    ensures x + a + b + "\r\n" + d + "\r\n" == (x + [c]) + (tail + (d + "\r\n"))
  {
    assert x + a + b + "\r\n" == x + (a + b + "\r\n");
    assert x + ([c] + tail) == (x + [c]) + tail;
  }

  // ----- retrieval lines

  /** The keys of a line, each behind its space: all but the last are finished. */
  lemma {:induction false} KeysRun(r: Reader, w: string, cmd: Command, keys: seq<string>)
    requires Formed(r) && (r.cs == Start || r.cs == Final) && WordCommand(w) == Some(cmd) && ClassOf(cmd) == Retrieval
    requires 0 < |keys| <= MAX_MULTI_GET && forall k :: k in keys ==> IsKey(k)
    ensures Goes(r, w + SpacedKeys(keys),
                 Core(r).(cs := Key(Retrieval), command := cmd, keys := keys[..|keys| - 1], noreply := false,
                     nums := r.nums[Exptime := 0]))
    ensures After(r, w + SpacedKeys(keys)).text == keys[|keys| - 1]
    decreases |keys|
  {
    hide Read, WordCommand, ClassOf, IsKey;
    var front, key := keys[..|keys| - 1], keys[|keys| - 1];
    if front == [] {
      HeadRun(r, w, cmd, key);
      assert w + SpacedKeys(keys) == w + " " + key;
    } else {
      KeysRun(r, w, cmd, front);
      var s := w + SpacedKeys(front);
      assert w + SpacedKeys(keys) == s + " " + key;
      assert front == front[..|front| - 1] + [front[|front| - 1]];
      NextKeyRun(r, s, key);
    }
  }

  lemma NextKeyRun(r: Reader, s: string, key: string)
    requires Formed(r) && Out(r, s) == [] && After(r, s).cs == Key(Retrieval) && |After(r, s).keys| < MAX_MULTI_GET - 1
      && IsKey(key)
    ensures var r1 := After(r, s);
            && Goes(r, s + " " + key, Core(r1).(keys := r1.keys + [r1.text]))
            && After(r, s + " " + key).text == key
  {
    hide Read, IsKey;
    var r1 := After(r, s);
    KeySpace(r1);
    GoesChar(r, s, Core(r1), ' ', Core(Read(r1, ' ').0));
    KeyRun(After(r, s + " "), key);
    ReadConcat(r, s + " ", key);
  }

  /** The line feed that completes a command without a payload. */
  lemma FinishLine(r: Reader, s: string, l: Line)
    requires Formed(r) && Out(r, s) == [] && After(r, s).keys != [] && PrintLine(l) == s + "\n" && !Rejected(l)
    requires var e := After(r, s);
             || (e.cs == Cr(Retrieval) && Meaning(l) == GetRequest(e.command, e.keys))
             || (e.cs == Cr(Delete) && Meaning(l) == DeleteRequest(e.keys[0], e.nums[Exptime], e.noreply))
    ensures Reads(r, l)
  {
    hide Read, PrintLine, Rejected, Meaning;
    LineEnds(After(r, s));
    OneChar(After(r, s), '\n');
    ReadConcat(r, s, "\n");
  }

  lemma GetReads(r: Reader, l: Line)
    requires Formed(r) && (r.cs == Start || r.cs == Final) && l.GetLine? && Printable(l)
    ensures Reads(r, l)
  {
    hide Read, WordCommand, SpacedKeys;
    var w, cmd := if l.gets then "gets" else "get", if l.gets then GETS else GET;
    var s := w + SpacedKeys(l.keys);
    SetIsCommand();
    KeysRun(r, w, cmd, l.keys);
    var r1 := After(r, s);
    assert l.keys == l.keys[..|l.keys| - 1] + [l.keys[|l.keys| - 1]];
    if l.pad {
      KeySpace(r1);
      GoesChar(r, s, Core(r1), ' ', Core(Read(r1, ' ').0));
      var r2 := After(r, s + " ");
      CrRead(r2);
      GoesChar(r, s + " ", Core(r2), '\r', Core(Read(r2, '\r').0));
      assert PrintLine(l) == s + " " + "\r" + "\n";
      FinishLine(r, s + " " + "\r", l);
    } else {
      KeyCr(r1);
      GoesChar(r, s, Core(r1), '\r', Core(Read(r1, '\r').0));
      assert PrintLine(l) == s + "\r" + "\n";
      FinishLine(r, s + "\r", l);
    }
  }

  // ----- delete lines

  lemma DeleteReads(r: Reader, l: Line)
    requires Formed(r) && (r.cs == Start || r.cs == Final) && l.DeleteLine? && Printable(l)
    ensures Reads(r, l)
  {
    hide Read, WordCommand, Print, After, Out, Unstorable, FieldValue;
    SetIsCommand();
    if l.time.Some? || l.noreply {
      HeadSpace(r, "delete", DELETE, l.key);
      if l.time.Some? {
        TimedDelete(r, l);
      } else {
        var s := "delete" + " " + l.key + " ";
        NoreplyCr(After(r, s));
        ReadConcat(r, s, "noreply" + "\r");
        assert PrintLine(l) == s + ("noreply" + "\r") + "\n";
        FinishLine(r, s + ("noreply" + "\r"), l);
      }
    } else {
      PlainDelete(r, l);
    }
  }

  lemma PlainDelete(r: Reader, l: Line)
    requires Formed(r) && (r.cs == Start || r.cs == Final) && l.DeleteLine? && Printable(l) && l.time.None?
      && !l.noreply
    ensures Reads(r, l)
  {
    hide Read, WordCommand;
    SetIsCommand();
    var s := "delete" + " " + l.key;
    HeadRun(r, "delete", DELETE, l.key);
    KeyCr(After(r, s));
    GoesChar(r, s, Core(After(r, s)), '\r', Core(Read(After(r, s), '\r').0));
    assert PrintLine(l) == s + "\r" + "\n";
    FinishLine(r, s + "\r", l);
  }

  lemma TimedDelete(r: Reader, l: Line)
    requires Formed(r) && l.DeleteLine? && Printable(l) && l.time.Some?
    requires Goes(r, "delete" + " " + l.key + " ",
                  Core(r).(cs := DeleteOption, command := DELETE, keys := [l.key], noreply := false,
                      nums := r.nums[Exptime := 0]))
    ensures Reads(r, l)
  {
    hide Read, Print, After, Out, Unstorable, FieldValue;
    var s := "delete" + " " + l.key + " ";
    var c := if l.noreply then ' ' else '\r';
    var time := Print(l.time.value) + [c];
    NumberThen(After(r, s), Delete, Exptime, l.time.value, c);
    ReadConcat(r, s, time);
    var r2 := After(r, s + time);
    var end := if l.noreply then "noreply" + "\r" else "";
    DeleteLineSplits(l, s, time, end);
    ReadConcat(r, s + time, end);
    if Rejected(l) {
      ReadConcat(r, s + time, end + "\n");
      ErrorStays(r2, end + "\n");
      assert s + time + end + "\n" == s + time + (end + "\n");
    } else {
      if l.noreply {
        NoreplyCr(r2);
      } else {
        NothingRead(r2);
      }
      FinishLine(r, s + time + end, l);
    }
  }

  lemma DeleteLineSplits(l: Line, s: string, time: string, end: string)
    requires l.DeleteLine? && l.time.Some? && s == "delete" + " " + l.key + " "
    requires time == Print(l.time.value) + [if l.noreply then ' ' else '\r']
    requires end == if l.noreply then "noreply" + "\r" else ""
    ensures PrintLine(l) == s + time + end + "\n"
  {
    hide Print;
  }

  // ----- streams of lines

  /** Every printable line at the start of a line is read as what it stands for. */
  lemma LineReads(r: Reader, l: Line)
    requires Formed(r) && (r.cs == Start || r.cs == Final) && Printable(l)
    ensures Reads(r, l)
  {
    hide Printable, Reads;
    match l
    case GetLine(_, _, _) => GetReads(r, l);
    case SetLine(_, _, _, _, _, _) => SetReads(r, l);
    case DeleteLine(_, _, _) => DeleteReads(r, l);
  }

  function PrintAll(lines: seq<Line>): string {
    if lines == [] then "" else PrintLine(lines[0]) + PrintAll(lines[1..])
  }

  /** The requests of the lines in front of the first one that is rejected. */
  function Understood(lines: seq<Line>): (reqs: seq<Request>)
    ensures |reqs| <= |lines|
    ensures |reqs| == |lines| <==> forall l :: l in lines ==> !Rejected(l)
  {
    if lines == [] || Rejected(lines[0]) then [] else [Meaning(lines[0])] + Understood(lines[1..])
  }

  /** Reading any list of printed lines delivers exactly the requests they stand for, in order,
      up to the first rejected line, whatever the payloads contain. */
  lemma {:induction false} LinesRead(r: Reader, lines: seq<Line>)
    requires Formed(r) && (r.cs == Start || r.cs == Final) && forall l :: l in lines ==> Printable(l)
    ensures Out(r, PrintAll(lines)) == Understood(lines)
    ensures var cs := After(r, PrintAll(lines)).cs;
            if |Understood(lines)| < |lines| then cs == Error else cs == if lines == [] then r.cs else Final
    decreases |lines|
  {
    hide Read, PrintLine, Printable, Rejected, Meaning;
    if lines != [] {
      LineReads(r, lines[0]);
      ReadConcat(r, PrintLine(lines[0]), PrintAll(lines[1..]));
      if Rejected(lines[0]) {
        ErrorStays(After(r, PrintLine(lines[0])), PrintAll(lines[1..]));
      } else {
        LinesRead(After(r, PrintLine(lines[0])), lines[1..]);
      }
    }
  }

  // ----- which numbers come back

  /** The request the client meant, with its numbers in full. */
  function Intended(l: Line): Request {
    match l
    case GetLine(gets, keys, _) => GetRequest(if gets then GETS else GET, keys)
    case SetLine(key, flags, exptime, data, noreply, _) => SetRequest(key, data, flags, exptime, noreply)
    case DeleteLine(key, exptime, noreply) => DeleteRequest(key, if exptime.Some? then exptime.value else 0, noreply)
  }

  function AllIntended(lines: seq<Line>): seq<Request> {
    if lines == [] then [] else [Intended(lines[0])] + AllIntended(lines[1..])
  }

  /** flags fit 16 bits, exptime fits 32, and the payload is not empty. */
  predicate InRange(l: Line) {
    match l
    case GetLine(_, _, _) => true
    case SetLine(_, flags, exptime, data, _, _) => flags < 0x1_0000 && exptime < 0x1_0000_0000 && data != ""
    case DeleteLine(_, exptime, _) => exptime.Some? ==> exptime.value < 0x1_0000_0000
  }

  lemma MeaningIsIntended(l: Line)
    ensures InRange(l) <==> !Rejected(l) && Meaning(l) == Intended(l)
  {
    hide Pow10;
    PowersOfTen();
  }

  lemma {:induction false} UnderstoodAsIntended(lines: seq<Line>)
    ensures Understood(lines) == AllIntended(lines) <==> forall l :: l in lines ==> InRange(l)
    decreases |lines|
  {
    hide Rejected, Meaning, Intended, InRange;
    if lines != [] {
      MeaningIsIntended(lines[0]);
      UnderstoodAsIntended(lines[1..]);
      assert forall l :: l in lines <==> l == lines[0] || l in lines[1..];
      if !Rejected(lines[0]) {
        assert Understood(lines)[0] == Meaning(lines[0]) && Understood(lines)[1..] == Understood(lines[1..]);
        assert AllIntended(lines)[0] == Intended(lines[0]) && AllIntended(lines)[1..] == AllIntended(lines[1..]);
      }
    }
  }

  /** The round trip: a client's lines come back as the requests it meant if and only if every
      number fits the field it is stored in and no payload is empty. */
  lemma RoundTrip(lines: seq<Line>)
    requires forall l :: l in lines ==> Printable(l)
    ensures Formed(NEW_READER)
    ensures Out(NEW_READER, PrintAll(lines)) == AllIntended(lines) <==> forall l :: l in lines ==> InRange(l)
  {
    NewReaderFormed();
    LinesRead(NEW_READER, lines);
    UnderstoodAsIntended(lines);
  }
}
