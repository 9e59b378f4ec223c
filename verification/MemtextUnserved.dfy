/** The commands without a callback: their lines are part of the grammar, and fail at its end. */
module MemtextUnserved {
  import opened Common
  import opened Decimal
  import opened MemtextParser
  import opened MemtextStream
  import opened MemtextRoundTrip

  /** `StoreLine` is a set line with another word. */
  datatype Unserved =
    | StoreLine(word: string, l: Line)
    | CasLine(key: string, flags: nat, exptime: nat, data: string, unique: nat, noreply: bool)
    | NumericLine(decr: bool, key: string, value: nat, noreply: bool)

  predicate Sendable(u: Unserved) {
    match u
    case StoreLine(w, l) => w in {"add", "replace", "append", "prepend"} && l.SetLine? && Printable(l)
    case CasLine(key, _, _, data, _, _) => IsKey(key) && |data| < U64
    case NumericLine(_, key, _, _) => IsKey(key)
  }

  /** Every number fits, and there is a payload. */
  predicate Storable(u: Unserved) {
    match u
    case StoreLine(_, l) => l.SetLine? && !Rejected(l)
    case CasLine(_, flags, exptime, data, unique, _) =>
      data != "" && !Unstorable(Flags, flags) && !Unstorable(Exptime, exptime) && !Unstorable(CasUnique, unique)
    case NumericLine(_, _, value, _) => !Unstorable(CasUnique, value)
  }

  function PrintUnserved(u: Unserved): string
    requires u.StoreLine? ==> u.l.SetLine?
  {
    match u
    case StoreLine(w, l) => w + PrintLine(l)[|"set"|..]
    case CasLine(key, flags, exptime, data, unique, noreply) =>
      "cas" + " " + key + " " + Print(flags) + " " + Print(exptime) + " " + Print(|data|) + " " + Print(unique)
      + NoreplyWord(noreply) + "\r\n" + data + "\r\n"
    case NumericLine(decr, key, value, noreply) =>
      (if decr then "decr" else "incr") + " " + key + " " + Print(value) + NoreplyWord(noreply) + "\r\n"
  }

  /** Everything up to the last character is read, nothing is delivered, and that one is refused. */
  ghost predicate FailsAtItsEnd(r: Reader, s: string)
    requires Formed(r)
  {
    && s != "" && Out(r, s) == [] && After(r, s).cs == Error
    && !Stuck(After(r, s[..|s| - 1]).cs)
  }

  /** A state in which a line feed completes a command without a callback. */
  predicate Refuses(r: Reader) {
    || r.cs == Cr(Numeric) || r.cs == DataLf(CasStore)
    || (r.cs == DataLf(Storage) && r.command != SET)
  }

  lemma LastRefused(r: Reader, s: string)
    requires Formed(r) && Out(r, s) == [] && Refuses(After(r, s))
    ensures FailsAtItsEnd(r, s + ['\n'])
  {
    hide Read;
    Refused(After(r, s));
    ReadConcat(r, s, ['\n']);
    OneChar(After(r, s), '\n');
    assert (s + ['\n'])[..|s + ['\n']| - 1] == s;
  }

  lemma Refused(r: Reader)
    requires Formed(r) && Refuses(r)
    ensures Read(r, '\n').0.cs == Error && Read(r, '\n').1 == []
  {
  }

  lemma DataRefused(r: Reader, s: string, d: string)
    requires Formed(r) && Out(r, s) == [] && d != ""
    requires var e := After(r, s); e.cs.Data? && e.left == |d| && e.text == ""
    requires var e := After(r, s); e.cs.cl == CasStore || (e.cs.cl == Storage && e.command != SET)
    ensures FailsAtItsEnd(r, s + (d + "\r\n"))
  {
    hide Read, After, Out;
    var e := After(r, s);
    DataRun(e, d);
    ReadConcat(r, s, d);
    BehindData(After(r, s + d));
    OneChar(After(r, s + d), '\r');
    ReadConcat(r, s + d, ['\r']);
    LastRefused(r, s + d + ['\r']);
    assert s + (d + "\r\n") == s + d + ['\r'] + ['\n'];
  }

  lemma BehindData(r: Reader)
    requires Formed(r) && r.cs.DataCr?
    ensures Read(r, '\r').1 == [] && Core(Read(r, '\r').0) == Core(r).(cs := DataLf(r.cs.cl))
  {
  }

  lemma OtherWords()
    ensures WordCommand("add") == Some(ADD) && WordCommand("replace") == Some(REPLACE)
    ensures WordCommand("append") == Some(APPEND) && WordCommand("prepend") == Some(PREPEND)
    ensures WordCommand("cas") == Some(CAS) && WordCommand("incr") == Some(INCR) && WordCommand("decr") == Some(DECR)
  {
  }

  // ----- incr and decr

  /** The end of a header whose last number is followed by noreply or by the line end. */
  lemma LastNumberRun(r: Reader, cl: Class, f: Field, n: nat, noreply: bool)
    requires Formed(r) && r.cs == NumFirst(cl, f) && f != Bytes && !Unstorable(f, n)
    requires (cl == Numeric || cl == CasStore) && f == CasUnique
    ensures Goes(r, Print(n) + NoreplyWord(noreply) + "\r",
                 Core(r).(cs := Cr(cl), nums := r.nums[f := FieldValue(f, n)], noreply := r.noreply || noreply))
  {
    hide Read, After, Out, Print, Unstorable, FieldValue;
    var c := if noreply then ' ' else '\r';
    var s := Print(n) + [c];
    NumberThen(r, cl, f, n, c);
    if noreply {
      NoreplyCr(After(r, s));
      ReadConcat(r, s, "noreply" + "\r");
      assert Print(n) + " noreply" + "\r" == s + ("noreply" + "\r");
    } else {
      assert Print(n) + "" + "\r" == s;
    }
  }

  lemma NumericFails(r: Reader, u: Unserved)
    requires Formed(r) && (r.cs == Start || r.cs == Final) && u.NumericLine? && Sendable(u) && Storable(u)
    ensures FailsAtItsEnd(r, PrintUnserved(u))
  {
    hide Read, After, Out, Print, Unstorable, WordCommand, FailsAtItsEnd, NoreplyWord, IsKey, FieldValue;
    OtherWords();
    var w, cmd := if u.decr then "decr" else "incr", if u.decr then DECR else INCR;
    var head, num := w + " " + u.key + " ", Print(u.value) + NoreplyWord(u.noreply) + "\r";
    HeadSpace(r, w, cmd, u.key);
    LastNumberRun(After(r, head), Numeric, CasUnique, u.value, u.noreply);
    ReadConcat(r, head, num);
    LastRefused(r, head + num);
    assert PrintUnserved(u) == head + num + ['\n'];
  }

  // ----- cas

  /** One number of a cas line and the space behind it. */
  lemma CasNumber(r: Reader, f: Field, n: nat, next: State)
    requires Formed(r) && r.cs == NumFirst(CasStore, f) && f != CasUnique && !Unstorable(f, n) && (f == Bytes ==> n > 0)
    requires next == NumFirst(CasStore, if f == Flags then Exptime else if f == Exptime then Bytes else CasUnique)
    ensures Goes(r, Print(n) + " ", Core(r).(cs := next, nums := r.nums[f := FieldValue(f, n)]))
  {
    hide Read, After, Out, Print, Unstorable, FieldValue;
    NumberThen(r, CasStore, f, n, ' ');
  }

  lemma CasNumbers(r: Reader, flags: nat, exptime: nat, len: nat)
    requires Formed(r) && r.cs == NumFirst(CasStore, Flags) && 0 < len < U64
    requires !Unstorable(Flags, flags) && !Unstorable(Exptime, exptime)
    ensures var s := Print(flags) + " " + (Print(exptime) + " ") + (Print(len) + " ");
            && Out(r, s) == [] && After(r, s).cs == NumFirst(CasStore, CasUnique) && After(r, s).nums[Bytes] == len
  {
    hide Read, After, Out, Print, Unstorable, FieldValue;
    var s1, s2, s3 := Print(flags) + " ", Print(exptime) + " ", Print(len) + " ";
    LargeNumbers(Bytes, len);
    CasNumber(r, Flags, flags, NumFirst(CasStore, Exptime));
    CasNumber(After(r, s1), Exptime, exptime, NumFirst(CasStore, Bytes));
    ReadConcat(r, s1, s2);
    CasNumber(After(r, s1 + s2), Bytes, len, NumFirst(CasStore, CasUnique));
    ReadConcat(r, s1 + s2, s3);
  }

  lemma CasLf(r: Reader)
    requires Formed(r) && r.cs == Cr(CasStore)
    ensures Read(r, '\n').1 == [] && Read(r, '\n').0 == r.(cs := Data(CasStore), text := "", left := r.nums[Bytes])
  {
  }

  lemma CasHeader(r: Reader, u: Unserved, header: string)
    requires Formed(r) && (r.cs == Start || r.cs == Final) && u.CasLine? && Sendable(u) && Storable(u)
    requires header == "cas" + " " + u.key + " "
                       + (Print(u.flags) + " " + (Print(u.exptime) + " ") + (Print(|u.data|) + " "))
                       + (Print(u.unique) + NoreplyWord(u.noreply) + "\r")
    ensures Out(r, header) == [] && After(r, header).cs == Cr(CasStore) && After(r, header).nums[Bytes] == |u.data|
  {
    hide Read, After, Out, Print, Unstorable, WordCommand;
    OtherWords();
    var head := "cas" + " " + u.key + " ";
    var nums := Print(u.flags) + " " + (Print(u.exptime) + " ") + (Print(|u.data|) + " ");
    HeadSpace(r, "cas", CAS, u.key);
    CasNumbers(After(r, head), u.flags, u.exptime, |u.data|);
    ReadConcat(r, head, nums);
    LastNumberRun(After(r, head + nums), CasStore, CasUnique, u.unique, u.noreply);
    ReadConcat(r, head + nums, Print(u.unique) + NoreplyWord(u.noreply) + "\r");
  }

  lemma CasFails(r: Reader, u: Unserved)
    requires Formed(r) && (r.cs == Start || r.cs == Final) && u.CasLine? && Sendable(u) && Storable(u)
    ensures FailsAtItsEnd(r, PrintUnserved(u))
  {
    hide Read, After, Out, Print, FailsAtItsEnd, NoreplyWord, Unstorable, IsKey;
    var header := "cas" + " " + u.key + " "
                  + (Print(u.flags) + " " + (Print(u.exptime) + " ") + (Print(|u.data|) + " "))
                  + (Print(u.unique) + NoreplyWord(u.noreply) + "\r");
    CasHeader(r, u, header);
    CasLf(After(r, header));
    OneChar(After(r, header), '\n');
    ReadConcat(r, header, ['\n']);
    DataRefused(r, header + ['\n'], u.data);
    assert PrintUnserved(u) == header + ['\n'] + (u.data + "\r\n");
  }

  // ----- add, replace, append and prepend

  lemma StoreFails(r: Reader, u: Unserved)
    requires Formed(r) && (r.cs == Start || r.cs == Final) && u.StoreLine? && Sendable(u) && Storable(u)
    ensures FailsAtItsEnd(r, PrintUnserved(u))
  {
    hide Read, After, Out, Print, FailsAtItsEnd, WordCommand, Unstorable, FieldValue;
    OtherWords();
    var w, l := u.word, u.l;
    var c := if l.noreply || l.pad then ' ' else '\r';
    var head, tail := w + " " + l.key + " ", TailRest(l.noreply, l.pad);
    var nums := Print(l.flags) + " " + (Print(l.exptime) + " ") + (Print(|l.data|) + [c]);
    HeadSpace(r, w, WordCommand(w).value, l.key);
    NumbersRun(After(r, head), l.flags, l.exptime, |l.data|, c);
    ReadConcat(r, head, nums);
    TailRun(After(r, head + nums), l.noreply, l.pad);
    ReadConcat(r, head + nums, tail);
    DataRefused(r, head + nums + tail, l.data);
    StoreLineSplits(u, nums, tail);
  }

  lemma StoreLineSplits(u: Unserved, nums: string, tail: string)
    requires u.StoreLine? && u.l.SetLine? && tail == TailRest(u.l.noreply, u.l.pad)
    requires var c := if u.l.noreply || u.l.pad then ' ' else '\r';
             nums == Print(u.l.flags) + " " + (Print(u.l.exptime) + " ") + (Print(|u.l.data|) + [c])
    ensures PrintUnserved(u) == u.word + " " + u.l.key + " " + nums + tail + (u.l.data + "\r\n")
  {
    hide Print, TailRest, PrintLine;
    var rest := " " + u.l.key + " ";
    SetLineSplits(u.l, "set" + " " + u.l.key + " ", nums, tail);
    var all := rest + nums + tail + (u.l.data + "\r\n");
    assert PrintLine(u.l) == "set" + all;
    assert ("set" + all)[3..] == all;
    assert u.word + all == u.word + " " + u.l.key + " " + nums + tail + (u.l.data + "\r\n");
  }

  /** Every line of a command without a callback is read up to its last character, delivers nothing
      and fails there. */
  lemma UnservedFails(r: Reader, u: Unserved)
    requires Formed(r) && (r.cs == Start || r.cs == Final) && Sendable(u) && Storable(u)
    ensures FailsAtItsEnd(r, PrintUnserved(u))
  {
    hide PrintUnserved, FailsAtItsEnd, Printable, Rejected;
    match u
    case StoreLine(_, _) => StoreFails(r, u);
    case CasLine(_, _, _, _, _, _) => CasFails(r, u);
    case NumericLine(_, _, _, _) => NumericFails(r, u);
  }
}
