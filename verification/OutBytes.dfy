/** What the items handed to the kernel are as bytes, given the contents of memory and of files. */
module OutBytes {
  import opened XferRecords

  /** The byte at each address, and at each offset of each file. */
  datatype World = World(mem: int -> char, file: (int, int) -> char)

  function Byte(w: World, item: Item): string {
    match item
    case Mem(addr) => [w.mem(addr)]
    case File(infd, at) => [w.file(infd, at)]
    case Finalized(_, _) => ""
  }

  function Load(w: World, items: seq<Item>): string {
    if items == [] then "" else Load(w, items[..|items| - 1]) + Byte(w, items[|items| - 1])
  }

  /** `text` is in memory at `base`. */
  ghost predicate Holds(w: World, base: int, text: string) {
    forall i :: 0 <= i < |text| ==> w.mem(base + i) == text[i]
  }

  /** File `infd` has the contents `text`. */
  ghost predicate HoldsFile(w: World, infd: int, text: string) {
    forall i :: 0 <= i < |text| ==> w.file(infd, i) == text[i]
  }

  lemma {:induction false} LoadRange(w: World, base: int, text: string)
    requires Holds(w, base, text)
    ensures Load(w, Range(base, |text|)) == text
    decreases |text|
  {
    if text != "" {
      var n := |text| - 1;
      LoadRange(w, base, text[..n]);
      assert Range(base, n + 1)[..n] == Range(base, n);
      assert text == text[..n] + [text[n]];
    }
  }

  lemma {:induction false} LoadAppend(w: World, a: seq<Item>, b: seq<Item>)
    ensures Load(w, a + b) == Load(w, a) + Load(w, b)
    decreases |b|
  {
    hide Byte, Load;
    if b == [] {
      assert a + b == a;
      LoadNothing(w);
    } else {
      var front, last := b[..|b| - 1], b[|b| - 1];
      LoadAppend(w, a, front);
      assert b == front + [last] && a + b == (a + front) + [last];
      LoadSnoc(w, front, last);
      LoadSnoc(w, a + front, last);
    }
  }

  lemma LoadNothing(w: World)
    ensures Load(w, []) == ""
  {
  }

  lemma LoadSnoc(w: World, items: seq<Item>, x: Item)
    ensures Load(w, items + [x]) == Load(w, items) + Byte(w, x)
  {
    assert (items + [x])[..|items|] == items;
  }

  lemma {:induction false} IovAppend(a: seq<Iovec>, b: seq<Iovec>)
    ensures IovItems(a + b) == IovItems(a) + IovItems(b)
    decreases |a|
  {
    if a == [] {
      assert a + b == b;
    } else {
      IovAppend(a[1..], b);
      assert (a + b)[1..] == a[1..] + b;
    }
  }

  lemma HoldsPart(w: World, base: int, text: string, from: nat, len: nat)
    requires Holds(w, base, text) && from + len <= |text|
    ensures Holds(w, base + from, text[from..from + len])
  {
    var part := text[from..from + len];
    forall i | 0 <= i < |part| ensures w.mem(base + from + i) == part[i] {
      assert w.mem(base + (from + i)) == text[from + i];
    }
  }

  /** A sendfile record stands for its part of the file. */
  lemma {:induction false} SendfileBytes(w: World, infd: int, text: string, off: nat, len: nat)
    requires HoldsFile(w, infd, text) && off + len <= |text|
    ensures Load(w, RecordItems(Send(infd, off, len))) == text[off..off + len]
    decreases len
  {
    if len > 0 {
      SendfileBytes(w, infd, text, off, len - 1);
      assert FileRange(infd, off, len)[..len - 1] == FileRange(infd, off, len - 1);
      assert w.file(infd, off + (len - 1)) == text[off + (len - 1)];
      assert text[off..off + len] == text[off..off + len - 1] + [text[off + len - 1]];
    }
  }

  /** A list record stands for what its iovecs point to, one behind the other. */
  lemma {:induction false} VecBytes(w: World, v: seq<Iovec>, texts: seq<string>)
    requires |texts| == |v| && forall i :: 0 <= i < |v| ==> v[i].len == |texts[i]| && Holds(w, v[i].base, texts[i])
    ensures Load(w, RecordItems(Vec(v))) == Concat(texts)
    decreases |v|
  {
    hide Holds, Range;
    if v != [] {
      LoadRange(w, v[0].base, texts[0]);
      VecBytes(w, v[1..], texts[1..]);
      LoadAppend(w, Range(v[0].base, v[0].len), IovItems(v[1..]));
    }
  }

  function Concat(texts: seq<string>): string {
    if texts == [] then "" else texts[0] + Concat(texts[1..])
  }

  /** A finalizer stands for no byte, and a null one for nothing at all. */
  lemma FinalizerBytes(w: World, fn: int, user: int)
    ensures Load(w, RecordItems(Fin(fn, user))) == ""
    ensures RecordItems(Fin(fn, user)) == if fn == 0 then [] else [Finalized(fn, user)]
  {
  }
}
