/** `mp::source`: a pool of chunks on two circular doubly linked lists. */
module SourcePool {
  const SIZEOF_CHUNK: nat := 40  // next, prev, free, lots, size
  const SIZEOF_DATA: nat := 8    // the chunk pointer in front of every block

  /** A list node followed by `size` bytes.  `back` is the part of those bytes that holds block
      headers: the chunk pointer at each offset where one was written.  `live` are the blocks
      handed out and not freed: the offset of each header and the block's length from there. */
  class Chunk {
    var next: Chunk
    var prev: Chunk
    var free: nat
    var lots: nat
    var size: nat
    var back: map<nat, Chunk>
    ghost var live: map<nat, nat>

    /** A list head, linked to itself. */
    constructor Sentinel()
      ensures next == this && prev == this && free == lots == size == 0
    {
      next, prev := this, this;
      free, lots, size := 0, 0, 0;
      back, live := map[], map[];
    }

    /** A new chunk of `total` bytes whose first `req` are one live block. */
    constructor WithBlock(total: nat, req: nat)
      requires SIZEOF_DATA <= req <= total
      ensures Ok() && size == total && free == total - req && lots == 1
      ensures live == map[0 := req]
    {
      next, prev := this, this;
      lots, size, free := 1, total, total - req;
      new;
      back := map[0 := this];
      live := map[0 := req];
    }

    /** The used part of the chunk is its first `size - free` bytes; every live block lies in
        it, apart from all others, behind a header that points back here. */
    ghost predicate Counted()
      reads `free, `lots, `size, `back, `live
    {
      && free <= size && |live| == lots
      && (forall o :: o in live ==> live[o] >= SIZEOF_DATA && o + live[o] <= size - free)
      && (forall o, p :: o in live && p in live && o < p ==> o + live[o] <= p)
      && (forall o :: o in live ==> o in back && back[o] == this)
    }

    /** Between operations a chunk is all free exactly when it has no live block. */
    ghost predicate Ok()
      reads `free, `lots, `size, `back, `live
    {
      Counted() && (lots == 0 <==> free == size)
    }

    /** Cuts `req` bytes from the free end. */
    method Cut(req: nat) returns (off: nat)
      requires Ok() && SIZEOF_DATA <= req <= free
      modifies this`lots, this`free, this`back, this`live
      ensures Ok() && off == size - old(free) && free == old(free) - req && lots == old(lots) + 1
      ensures off !in old(live) && live == old(live)[off := req]
    {
      off := size - free;
      assert off !in live;
      lots := lots + 1;
      free := free - req;
      back := back[off := this];
      live := live[off := req];
    }

    /** Takes one live block out of the count; its space is not reclaimed yet. */
    method Drop(off: nat)
      requires Ok() && off in live
      modifies this`lots, this`live
      ensures Counted() && live == old(live) - {off} && lots == old(lots) - 1
      ensures lots > 0 ==> Ok()
      ensures lots == 0 <==> live == map[]
    {
      live := live - {off};
      lots := lots - 1;
    }
  }

  // ----- rings

  function NextIn(r: seq<Chunk>, i: nat): Chunk
    requires i < |r|
  {
    if i + 1 < |r| then r[i + 1] else r[0]
  }

  function PrevIn(r: seq<Chunk>, i: nat): Chunk
    requires i < |r|
  {
    if i > 0 then r[i - 1] else r[|r| - 1]
  }

  ghost predicate Distinct(r: seq<Chunk>) {
    forall i, j :: 0 <= i < j < |r| ==> r[i] != r[j]
  }

  /** The nodes of `r`, in order, form one circular doubly linked list; `S` are its nodes. */
  ghost predicate Ring(r: seq<Chunk>, S: set<Chunk>)
    reads S`next, S`prev
  {
    && |r| > 0 && Distinct(r) && |S| == |r|
    && (forall i :: 0 <= i < |r| ==> r[i] in S)
    && forall i :: 0 <= i < |r| ==> r[i].next == NextIn(r, i) && r[i].prev == PrevIn(r, i)
  }

  ghost function Without(r: seq<Chunk>, k: nat): seq<Chunk>
    requires k < |r|
    ensures |Without(r, k)| == |r| - 1
  {
    r[..k] + r[k + 1..]
  }

  ghost function Behind(h: Chunk, c: Chunk, r: seq<Chunk>): (r': seq<Chunk>)
    requires r != []
    ensures |r'| == |r| + 1 && r'[0] == h && r'[1] == c
  {
    [h, c] + r[1..]
  }

  /** The first two assignments of the splices. */
  method Unlink(c: Chunk, ghost r: seq<Chunk>, ghost S: set<Chunk>, ghost k: nat)
    requires Ring(r, S) && 0 < k < |r| && r[k] == c
    modifies S`next, S`prev
    ensures Ring(Without(r, k), S - {c})
  {
    assert c.prev == r[k - 1] && c.next == NextIn(r, k);
    c.prev.next := c.next;
    c.next.prev := c.prev;
    SkippedRing(r, S, k);
  }

  /** A ring in which node `k` is skipped both ways is a ring without it. */
  lemma SkippedRing(r: seq<Chunk>, S: set<Chunk>, k: nat)
    requires 0 < k < |r| && Distinct(r) && |S| == |r| && forall i :: 0 <= i < |r| ==> r[i] in S
    requires r[k - 1].next == NextIn(r, k) && NextIn(r, k).prev == r[k - 1]
    requires forall j :: 0 <= j < |r| && j != k - 1 ==> r[j].next == NextIn(r, j)
    requires forall j :: 0 <= j < |r| && r[j] != NextIn(r, k) ==> r[j].prev == PrevIn(r, j)
    ensures Ring(Without(r, k), S - {r[k]})
  {
    SkippedNodes(r, S, k);
    SkippedLinks(r, k);
  }

  lemma SkippedNodes(r: seq<Chunk>, S: set<Chunk>, k: nat)
    requires k < |r| && Distinct(r) && |S| == |r| && forall i :: 0 <= i < |r| ==> r[i] in S
    ensures var r' := Without(r, k);
            Distinct(r') && |S - {r[k]}| == |r'| && forall i :: 0 <= i < |r'| ==> r'[i] in S - {r[k]}
  {
  }

  lemma SkippedLinks(r: seq<Chunk>, k: nat)
    requires 0 < k < |r| && Distinct(r)
    requires r[k - 1].next == NextIn(r, k) && NextIn(r, k).prev == r[k - 1]
    requires forall j :: 0 <= j < |r| && j != k - 1 ==> r[j].next == NextIn(r, j)
    requires forall j :: 0 <= j < |r| && r[j] != NextIn(r, k) ==> r[j].prev == PrevIn(r, j)
    ensures var r' := Without(r, k);
            forall i :: 0 <= i < |r'| ==> r'[i].next == NextIn(r', i) && r'[i].prev == PrevIn(r', i)
  {
    var r' := Without(r, k);
    forall i | 0 <= i < |r'|
      ensures r'[i].next == NextIn(r', i) && r'[i].prev == PrevIn(r', i)
    {
      if i < k {
        assert r'[i] == r[i];
      } else {
        assert r'[i] == r[i + 1];
      }
    }
  }

  /** The last four: links `c` in behind the list head. */
  method LinkBehind(c: Chunk, h: Chunk, ghost r: seq<Chunk>, ghost S: set<Chunk>)
    requires Ring(r, S) && r[0] == h && c !in S
    modifies S`next, S`prev, c`next, c`prev
    ensures Ring(Behind(h, c, r), S + {c})
  {
    assert h.next == NextIn(r, 0);
    c.prev := h;
    c.next := h.next;
    h.next.prev := c;
    h.next := c;
    ghost var r' := Behind(h, c, r);
    forall i | 0 <= i < |r'|
      ensures r'[i] in S + {c} && r'[i].next == NextIn(r', i) && r'[i].prev == PrevIn(r', i)
    {
      if i >= 2 {
        assert r'[i] == r[i - 1];
      }
    }
  }

  lemma RingStart(r: seq<Chunk>, S: set<Chunk>, k: nat)
    requires Ring(r, S) && (k == 0 || k < |r|)
    ensures |r| > 0 && r[0] in S && r[k] in S && (k > 0 ==> Without(r, k) != [] && Without(r, k)[0] == r[0])
  {
  }

  /** The six assignments of the splices: moves node `k` of one ring behind the head `h` of
      another one or, when `same`, of the same one. */
  method Splice(c: Chunk, h: Chunk, ghost from: seq<Chunk>, ghost S: set<Chunk>, ghost k: nat,
                ghost same: bool, ghost to: seq<Chunk>, ghost T: set<Chunk>)
    requires Ring(from, S) && 0 < k < |from| && from[k] == c
    requires Ring(to, T) && to[0] == h
    requires if same then to == from && T == S else S !! T
    modifies S`next, S`prev, T`next, T`prev
    ensures same ==> Without(from, k) != [] && Ring(Behind(h, c, Without(from, k)), S - {c} + {c})
    ensures !same ==> Ring(Without(from, k), S - {c}) && Ring(Behind(h, c, to), T + {c})
  {
    hide Ring, Without, Behind;
    RingStart(from, S, k);
    ghost var rest := Without(from, k);
    ghost var dest, D := if same then rest else to, if same then S - {c} else T;
    Unlink(c, from, S, k);
    assert Ring(dest, D);
    LinkBehind(c, h, dest, D);
  }

  // ----- accesses to nodes that are being freed

  datatype Access = Reads(c: Chunk) | Frees(c: Chunk)

  ghost function FreedIn(trace: seq<Access>): seq<Chunk> {
    if trace == [] then []
    else FreedIn(trace[..|trace| - 1]) + match trace[|trace| - 1] case Reads(_) => [] case Frees(c) => [c]
  }

  /** `freed` are the nodes freed, and none is read or freed after it was freed. */
  ghost predicate Traced(trace: seq<Access>, freed: seq<Chunk>) {
    && freed == FreedIn(trace)
    && forall i, j :: 0 <= i < j < |trace| && trace[i].Frees? ==> trace[j].c != trace[i].c
  }

  lemma NothingTraced()
    ensures Traced([], [])
  {
  }

  lemma {:induction false} FreedMember(trace: seq<Access>, i: nat)
    requires i < |trace| && trace[i].Frees?
    ensures trace[i].c in FreedIn(trace)
    decreases |trace|
  {
    if i < |trace| - 1 {
      FreedMember(trace[..|trace| - 1], i);
    }
  }

  lemma TraceGrows(trace: seq<Access>, freed: seq<Chunk>, a: Access)
    requires Traced(trace, freed) && a.c !in freed
    ensures Traced(trace + [a], freed + if a.Frees? then [a.c] else [])
  {
    var t := trace + [a];
    assert t[..|trace|] == trace;
    forall i, j | 0 <= i < j < |t| && t[i].Frees? ensures t[j].c != t[i].c {
      FreedMember(trace, i);
    }
  }

  ghost method Touch(trace: seq<Access>, freed: seq<Chunk>, c: Chunk) returns (trace': seq<Access>)
    requires Traced(trace, freed) && c !in freed
    ensures trace' == trace + [Reads(c)] && Traced(trace', freed)
  {
    TraceGrows(trace, freed, Reads(c));
    assert freed + [] == freed;
    trace' := trace + [Reads(c)];
  }

  ghost method Release(trace: seq<Access>, freed: seq<Chunk>, c: Chunk) returns (trace': seq<Access>)
    requires Traced(trace, freed) && c !in freed
    ensures trace' == trace + [Frees(c)] && Traced(trace', freed + [c])
  {
    TraceGrows(trace, freed, Frees(c));
    trace' := trace + [Frees(c)];
  }

  // ----- the pool

  class Source {
    const est: nat      // EstimatedAllocationSize
    const optimal: nat  // OptimalLotsInChunk
    const m_free: Chunk
    const m_used: Chunk
    ghost var F: seq<Chunk>  // the ring of m_free
    ghost var FS: set<Chunk>
    ghost var U: seq<Chunk>  // the ring of m_used
    ghost var US: set<Chunk>

    /** A chunk with less free space than this is not searched again before it is empty. */
    function Threshold(): nat {
      est + SIZEOF_CHUNK
    }

    /** The size of a new chunk, unless the block does not fit in it. */
    function DefaultSize(): nat {
      (est + SIZEOF_CHUNK) * optimal
    }

    ghost predicate Rings()
      reads this, FS`next, FS`prev, US`next, US`prev
    {
      && Ring(F, FS) && F[0] == m_free && Ring(U, US) && U[0] == m_used && FS !! US
    }

    ghost predicate InFree(c: Chunk)
      reads c`free, c`lots, c`size, c`back, c`live
    {
      c.Ok() && (c.free >= Threshold() || c.lots == 0) && (optimal >= 1 ==> c.size >= Threshold())
    }

    ghost predicate InUsed(c: Chunk)
      reads c`free, c`lots, c`size, c`back, c`live
    {
      c.Ok() && c.free < Threshold() && c.lots > 0 && (optimal >= 1 ==> c.size >= Threshold())
    }

    ghost predicate AllFree(S: set<Chunk>)
      reads S`free, S`lots, S`size, S`back, S`live
    {
      forall c :: c in S && c != m_free ==> InFree(c)
    }

    ghost predicate AllUsed(S: set<Chunk>)
      reads S`free, S`lots, S`size, S`back, S`live
    {
      forall c :: c in S && c != m_used ==> InUsed(c)
    }

    lemma OneMore(S: set<Chunk>, n: Chunk)
      ensures AllFree(S) && InFree(n) ==> AllFree(S + {n})
      ensures AllUsed(S) && InUsed(n) ==> AllUsed(S + {n})
    {
    }

    /** The chunks are partitioned into two well-formed rings.  Free-list chunks have room for a
        block of the estimated size or are empty; used-list chunks have not, and hold live
        blocks.  Chunks are at least of that size unless the default size is 0. */
    ghost predicate Valid()
      reads this, FS, US
    {
      && Rings()
      && AllFree(FS) && AllUsed(US)
    }

    constructor (est: nat, optimal: nat)
      ensures Valid() && F == [m_free] && U == [m_used] && fresh(m_free) && fresh(m_used)
      ensures FS == {m_free} && US == {m_used}
      ensures this.est == est && this.optimal == optimal
    {
      this.est, this.optimal := est, optimal;
      var f := new Chunk.Sentinel();
      var u := new Chunk.Sentinel();
      m_free, m_used := f, u;
      F, FS, U, US := [f], {f}, [u], {u};
    }

    /** Moves the `k`-th free-list chunk to the front of the used list. */
    method SpliceToUsed(c: Chunk, ghost k: nat)
      requires Rings() && 0 < k < |F| && F[k] == c
      modifies this`F, this`FS, this`U, this`US, FS`next, FS`prev, US`next, US`prev
      ensures Rings() && F == Without(old(F), k) && U == Behind(m_used, c, old(U))
      ensures FS == old(FS) - {c} && US == old(US) + {c}
    {
      hide Ring, Without, Behind;
      RingStart(F, FS, k);
      RingStart(U, US, 0);
      Splice(c, m_used, F, FS, k, false, U, US);
      F, FS, U, US := Without(F, k), FS - {c}, Behind(m_used, c, U), US + {c};
    }

    /** Moves a chunk of either list to the front of the free list, empty again. */
    method SpliceToFree(c: Chunk, ghost inFree: bool, ghost k: nat)
      requires Rings() && 0 < k < |if inFree then F else U| && (if inFree then F else U)[k] == c
      modifies this`F, this`FS, this`U, this`US, FS`next, FS`prev, US`next, US`prev, c`free
      ensures Rings() && c.free == c.size && |F| > 1 && F[1] == c
      ensures F == Behind(m_free, c, old(if inFree then Without(F, k) else F))
      ensures U == old(if inFree then U else Without(U, k))
      ensures FS == old(FS) + {c} && US == old(US) - {c}
    {
      hide Ring, Without, Behind;
      RingStart(F, FS, if inFree then k else 0);
      RingStart(U, US, if inFree then 0 else k);
      Splice(c, m_free, if inFree then F else U, if inFree then FS else US, k, inFree, F, FS);
      assert inFree ==> FS - {c} + {c} == FS && US - {c} == US;
      F, U := Behind(m_free, c, if inFree then Without(F, k) else F), if inFree then U else Without(U, k);
      FS, US := FS + {c}, US - {c};
      c.free := c.size;
    }

    /** No free-list chunk has room for `req` bytes. */
    ghost predicate Misses(req: nat)
      reads this, F
    {
      forall i :: 1 <= i < |F| ==> F[i].free < req
    }

    /** `k` is the first free-list chunk with room for `req` bytes. */
    ghost predicate FirstFit(req: nat, k: nat)
      reads this, F
    {
      1 <= k < |F| && F[k].free >= req && forall j :: 1 <= j < k ==> F[j].free < req
    }

    /** The loop of `malloc`: first fit. */
    method FindFit(req: nat) returns (f: Chunk, ghost k: nat)
      requires Rings()
      ensures f == m_free ==> Misses(req)
      ensures f != m_free ==> FirstFit(req, k) && f == F[k] && f in FS
    {
      f := m_free.next;
      k := 1;
      assert F[0].next == NextIn(F, 0);
      while f != m_free
        invariant 1 <= k <= |F| && f == if k < |F| then F[k] else m_free
        invariant forall j :: 1 <= j < k ==> F[j].free < req
        decreases |F| - k
      {
        if f.free >= req {
          return;
        }
        assert F[k].next == NextIn(F, k);
        f := f.next;
        k := k + 1;
      }
      assert k == |F|;
    }

    /** A block up to the threshold is served by the first free-list chunk if and only if that
        one is large enough at all, which it always is unless the default size is 0. */
    lemma FirstHasRoom(req: nat)
      requires Valid()
      ensures |F| > 1 && req <= Threshold() ==>
                && (FirstFit(req, 1) <==> req <= F[1].size)
                && (optimal >= 1 ==> FirstFit(req, 1))
                && (FirstFit(req, 1) ==> !Misses(req) && forall k :: FirstFit(req, k) ==> k == 1)
    {
      if |F| > 1 {
        assert F[1] in FS && F[1] != m_free;
        assert InFree(F[1]);
      }
    }

    /** `malloc`: cuts the block from the first chunk with room, else from a new chunk.  The
        returned address is `SIZEOF_DATA` past the header at `off`. */
    method Malloc(size: nat) returns (c: Chunk, off: nat, ghost k: nat)
      requires Valid()
      modifies this`F, this`FS, this`U, this`US, FS, US`next, US`prev
      ensures Valid()
      ensures fresh(c) <==> old(Misses(size + SIZEOF_DATA))
      ensures !fresh(c) ==> old(FirstFit(size + SIZEOF_DATA, k)) && c == old(F)[k]
      ensures !fresh(c) ==> off !in old(F[k].live) && c.live == old(F[k].live)[off := size + SIZEOF_DATA]
      ensures fresh(c) ==> c.live == map[off := size + SIZEOF_DATA]
      ensures forall x :: x in old(FS) + old(US) && x != c ==> x.live == old(x.live) && x.free == old(x.free)
      ensures c in FS + US && FS + US == old(FS) + old(US) + {c}
      ensures off + (size + SIZEOF_DATA) == c.size - c.free
      ensures fresh(c) ==> c.size == if size + SIZEOF_DATA > (est + SIZEOF_CHUNK) * optimal then size + SIZEOF_DATA
                                     else (est + SIZEOF_CHUNK) * optimal
      ensures !fresh(c) ==> c.size == old(F[k].size) && c.free == old(F[k].free) - (size + SIZEOF_DATA)
      // a chunk goes to the front of the used list when it is left with too little for another block
      ensures !fresh(c) && c.free >= est + SIZEOF_CHUNK ==> F == old(F) && U == old(U)
      ensures !fresh(c) && c.free < est + SIZEOF_CHUNK ==>
                F == old(F)[..k] + old(F)[k + 1..] && U == [m_used, c] + old(U)[1..]
      // and a new one to the front of the list it belongs to
      ensures fresh(c) && c.free >= est + SIZEOF_CHUNK ==> F == [m_free, c] + old(F)[1..] && U == old(U)
      ensures fresh(c) && c.free < est + SIZEOF_CHUNK ==> F == old(F) && U == [m_used, c] + old(U)[1..]
      ensures old(|F|) > 1 && size + SIZEOF_DATA <= est + SIZEOF_CHUNK ==>
                (optimal >= 1 || size + SIZEOF_DATA <= old(F[1].size)) ==> !fresh(c) && k == 1
    {
      hide Ring, Distinct, Chunk.Counted, Chunk.Ok;
      var req := size + SIZEOF_DATA;
      FirstHasRoom(req);
      c, k := FindFit(req);
      if c == m_free {
        c, off := ExpandFree(req);
      } else {
        off := CutFrom(c, k, req);
      }
    }

    /** The body of the loop of `malloc`, on the chunk that was found. */
    method CutFrom(c: Chunk, ghost k: nat, req: nat) returns (off: nat)
      requires Valid() && FirstFit(req, k) && c == F[k] && c in FS && c != m_free && req >= SIZEOF_DATA
      modifies this`F, this`FS, this`U, this`US, FS, US`next, US`prev
      ensures Valid() && FS + US == old(FS) + old(US)
      ensures off !in old(c.live) && c.live == old(c.live)[off := req] && off + req == c.size - c.free
      ensures c.size == old(c.size) && c.free == old(c.free) - req
      ensures c.free >= Threshold() ==> F == old(F) && U == old(U)
      ensures c.free < Threshold() ==> F == Without(old(F), k) && U == Behind(m_used, c, old(U))
      ensures forall x :: x in old(FS) + old(US) && x != c ==> x.live == old(x.live) && x.free == old(x.free)
    {
      hide Ring, Without, Behind, Distinct, Chunk.Counted;
      off := c.Cut(req);
      if c.free < Threshold() {
        SpliceToUsed(c, k);
      }
    }

    /** `expand_free`: a new chunk, of the default size or larger, with one block. */
    method ExpandFree(req: nat) returns (n: Chunk, off: nat)
      requires Valid() && req >= SIZEOF_DATA
      modifies this`F, this`FS, this`U, this`US, FS`next, FS`prev, US`next, US`prev
      ensures Valid() && fresh(n) && off == 0 && n.live == map[off := req]
      ensures n.size == (if req > DefaultSize() then req else DefaultSize()) && n.free == n.size - req
      ensures n.free >= Threshold() ==> F == Behind(m_free, n, old(F)) && U == old(U)
      ensures n.free < Threshold() ==> F == old(F) && U == Behind(m_used, n, old(U))
      ensures FS + US == old(FS) + old(US) + {n}
    {
      hide Ring, Without, Behind, Distinct, Chunk.Counted;
      if optimal >= 1 {
      }
      var chunkSize := if req > DefaultSize() then req else DefaultSize();
      n := new Chunk.WithBlock(chunkSize, req);
      off := 0;
      if n.free < Threshold() {
        LinkUsed(n);
      } else {
        LinkFree(n);
      }
    }

    /** Links a new chunk in at the front of the used list. */
    method LinkUsed(n: Chunk)
      requires Valid() && n !in FS + US && InUsed(n)
      modifies this`U, this`US, US`next, US`prev, n`next, n`prev
      ensures Valid() && US == old(US) + {n} && U == Behind(m_used, n, old(U))
    {
      hide Ring, Without, Behind, Distinct, InUsed, InFree, AllUsed, AllFree;
      RingStart(U, US, 0);
      LinkBehind(n, m_used, U, US);
      OneMore(US, n);
      U, US := Behind(m_used, n, U), US + {n};
    }

    /** Links a new chunk in at the front of the free list. */
    method LinkFree(n: Chunk)
      requires Valid() && n !in FS + US && InFree(n)
      modifies this`F, this`FS, FS`next, FS`prev, n`next, n`prev
      ensures Valid() && FS == old(FS) + {n} && F == Behind(m_free, n, old(F))
    {
      hide Ring, Without, Behind, Distinct, InUsed, InFree, AllUsed, AllFree;
      RingStart(F, FS, 0);
      LinkBehind(n, m_free, F, FS);
      OneMore(FS, n);
      F, FS := Behind(m_free, n, F), FS + {n};
    }

    /** `free`: the header of the block leads to its chunk; the chunk's last block takes it,
        empty, to the front of the free list. */
    method Free(area: Chunk, off: nat) returns (ghost k: nat)
      requires Valid() && area in FS + US && area != m_free && area != m_used && off in area.live
      modifies this`F, this`FS, this`U, this`US, FS, US
      ensures Valid() && area.live == old(area.live) - {off} && area.size == old(area.size)
      ensures forall x :: x in old(FS) + old(US) && x != area ==> x.live == old(x.live) && x.free == old(x.free)
      ensures FS + US == old(FS) + old(US)
      // a chunk with other blocks stays as and where it is
      ensures area.live != map[] ==> F == old(F) && U == old(U) && area.free == old(area.free)
      // an empty one goes from its place to the front of the free list
      ensures area.live == map[] ==> area.free == area.size && 0 < k < old(if area in FS then |F| else |U|)
      ensures area.live == map[] && old(area in FS) ==>
                old(F)[k] == area && F == [m_free, area] + (old(F)[..k] + old(F)[k + 1..])[1..] && U == old(U)
      ensures area.live == map[] && old(area in US) ==>
                old(U)[k] == area && F == [m_free, area] + old(F)[1..] && U == old(U)[..k] + old(U)[k + 1..]
    {
      hide Ring, Distinct, Chunk.Counted, Chunk.Ok;
      HeaderPointsBack(area, off);
      k := 0;
      var chunk := area.back[off];
      chunk.Drop(off);
      if chunk.lots == 0 {
        k := Retire(chunk);
      }
    }

    /** A chunk without live blocks goes to the front of the free list. */
    method Retire(chunk: Chunk) returns (ghost k: nat)
      requires Rings() && chunk in FS + US && chunk != m_free && chunk != m_used
      requires chunk.live == map[] && chunk.lots == 0 && (optimal >= 1 ==> chunk.size >= Threshold())
      requires AllFree(FS - {chunk}) && AllUsed(US - {chunk})
      modifies this`F, this`FS, this`U, this`US, FS`next, FS`prev, US`next, US`prev, chunk`free
      ensures Valid() && FS + US == old(FS) + old(US) && chunk.free == chunk.size
      ensures 0 < k < old(if chunk in FS then |F| else |U|) && old(if chunk in FS then F else U)[k] == chunk
      ensures F == Behind(m_free, chunk, old(if chunk in FS then Without(F, k) else F))
      ensures U == old(if chunk in FS then U else Without(U, k))
    {
      hide Ring, Without, Behind, Distinct, AllUsed, AllFree, Chunk.Ok;
      ghost var inFree, fs, us := chunk in FS, FS - {chunk}, US - {chunk};
      k := RingIndex(if inFree then F else U, if inFree then FS else US, chunk);
      SpliceToFree(chunk, inFree, k);
      EmptyIsOk(chunk);
      OneMore(fs, chunk);
      assert FS == fs + {chunk} && US == us;
    }

    /** The destructor: frees every node.  `trace` are its accesses to nodes, in order: none is
        touched after it was freed. */
    method Destroy() returns (freed: seq<Chunk>, ghost trace: seq<Access>)
      requires Rings()
      ensures freed == (F[1..] + [m_free]) + U && Traced(trace, freed)
    {
      hide Ring, Distinct, Traced;
      freed, trace := FreeFreeList();
      var f := m_used;
      ghost var before, k := freed, 0;
      RingStart(U, US, 0);
      RingStep(U, US, 0, before);
      assert before + U[..0] == before;
      trace := Touch(trace, freed, f);
      while f.next != m_used
        invariant 0 <= k < |U| && f == U[k] && f !in freed && freed == before + U[..k] && Traced(trace, freed)
        invariant (f.next == m_used <==> k == |U| - 1) && (k < |U| - 1 ==> f.next == U[k + 1])
        decreases |U| - k
      {
        RingStep(U, US, k + 1, before);
        trace := Touch(trace, freed, f);
        f := f.next;
        trace := Touch(trace, freed, f);
        k := k + 1;
        trace := Release(trace, freed, f.prev);
        freed := freed + [f.prev];
        trace := Touch(trace, freed, f);
      }
      trace := Release(trace, freed, f);
      freed := freed + [f];
    }

    /** The first loop of the destructor, and the free-list head. */
    method FreeFreeList() returns (freed: seq<Chunk>, ghost trace: seq<Access>)
      requires Rings()
      ensures freed == F[1..] + [m_free] && Traced(trace, freed)
      ensures forall c :: c in freed ==> c in FS
    {
      hide Ring, Distinct, Traced;
      freed, trace := [], [];
      NothingTraced();
      RingStart(F, FS, 0);
      RingStep(F, FS, 0, []);
      trace := Touch(trace, freed, m_free);
      var f := m_free.next;
      ghost var k := 1;
      while f != m_free
        invariant 1 <= k <= |F| && f == (if k < |F| then F[k] else m_free) && freed == F[1..k]
        invariant (k < |F| ==> f != m_free) && m_free !in freed && Traced(trace, freed)
        decreases |F| - k
      {
        RingStep(F, FS, k, []);
        assert f !in freed;
        trace := Touch(trace, freed, f);
        f := f.next;
        k := k + 1;
        RingStep(F, FS, if k < |F| then k else 0, []);
        trace := Touch(trace, freed, f);
        trace := Release(trace, freed, f.prev);
        freed := freed + [f.prev];
      }
      trace := Release(trace, freed, m_free);
      freed := freed + [f];
    }

    /** Nothing is freed twice and nothing is missed. */
    lemma DestroyFreesEachOnce(freed: seq<Chunk>)
      requires Rings() && freed == (F[1..] + [m_free]) + U
      ensures Distinct(freed) && forall c :: c in freed <==> c in FS + US
    {
      hide Distinct;
      RotatedRing(F, FS);
      RingMembers(U, US);
      DistinctConcat(F[1..] + [m_free], U);
    }
  }

  /** With a default size of 0, one block allocated and freed leaves a chunk on the free list that
      is too small for a block of the estimated size. */
  method SmallChunkStays() returns (s: Source)
    ensures s.Valid() && s.optimal == 0 && |s.F| > 1 && s.F[1].free == s.F[1].size < s.Threshold()
  {
    hide Ring, Without, Behind, Distinct, Chunk.Counted, Chunk.Ok, Source.AllFree, Source.AllUsed, Source.FirstFit;
    s := new Source(64, 0);
    var c, off, k := s.Malloc(1);
    var k' := s.Free(c, off);
  }

  lemma RotatedRing(r: seq<Chunk>, S: set<Chunk>)
    requires Ring(r, S)
    ensures r != [] && Distinct(r[1..] + [r[0]]) && forall c :: c in r[1..] + [r[0]] <==> c in S
  {
    hide Ring;
    RingMembers(r, S);
    Rotated(r);
  }

  lemma Rotated(r: seq<Chunk>)
    requires Distinct(r) && r != []
    ensures Distinct(r[1..] + [r[0]]) && forall c :: c in r[1..] + [r[0]] <==> c in r
  {
    DistinctConcat(r[1..], [r[0]]);
    assert r == [r[0]] + r[1..];
  }

  lemma RingMembers(r: seq<Chunk>, S: set<Chunk>)
    requires Ring(r, S)
    ensures r != [] && Distinct(r) && forall c :: c in r <==> c in S
  {
    forall c | c in S ensures c in r {
      var k := RingIndex(r, S, c);
    }
  }

  lemma DistinctConcat(a: seq<Chunk>, b: seq<Chunk>)
    requires Distinct(a) && Distinct(b) && forall c :: c in a ==> c !in b
    ensures Distinct(a + b)
  {
    forall i, j | 0 <= i < j < |a + b|
      ensures (a + b)[i] != (a + b)[j]
    {
      assert (a + b)[i] in if i < |a| then a else b;
      assert (a + b)[j] in if j < |a| then a else b;
    }
  }

  /** What a walk along a ring needs at node `k`; `a` are nodes freed before. */
  lemma RingStep(r: seq<Chunk>, S: set<Chunk>, k: nat, a: seq<Chunk>)
    requires Ring(r, S) && k < |r| && forall c :: c in a ==> c !in S
    ensures r[k].next == NextIn(r, k) && r[k].prev == PrevIn(r, k)
    ensures r[k] in S && (forall c :: c in r ==> c in S) && r[k] !in a + r[..k]
    ensures k > 0 ==> r[k] != r[0]
    ensures NextIn(r, k) == r[0] <==> k == |r| - 1
    ensures k > 0 ==> a + r[..k] == a + r[..k - 1] + [r[k - 1]]
    ensures k == |r| - 1 ==> a + r[..k] + [r[k]] == a + r
  {
  }

  lemma HeaderPointsBack(c: Chunk, off: nat)
    requires c.Ok() && off in c.live
    ensures off in c.back && c.back[off] == c
  {
  }

  lemma EmptyIsOk(c: Chunk)
    requires c.live == map[] && c.lots == 0 && c.free == c.size
    ensures c.Ok()
  {
  }

  lemma {:induction false} DistinctNodes(r: seq<Chunk>)
    requires Distinct(r)
    ensures |set c | c in r| == |r|
  {
    if r != [] {
      DistinctNodes(r[1..]);
      assert (set c | c in r) == {r[0]} + (set c | c in r[1..]);
    }
  }

  lemma SubsetOfSameSize(a: set<Chunk>, b: set<Chunk>)
    requires a <= b && |a| == |b|
    ensures a == b
  {
    assert b == a + (b - a);
  }

  /** Where a node of a ring is. */
  lemma RingIndex(r: seq<Chunk>, S: set<Chunk>, c: Chunk) returns (k: nat)
    requires Ring(r, S) && c in S
    ensures k < |r| && r[k] == c
  {
    DistinctNodes(r);
    SubsetOfSameSize((set x | x in r), S);
    k :| 0 <= k < |r| && r[k] == c;
  }
}
