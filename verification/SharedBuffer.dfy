/** `mp::shared_buffer`: a bump allocator over reference-counted blocks, whose references other
    threads may clear at any time. */
module SharedBuffer {
  import opened Common

  datatype Block = Block(count: nat, size: nat)

  /** What was handed out with a reference: `len` bytes of a block. */
  datatype Region = Region(block: nat, from: nat, len: nat)

  ghost function HoldersOf(refs: map<nat, nat>, b: nat): set<nat> {
    set r | r in refs && refs[r] == b
  }

  /** How many references hold block `b`. */
  ghost function Holders(refs: map<nat, nat>, b: nat): nat {
    |HoldersOf(refs, b)|
  }

  lemma HoldersAfterClear(refs: map<nat, nat>, r: nat, b: nat)
    requires r in refs
    ensures Holders(refs - {r}, b) == Holders(refs, b) - (if refs[r] == b then 1 else 0)
  {
    assert HoldersOf(refs - {r}, b) == HoldersOf(refs, b) - {r};
  }

  lemma HoldersAfterSet(refs: map<nat, nat>, r: nat, p: nat, b: nat)
    requires r !in refs
    ensures Holders(refs[r := p], b) == Holders(refs, b) + (if p == b then 1 else 0)
  {
    assert HoldersOf(refs[r := p], b) == if p == b then HoldersOf(refs, b) + {r} else HoldersOf(refs, b);
  }

  lemma NoHolders(refs: map<nat, nat>, b: nat)
    ensures Holders(refs, b) == 0 <==> forall r :: r in refs ==> refs[r] != b
  {
    if r :| r in refs && refs[r] == b {
      assert r in HoldersOf(refs, b);
    } else {
      assert HoldersOf(refs, b) == {};
    }
  }

  ghost predicate Apart(g: Region, h: Region) {
    g.block != h.block || g.from + g.len <= h.from || h.from + h.len <= g.from
  }

  /** The blocks that are not freed, the references that are not null, by the identity of the
      reference object, and what was handed out with them; `cur` is m_buffer while the buffer
      object exists. */
  datatype Store = Store(blocks: map<nat, Block>, refs: map<nat, nat>, regions: map<nat, Region>, cur: Option<nat>)

  /** A block is not freed exactly while somebody holds it, and its count is the number of
      holders: its references and the buffer object. */
  ghost predicate CountsOk(s: Store) {
    && (forall b :: b in s.blocks ==>
          s.blocks[b].count == Holders(s.refs, b) + (if s.cur == Some(b) then 1 else 0) && s.blocks[b].count > 0)
    && (forall r :: r in s.refs ==> s.refs[r] in s.blocks)
    && (s.cur.Some? ==> s.cur.value in s.blocks)
  }

  /** Held regions lie in their block behind the count, in the current block below m_used,
      and apart from each other. */
  ghost predicate RegionsOk(s: Store, used: nat) {
    && s.regions.Keys == s.refs.Keys
    && (forall r :: r in s.refs ==> RegionOk(s, used, r))
    && AllApart(s.regions)
  }

  ghost predicate AllApart(regions: map<nat, Region>) {
    forall r, q :: r in regions && q in regions && r != q ==> Apart(regions[r], regions[q])
  }

  ghost predicate RegionOk(s: Store, used: nat, r: nat)
    requires r in s.refs
  {
    && r in s.regions && s.refs[r] in s.blocks
    && var g := s.regions[r];
       && g.block == s.refs[r] && COUNT_SIZE <= g.from
       && g.from + g.len <= if s.cur == Some(g.block) then used else s.blocks[g.block].size
  }

  /** decr_count: frees the block with its last holder. */
  function Decr(blocks: map<nat, Block>, b: nat): map<nat, Block>
    requires b in blocks && blocks[b].count > 0
  {
    if blocks[b].count == 1 then blocks - {b} else blocks[b := blocks[b].(count := blocks[b].count - 1)]
  }

  function Cleared(s: Store, r: nat): Store
    requires r in s.refs && s.refs[r] in s.blocks && s.blocks[s.refs[r]].count > 0
  {
    Store(Decr(s.blocks, s.refs[r]), s.refs - {r}, s.regions - {r}, s.cur)
  }

  lemma ClearKeepsCounts(s: Store, r: nat)
    requires CountsOk(s) && r in s.refs
    ensures CountsOk(Cleared(s, r))
  {
    hide Holders;
    var s' := Cleared(s, r);
    forall b | b in s'.blocks
      ensures s'.blocks[b].count == Holders(s'.refs, b) + (if s'.cur == Some(b) then 1 else 0) && s'.blocks[b].count > 0
    {
      HoldersAfterClear(s.refs, r, b);
    }
    HoldersAfterClear(s.refs, r, s.refs[r]);
    NoHolders(s'.refs, s.refs[r]);
  }

  lemma ClearKeepsRegions(s: Store, used: nat, r: nat)
    requires RegionsOk(s, used) && r in s.refs && s.refs[r] in s.blocks && s.blocks[s.refs[r]].count > 0
    requires forall q :: q in s.refs && q != r ==> s.refs[q] in Cleared(s, r).blocks
    ensures RegionsOk(Cleared(s, r), used)
  {
    hide Apart;
    var s' := Cleared(s, r);
    forall q | q in s'.refs
      ensures RegionOk(s', used, q)
    {
      assert RegionOk(s, used, q);
    }
  }

  // ----- what the owner does to the store

  /** realloc of m_buffer to another block `id` of `size` bytes, count and all; the old one is
      gone.  A realloc that leaves the block in place would only change its size. */
  function Reallocated(s: Store, id: nat, size: nat): Store
    requires s.cur.Some? && s.cur.value in s.blocks
  {
    s.(blocks := (s.blocks - {s.cur.value})[id := Block(s.blocks[s.cur.value].count, size)], cur := Some(id))
  }

  /** A new block `id` becomes m_buffer, and the old one loses a holder. */
  function Replaced(s: Store, id: nat, size: nat): Store
    requires s.cur.Some? && s.cur.value in s.blocks && s.blocks[s.cur.value].count > 0
  {
    s.(blocks := Decr(s.blocks, s.cur.value)[id := Block(1, size)], cur := Some(id))
  }

  /** `reference::reset(m_buffer)` on a null reference, for the region `g`. */
  function Referenced(s: Store, r: nat, g: Region): Store
    requires s.cur.Some? && s.cur.value in s.blocks
  {
    var b := s.cur.value;
    s.(blocks := s.blocks[b := s.blocks[b].(count := s.blocks[b].count + 1)],
       refs := s.refs[r := b], regions := s.regions[r := g])
  }

  /** A reallocation that moves the block, as any may, keeps the counts exact if and only if no
      reference holds it: the condition can be read off the count before the call. */
  lemma ReallocKeepsCounts(s: Store, id: nat, size: nat)
    requires CountsOk(s) && s.cur.Some? && id !in s.blocks
    ensures CountsOk(Reallocated(s, id, size)) <==> s.blocks[s.cur.value].count == 1
  {
    hide Holders;
    var s', b := Reallocated(s, id, size), s.cur.value;
    NoHolders(s.refs, b);
    NoHolders(s.refs, id);
    if r :| r in s.refs && s.refs[r] == b {
      assert s'.refs[r] !in s'.blocks;
    }
  }

  lemma ReplaceKeepsCounts(s: Store, id: nat, size: nat)
    requires CountsOk(s) && s.cur.Some? && id !in s.blocks
    ensures CountsOk(Replaced(s, id, size))
  {
    hide Holders;
    NoHolders(s.refs, s.cur.value);
    NoHolders(s.refs, id);
  }

  lemma ReferenceKeepsCounts(s: Store, r: nat, g: Region)
    requires CountsOk(s) && s.cur.Some? && r !in s.refs
    ensures CountsOk(Referenced(s, r, g))
  {
    hide Holders;
    var s' := Referenced(s, r, g);
    forall b | b in s'.blocks
      ensures s'.blocks[b].count == Holders(s'.refs, b) + (if s'.cur == Some(b) then 1 else 0) && s'.blocks[b].count > 0
    {
      HoldersAfterSet(s.refs, r, s.cur.value, b);
    }
  }

  /** The regions of other blocks stay where they are while the current block is exchanged for
      another that holds none, or grows. */
  lemma RegionsStay(s: Store, used: nat, s': Store, used': nat)
    requires RegionsOk(s, used) && s'.refs == s.refs && s'.regions == s.regions
    requires forall r :: r in s.refs ==>
               && s.refs[r] in s.blocks && s.refs[r] in s'.blocks
               && (if s.cur == Some(s.refs[r]) then used else s.blocks[s.refs[r]].size)
                  <= (if s'.cur == Some(s.refs[r]) then used' else s'.blocks[s.refs[r]].size)
    ensures RegionsOk(s', used')
  {
    hide AllApart;
    forall r | r in s'.refs
      ensures RegionOk(s', used', r)
    {
      assert RegionOk(s, used, r);
    }
  }

  /** A new region above all held ones of the current block is apart from them. */
  lemma BumpIsApart(s: Store, used: nat, len: nat)
    requires RegionsOk(s, used) && s.cur.Some?
    ensures forall r :: r in s.regions ==> Apart(Region(s.cur.value, used, len), s.regions[r])
  {
    forall r | r in s.regions
      ensures Apart(Region(s.cur.value, used, len), s.regions[r])
    {
      assert RegionOk(s, used, r);
    }
  }

  lemma ReferenceKeepsRegions(s: Store, used: nat, r: nat, len: nat)
    requires RegionsOk(s, used) && s.cur.Some? && s.cur.value in s.blocks && r !in s.refs
    requires used >= COUNT_SIZE
    ensures RegionsOk(Referenced(s, r, Region(s.cur.value, used, len)), used + len)
  {
    BumpIsApart(s, used, len);
    hide Apart;
    var g := Region(s.cur.value, used, len);
    var s' := Referenced(s, r, g);
    forall q | q in s'.refs
      ensures RegionOk(s', used + len, q)
    {
      if q != r {
        assert RegionOk(s, used, q);
      }
    }
    ApartExtends(s.regions, r, g);
  }

  lemma ApartExtends(regions: map<nat, Region>, r: nat, g: Region)
    requires AllApart(regions) && r !in regions && forall q :: q in regions ==> Apart(g, regions[q])
    ensures AllApart(regions[r := g])
  {
  }

  /** At `m_used == sizeof(count_t)` nobody holds a region of the current block, unless one of
      length 0. */
  lemma NothingHeldAtStart(s: Store, used: nat)
    requires CountsOk(s) && RegionsOk(s, used) && s.cur.Some? && used <= COUNT_SIZE
    requires forall r :: r in s.regions ==> s.regions[r].len > 0
    ensures s.blocks[s.cur.value].count == 1
  {
    forall r | r in s.refs
      ensures s.refs[r] != s.cur.value
    {
      assert RegionOk(s, used, r);
    }
    NobodyElse(s);
  }

  // ----- when reserving is safe

  /** `reserve` finds room, or may rewind, or starts a new block. */
  predicate Reservable(count: nat, used: nat, free: nat, len: nat) {
    count == 1 || free >= len || used > COUNT_SIZE
  }

  /** The room `reserve` finds: what is free, or all of a block that nobody else holds. */
  function Room(used: nat, free: nat, alone: bool): int {
    if alone then used + free - COUNT_SIZE else free
  }

  /** Behind a rewind, or with nothing handed out, a block without room is reallocated. */
  predicate AtStart(used: nat, alone: bool) {
    alone || used == COUNT_SIZE
  }

  /** The store after `reserve`: `id` and `size` are those of a block it may allocate. */
  function Reserved(s: Store, used: nat, free: nat, len: nat, id: nat, size: nat): Store
    requires s.cur.Some? && s.cur.value in s.blocks && s.blocks[s.cur.value].count > 0 && used >= COUNT_SIZE
  {
    var alone := s.blocks[s.cur.value].count == 1;
    if len <= Room(used, free, alone) then s
    else if AtStart(used, alone) then Reallocated(s, id, size)
    else Replaced(s, id, size)
  }

  /** `reserve` keeps the counts exact, wherever a realloc moves the block, if and only if this
      test holds before the call. */
  lemma ReserveKeepsCounts(s: Store, used: nat, free: nat, len: nat, id: nat, size: nat)
    requires CountsOk(s) && s.cur.Some? && used >= COUNT_SIZE && id !in s.blocks
    ensures CountsOk(Reserved(s, used, free, len, id, size))
      <==> Reservable(s.blocks[s.cur.value].count, used, free, len)
  {
    hide CountsOk;
    CountsBasics(s);
    ReallocKeepsCounts(s, id, size);
    ReplaceKeepsCounts(s, id, size);
  }

  /** With no region of length 0 the test always holds. */
  lemma PositiveRegionsAreReservable(s: Store, used: nat, free: nat, len: nat)
    requires CountsOk(s) && RegionsOk(s, used) && s.cur.Some?
    requires forall r :: r in s.regions ==> s.regions[r].len > 0
    ensures s.cur.value in s.blocks && Reservable(s.blocks[s.cur.value].count, used, free, len)
  {
    if used <= COUNT_SIZE {
      NothingHeldAtStart(s, used);
    }
  }

  /** The destructor gives up the buffer's own hold on its block. */
  function Destroyed(s: Store): Store
    requires s.cur.Some? && s.cur.value in s.blocks && s.blocks[s.cur.value].count > 0
  {
    s.(blocks := Decr(s.blocks, s.cur.value), cur := None)
  }

  /** References outlive the buffer: their blocks stay, and go with the last of them. */
  lemma DestroyKeepsReferences(s: Store, used: nat)
    requires CountsOk(s) && RegionsOk(s, used) && s.cur.Some? && used <= s.blocks[s.cur.value].size
    ensures CountsOk(Destroyed(s)) && RegionsOk(Destroyed(s), used)
  {
    hide Holders;
    NoHolders(s.refs, s.cur.value);
    RegionsStay(s, used, Destroyed(s), used);
  }

  /** A zero-length allocation with a reference leaves m_used at the start of a block that is
      held; the next one that does not fit reallocates it under that reference. */
  lemma ZeroLengthReferenceDangles()
    ensures var s0 := Store(map[0 := Block(1, COUNT_SIZE)], map[], map[], Some(0));
            var s1 := Referenced(s0, 0, Region(0, COUNT_SIZE, 0));
            CountsOk(s0) && CountsOk(s1) && !CountsOk(Reallocated(s1, 1, 64))
  {
    var s0 := Store(map[0 := Block(1, COUNT_SIZE)], map[], map[], Some(0));
    NoHolders(s0.refs, 0);
    var s1 := Referenced(s0, 0, Region(0, COUNT_SIZE, 0));
    ReferenceKeepsCounts(s0, 0, Region(0, COUNT_SIZE, 0));
    ReallocKeepsCounts(s1, 1, 64);
  }

  // ----- the buffer

  /** One buffer object and all references into its blocks.  A block identity is never reused. */
  class SharedBuffer {
    var blocks: map<nat, Block>
    var nextId: nat
    var m_buffer: nat
    var m_used: nat
    var m_free: nat
    var refs: map<nat, nat>
    ghost var regions: map<nat, Region>

    ghost function View(): Store
      reads this
    {
      Store(blocks, refs, regions, Some(m_buffer))
    }

    ghost predicate Valid()
      reads this
    {
      && CountsOk(View()) && RegionsOk(View(), m_used)
      && m_buffer in blocks && COUNT_SIZE <= m_used && m_used + m_free == blocks[m_buffer].size
      && forall b :: b in blocks ==> b < nextId
    }

    constructor (initSize: nat)
      ensures Valid() && refs == map[] && m_used == COUNT_SIZE && m_used + m_free == Larger(initSize)
      ensures blocks[m_buffer].count == 1
    {
      var initsz := Larger(initSize);
      blocks := map[0 := Block(1, initsz)];
      nextId, m_buffer := 1, 0;
      m_used, m_free := COUNT_SIZE, initsz - COUNT_SIZE;
      refs, regions := map[], map[];
      new;
    }

    /** `reference::clear`, by any thread. */
    method Clear(r: nat)
      requires Valid()
      modifies this`blocks, this`refs, this`regions
      ensures Valid() && refs == old(refs) - {r} && regions == old(regions) - {r}
      ensures Kept(old(View()), View())
    {
      hide RegionsOk, CountsOk;
      ghost var v := View();
      CountsBasics(v);
      RegionKeys(v, m_used);
      if r in refs {
        ClearKeepsCounts(v, r);
        CountsBasics(Cleared(v, r));
        forall q | q in v.refs && q != r ensures v.refs[q] in Cleared(v, r).blocks {
          assert q in Cleared(v, r).refs;
        }
        ClearKeepsRegions(v, m_used, r);
        blocks := Decr(blocks, refs[r]);
        refs, regions := refs - {r}, regions - {r};
        assert View() == Cleared(v, r);
      } else {
        assert refs - {r} == refs && regions - {r} == regions;
      }
    }

    /** Other threads clear any references at any time. */
    method Others()
      requires Valid()
      modifies this`blocks, this`refs, this`regions
      ensures Valid() && Kept(old(View()), View())
    {
      hide RegionsOk, CountsOk;
      ghost var v := View();
      CountsBasics(v);
      RegionKeys(v, m_used);
      var more := *;
      var n: nat := *;
      var steps := if more then n else 0;
      while steps > 0
        invariant Valid() && Kept(v, View())
      {
        var r: nat := *;
        ghost var u := View();
        Clear(r);
        assert Kept(u, View());
        steps := steps - 1;
      }
    }

    /** The first half of `reserve`: rewinds a block that only the buffer holds. */
    method Rewind()
      requires Valid()
      modifies this`m_used, this`m_free
      ensures Valid() && m_used <= old(m_used)
      ensures m_used == if blocks[m_buffer].count == 1 then COUNT_SIZE else old(m_used)
      ensures m_used + m_free == old(m_used + m_free)
    {
      if blocks[m_buffer].count == 1 {
        NoHolders(refs, m_buffer);
        m_free := m_free + (m_used - COUNT_SIZE);
        m_used := COUNT_SIZE;
      }
    }

    /** `expand_buffer`: reallocates a block with nothing handed out, else starts a new one. */
    method Expand(len: nat, initSize: nat)
      requires Valid() && (m_used > COUNT_SIZE || blocks[m_buffer].count == 1)
      modifies this`blocks, this`nextId, this`m_buffer, this`m_used, this`m_free
      ensures Valid() && m_free >= len && m_used == COUNT_SIZE && m_buffer == old(nextId)
      ensures Grown(m_used + m_free, if old(m_used) == COUNT_SIZE then 2 * old(m_used + m_free) else Larger(initSize),
                len + COUNT_SIZE)
      ensures Kept(old(View()), View())
    {
      hide RegionsOk, CountsOk, Kept;
      ghost var v, used := View(), m_used;
      CountsBasics(v);
      if m_used == COUNT_SIZE {
        var size := Doubled((m_used + m_free) * 2, len + m_used);
        ReallocKeeps(v, used, nextId, size);
        blocks := (blocks - {m_buffer})[nextId := Block(blocks[m_buffer].count, size)];
        m_free := size - m_used;
      } else {
        var size := Doubled(Larger(initSize), len + COUNT_SIZE);
        ReplaceKeeps(v, used, nextId, size);
        blocks := Decr(blocks, m_buffer)[nextId := Block(1, size)];
        m_used := COUNT_SIZE;
        m_free := size - m_used;
      }
      m_buffer := nextId;
      nextId := nextId + 1;
    }

    /** `reference::reset(m_buffer)`: lets go of what it held, then takes the current block. */
    method Reset(r: nat, ghost len: nat)
      requires Valid() && len <= m_used - COUNT_SIZE
      requires RegionsOk(View(), m_used - len)
      modifies this`blocks, this`refs, this`regions
      ensures Valid() && r in refs && refs[r] == m_buffer
      ensures r in regions && regions[r] == Region(m_buffer, m_used - len, len)
      ensures Kept(old(View()), Without(View(), r))
    {
      hide RegionsOk, CountsOk, Kept;
      ghost var from := m_used - len;
      ClearBelow(r, from);
      ghost var v := View();
      ReferenceKeeps(v, r, from, len);
      blocks := blocks[m_buffer := blocks[m_buffer].(count := blocks[m_buffer].count + 1)];
      refs := refs[r := m_buffer];
      regions := regions[r := Region(m_buffer, from, len)];
      assert View() == Referenced(v, r, Region(v.cur.value, from, len));
      KeptTransitive(old(View()), v, Without(View(), r));
    }

    /** `Clear` keeps regions below any bound they were below. */
    method ClearBelow(r: nat, ghost used: nat)
      requires Valid() && RegionsOk(View(), used)
      modifies this`blocks, this`refs, this`regions
      ensures Valid() && RegionsOk(View(), used) && refs == old(refs) - {r} && regions == old(regions) - {r}
      ensures Kept(old(View()), View())
    {
      hide RegionsOk, CountsOk;
      ghost var v := View();
      Clear(r);
      RegionKeys(View(), m_used);
      RegionsBelow(v, used, View());
    }

    /** `reserve`, while other threads clear references between the test of the count, the
        expansion, and what follows. */
    method ReserveAmongOthers(len: nat, initSize: nat)
      requires Valid() && Reservable(blocks[m_buffer].count, m_used, m_free, len)
      modifies this
      ensures Valid() && m_free >= len && Kept(old(View()), View())
      ensures m_used == if old(blocks[m_buffer].count) == 1 || old(m_free) < len then COUNT_SIZE else old(m_used)
      ensures Sized(old(m_buffer), old(m_used), old(m_free), old(blocks[m_buffer].count) == 1,
                m_buffer, m_used + m_free, len, initSize)
    {
      hide RegionsOk, CountsOk, Kept;
      ghost var v := View();
      ghost var alone := blocks[m_buffer].count == 1;
      Rewind();
      Others();
      if alone {
        StaysAlone(v, View());
      }
      if m_free < len {
        ghost var u := View();
        Expand(len, initSize);
        KeptTransitive(v, u, View());
      }
      ghost var u := View();
      Others();
      KeptTransitive(v, u, View());
    }

    /** `allocate`: `len` bytes of the current block, with a reference if `dest` names one. */
    method Allocate(len: nat, dest: Option<nat>, initSize: nat) returns (at: nat)
      requires Valid() && Reservable(blocks[m_buffer].count, m_used, m_free, len)
      modifies this
      // at the start of a block that nobody else holds or that is new, else behind what is handed out
      ensures Valid() && at + len == m_used
      ensures at == if old(blocks[m_buffer].count) == 1 || old(m_free) < len then COUNT_SIZE else old(m_used)
      ensures Sized(old(m_buffer), old(m_used), old(m_free), old(blocks[m_buffer].count) == 1,
                m_buffer, m_used + m_free, len, initSize)
      // the bytes are not part of any region that is still held
      ensures forall q :: q in regions && dest != Some(q) ==> Apart(Region(m_buffer, at, len), regions[q])
      // every other reference still held is to the same region of the same block, of the same size
      ensures dest.None? ==> Kept(old(View()), View())
      ensures dest.Some? ==> dest.value in refs && Kept(old(View()), Without(View(), dest.value))
      ensures dest.Some? ==> dest.value in regions && regions[dest.value] == Region(m_buffer, at, len)
    {
      hide RegionsOk, CountsOk, Apart, Kept;
      ghost var v := View();
      ReserveAmongOthers(len, initSize);
      ghost var w := View();
      at := m_used;
      BumpIsApart(w, m_used, len);
      UsedMayGrow(w, m_used, len);
      m_used := m_used + len;
      m_free := m_free - len;
      if dest.Some? {
        Reset(dest.value, len);
        KeptTransitive(v, w, Without(View(), dest.value));
        KeptRegions(w, View(), m_used, dest.value);
      }
    }
  }

  /** The current block stays, with its size, exactly when it has room for `len` bytes, counting
      what a rewind gives back if it is held by nobody else.  Otherwise there is a new one. */
  ghost predicate Sized(was: nat, used: nat, free: nat, alone: bool, now: nat, size: nat, len: nat, initSize: nat) {
    var room := Room(used, free, alone);
    && (now == was <==> len <= room)
    && (len <= room ==> size == used + free)
    && (room < len ==> Grown(size, if AtStart(used, alone) then 2 * (used + free) else Larger(initSize),
                         len + COUNT_SIZE))
  }

  ghost function Without(s: Store, r: nat): Store {
    s.(refs := s.refs - {r}, regions := s.regions - {r})
  }

  /** The two ways to expand and the new reference, with all that they keep. */
  lemma ReallocKeeps(v: Store, used: nat, id: nat, size: nat)
    requires CountsOk(v) && RegionsOk(v, used) && v.cur.Some? && v.blocks[v.cur.value].count == 1 && id !in v.blocks
    ensures CountsOk(Reallocated(v, id, size)) && RegionsOk(Reallocated(v, id, size), used)
    ensures Kept(v, Reallocated(v, id, size))
  {
    hide CountsOk, RegionsOk;
    CountsBasics(v);
    RegionKeys(v, used);
    NobodyHolds(v);
    ReallocKeepsCounts(v, id, size);
    RegionsStay(v, used, Reallocated(v, id, size), used);
  }

  lemma ReplaceKeeps(v: Store, used: nat, id: nat, size: nat)
    requires CountsOk(v) && RegionsOk(v, used) && v.cur.Some? && used <= v.blocks[v.cur.value].size && id !in v.blocks
    ensures CountsOk(Replaced(v, id, size)) && RegionsOk(Replaced(v, id, size), COUNT_SIZE)
    ensures Kept(v, Replaced(v, id, size))
  {
    hide CountsOk, RegionsOk;
    CountsBasics(v);
    RegionKeys(v, used);
    ReplaceKeepsCounts(v, id, size);
    CountsBasics(Replaced(v, id, size));
    RegionsStay(v, used, Replaced(v, id, size), COUNT_SIZE);
  }

  lemma ReferenceKeeps(v: Store, r: nat, from: nat, len: nat)
    requires CountsOk(v) && RegionsOk(v, from) && v.cur.Some? && r !in v.refs && from >= COUNT_SIZE
    ensures var v' := Referenced(v, r, Region(v.cur.value, from, len));
            CountsOk(v') && RegionsOk(v', from + len) && Kept(v, Without(v', r))
  {
    hide CountsOk, RegionsOk;
    CountsBasics(v);
    RegionKeys(v, from);
    ReferenceKeepsCounts(v, r, Region(v.cur.value, from, len));
    ReferenceKeepsRegions(v, from, r, len);
  }

  lemma UsedMayGrow(s: Store, used: nat, len: nat)
    requires CountsOk(s) && RegionsOk(s, used)
    ensures RegionsOk(s, used + len)
  {
    RegionsStay(s, used, s, used + len);
  }

  lemma KeptRegions(w: Store, s: Store, used: nat, r: nat)
    requires RegionsOk(s, used) && Kept(w, Without(s, r))
    ensures forall q :: q in s.regions && q != r ==> q in w.regions && s.regions[q] == w.regions[q]
  {
    forall q | q in s.regions && q != r
      ensures q in w.regions && s.regions[q] == w.regions[q]
    {
      assert q in Without(s, r).refs;
    }
  }

  lemma KeptTransitive(a: Store, b: Store, c: Store)
    requires Kept(a, b) && Kept(b, c)
    ensures Kept(a, c)
  {
  }

  /** References that were kept keep their regions below the same bound. */
  lemma RegionsBelow(v: Store, used: nat, v': Store)
    requires RegionsOk(v, used) && Kept(v, v') && v'.regions.Keys == v'.refs.Keys && v'.cur == v.cur
    ensures RegionsOk(v', used)
  {
    forall q | q in v'.refs
      ensures RegionOk(v', used, q)
    {
      assert RegionOk(v, used, q);
    }
  }

  /** Every reference in `v'` is one of `v`, to the same region of the same block. */
  ghost predicate Kept(v: Store, v': Store) {
    && v'.refs.Keys <= v.refs.Keys
    && forall q :: q in v'.refs ==>
      && v'.refs[q] == v.refs[q] && q in v'.regions && q in v.regions && v'.regions[q] == v.regions[q]
      && v'.refs[q] in v'.blocks && v'.refs[q] in v.blocks && v'.blocks[v'.refs[q]].size == v.blocks[v'.refs[q]].size
  }

  lemma CountsBasics(s: Store)
    requires CountsOk(s)
    ensures forall b :: b in s.blocks ==> s.blocks[b].count > 0
    ensures forall r :: r in s.refs ==> s.refs[r] in s.blocks
    ensures s.cur.Some? ==> s.cur.value in s.blocks
  {
  }

  lemma NobodyHolds(s: Store)
    requires CountsOk(s) && s.cur.Some? && s.cur.value in s.blocks && s.blocks[s.cur.value].count == 1
    ensures forall r :: r in s.refs ==> s.refs[r] != s.cur.value
  {
    NoHolders(s.refs, s.cur.value);
  }

  /** A block nobody else holds stays so while references are only cleared. */
  lemma StaysAlone(v: Store, v': Store)
    requires CountsOk(v) && CountsOk(v') && Kept(v, v') && v.cur.Some? && v'.cur == v.cur
    requires v.cur.value in v.blocks && v.blocks[v.cur.value].count == 1
    ensures v'.cur.value in v'.blocks && v'.blocks[v'.cur.value].count == 1
  {
    hide CountsOk;
    NobodyHolds(v);
    NobodyElse(v');
  }

  lemma NobodyElse(s: Store)
    requires CountsOk(s) && s.cur.Some? && forall r :: r in s.refs ==> s.refs[r] != s.cur.value
    ensures s.cur.value in s.blocks && s.blocks[s.cur.value].count == 1
  {
    NoHolders(s.refs, s.cur.value);
  }

  lemma RegionKeys(s: Store, used: nat)
    requires RegionsOk(s, used)
    ensures s.regions.Keys == s.refs.Keys
  {
  }
}
