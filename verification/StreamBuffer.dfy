/** `mp::stream_buffer`: a byte FIFO in one relocating block. */
module StreamBuffer {
  import opened Common

  /** Elements are bytes; each protocol chooses how to write them. */
  class StreamBuffer<T(0)> {
    var block: array<T>
    var used: nat   // m_used
    var free: nat   // m_free
    var off: nat    // m_off
    var count: nat  // the count at the start of the block: the buffer itself and its readers
    // everything the buffer was filled with, and everything that was taken from it
    ghost var received: seq<T>
    ghost var taken: seq<T>

    /** The bytes between m_off and m_used; they are what was received and not yet taken. */
    function Data(): seq<T>
      requires Bounds()
      reads this, block
    {
      block[off..used]
    }

    predicate Bounds()
      reads this
    {
      COUNT_SIZE <= off <= used && used + free == block.Length && count >= 1
    }

    ghost predicate Valid()
      reads this, block
    {
      Bounds() && taken + Data() == received
    }

    constructor (initialSize: nat)
      ensures Valid() && Data() == [] && received == [] && fresh(block)
      ensures block.Length == Larger(initialSize) && off == COUNT_SIZE && count == 1
    {
      var initsz := Larger(initialSize);
      block := new T[initsz];
      used, off, count := COUNT_SIZE, COUNT_SIZE, 1;
      free := initsz - COUNT_SIZE;
      received, taken := [], [];
    }

    predicate Rewinds()
      requires Bounds()
      reads this, block
    {
      Data() == [] && count == 1
    }

    /** The room there is without another block. */
    function Room(): nat
      requires Bounds()
      reads this, block
    {
      if Rewinds() then block.Length - COUNT_SIZE else free
    }

    /** Makes room for `len` bytes behind the data, and keeps the data. */
    method ReserveBuffer(len: nat, initialSize: nat)
      requires Valid()
      modifies this`block, this`used, this`free, this`off, this`count
      ensures Valid() && Data() == old(Data()) && free >= len
      ensures block == old(block) || fresh(block)
      // a block that was read to its end and that nobody else holds starts again at the front, and
      // the block is kept exactly when it has room then
      ensures block == old(block) <==> len <= old(Room())
      ensures block == old(block) ==> count == old(count) && off == if old(Rewinds()) then COUNT_SIZE else old(off)
      // otherwise it is reallocated if the data starts at its front, or else left to its other holders
      ensures block != old(block) ==> off == COUNT_SIZE && count == if old(off) == COUNT_SIZE then old(count) else 1
      ensures block != old(block) ==>
                Grown(block.Length,
                  if old(off) == COUNT_SIZE || old(Rewinds()) then 2 * old(block.Length) else Larger(initialSize),
                  len + old(|Data()|) + COUNT_SIZE)
    {
      if used == off && count == 1 {
        // rewind
        free := free + (used - COUNT_SIZE);
        used, off := COUNT_SIZE, COUNT_SIZE;
        assert Data() == [];
      }
      if free < len {
        ExpandBuffer(len, initialSize);
      }
    }

    /** Reallocates a block whose data starts at the front, else copies the data to a new one
        and leaves the old one to its other holders. */
    method ExpandBuffer(len: nat, initialSize: nat)
      requires Valid()
      modifies this`block, this`used, this`free, this`off, this`count
      ensures Valid() && Data() == old(Data()) && free >= len && fresh(block) && off == COUNT_SIZE
      ensures count == if old(off) == COUNT_SIZE then old(count) else 1
      ensures Grown(block.Length, if old(off) == COUNT_SIZE then 2 * old(block.Length) else Larger(initialSize),
                len + old(|Data()|) + COUNT_SIZE)
    {
      if off == COUNT_SIZE {
        var size := Doubled((used + free) * 2, len + used);
        block := Moved(block, size, off, off, used - off);
        free := size - used;
      } else {
        var notUsed := used - off;
        var size := Doubled(Larger(initialSize), len + notUsed + COUNT_SIZE);
        block := Moved(block, size, COUNT_SIZE, off, notUsed);
        count := 1;
        used := notUsed + COUNT_SIZE;
        free := size - used;
        off := COUNT_SIZE;
      }
    }

    /** A new block of `size` bytes with `n` bytes of an old one. */
    static method Moved(old_: array<T>, size: nat, to: nat, from: nat, n: nat) returns (tmp: array<T>)
      requires to + n <= size && from + n <= old_.Length
      ensures fresh(tmp) && tmp.Length == size && tmp[to..to + n] == old_[from..from + n]
    {
      tmp := new T[size];
      forall i | 0 <= i < n {
        tmp[to + i] := old_[from + i];
      }
    }

    /** `read(2)` into the free part, and `buffer_consumed`. */
    method Receive(bytes: seq<T>)
      requires Valid() && |bytes| <= free
      modifies this`used, this`free, this`received, block
      ensures Valid() && Data() == old(Data()) + bytes && received == old(received) + bytes
      ensures taken == old(taken) && off == old(off)
    {
      ghost var data := Data();
      forall i | 0 <= i < |bytes| {
        block[used + i] := bytes[i];
      }
      used := used + |bytes|;
      free := free - |bytes|;
      received := received + bytes;
      assert Data() == data + bytes;
    }

    /** `data_used`. */
    method DataUsed(len: nat)
      requires Valid() && len <= |Data()|
      modifies this`off, this`taken
      ensures Valid() && Data() == old(Data())[len..] && taken == old(taken) + old(Data())[..len]
      ensures received == old(received) && used == old(used) && free == old(free)
    {
      taken := taken + Data()[..len];
      off := off + len;
      assert old(Data()) == old(Data())[..len] + Data();
    }
  }
}
