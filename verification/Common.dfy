/** What several components share. */
module Common {
  datatype Option<T> = None | Some(value: T)

  const COUNT_SIZE: nat := 4  // sizeof(count_t), at the start of every reference-counted block

  /** The size of a first block: at least its count fits. */
  function Larger(initSize: nat): (r: nat)
    ensures r >= initSize && r >= COUNT_SIZE && (r == initSize || r == COUNT_SIZE)
  {
    if initSize > COUNT_SIZE then initSize else COUNT_SIZE
  }

  function Pow2(k: nat): nat {
    if k == 0 then 1 else 2 * Pow2(k - 1)
  }

  /** The smallest size that is `start` doubled some times and holds `need`. */
  ghost predicate Grown(size: nat, start: nat, need: nat) {
    && size >= need && (size == start || size < 2 * need)
    && exists k: nat :: size == start * Pow2(k)
  }

  /** The next block size: doubled from a start, as often as it takes for `need` to fit. */
  method Doubled(start: nat, need: nat) returns (size: nat)
    requires start > 0
    ensures Grown(size, start, need) && size >= start
  {
    size := start;
    ghost var k := 0;
    while size < need
      invariant size == start * Pow2(k) && size >= start
      invariant size == start || size < 2 * need
      decreases need - size
    {
      size := size * 2;
      k := k + 1;
    }
  }

  lemma SplitHead(s: seq<int>)
    requires s != []
    ensures multiset(s) == multiset{s[0]} + multiset(s[1..])
  {
    assert s == [s[0]] + s[1..];
  }

  lemma {:induction false} DistinctCounts(s: seq<int>)
    requires forall i, j :: 0 <= i < j < |s| ==> s[i] != s[j]
    ensures forall x :: multiset(s)[x] == if x in s then 1 else 0
  {
    if s != [] {
      DistinctCounts(s[1..]);
      SplitHead(s);
      assert forall x :: x in s <==> x == s[0] || x in s[1..];
    }
  }

  lemma Resplit<T>(a: seq<T>, b: seq<T>, n: nat)
    requires n <= |b|
    ensures (a + b[..n]) + b[n..] == a + b
  {
  }

  lemma Assoc<T>(a: seq<T>, b: seq<T>, c: seq<T>)
    ensures (a + b) + c == a + (b + c)
  {
  }

  /** The outcome of `read(2)`. */
  datatype Received<T> = Got(bytes: seq<T>) | Closed | Again | Broken

  /** A stream that arrives in chunks. */
  function Flatten<T>(chunks: seq<seq<T>>): seq<T> {
    if chunks == [] then [] else Flatten(chunks[..|chunks| - 1]) + chunks[|chunks| - 1]
  }

  lemma FlattenNext<T>(chunks: seq<seq<T>>, n: nat)
    requires n < |chunks|
    ensures Flatten(chunks[..n + 1]) == Flatten(chunks[..n]) + chunks[n]
  {
    assert chunks[..n + 1][..n] == chunks[..n];
  }
}
