/** include/tool/FixedMemoryPool.h: equal blocks cut from one piece of memory, with the list of the free ones
    kept in the blocks themselves.

    Memory is an array of cells, one for each byte.  A pointer or a size takes the eight cells of a word: the
    first holds the value, and the others mark that they belong to it, so that a byte written over any of them
    destroys it.  An address is an offset into the memory of the pool. */
module Memory {

  import opened Seqs

  datatype Cell = Raw | Tail | Ptr(address: int) | Size(count: nat) | Byte(value: char)

  type Cells = seq<Cell>

  const NULL: int := -1
  const WORD: nat := 8

  /** The word at `a` holds `c`. */
  predicate Word(mem: Cells, a: int, c: Cell) {
    0 <= a && a + WORD <= |mem| && mem[a] == c && forall k :: a < k < a + WORD ==> mem[k] == Tail
  }

  /** Nothing outside the `n` cells at `a` has changed. */
  predicate SameOutside(m: Cells, m': Cells, a: int, n: nat) {
    |m'| == |m| && forall k :: 0 <= k < |m| && !(a <= k < a + n) ==> m'[k] == m[k]
  }

  method Store(mem: array<Cell>, a: nat, c: Cell)
    requires a + WORD <= mem.Length
    modifies mem
    ensures Word(mem[..], a, c) && SameOutside(old(mem[..]), mem[..], a, WORD)
  {
    forall k | a < k < a + WORD { mem[k] := Tail; }
    mem[a] := c;
  }

  lemma WordFrame(m: Cells, m': Cells, a: int, n: nat, b: int, c: Cell)
    requires Word(m, b, c) && SameOutside(m, m', a, n) && (b + WORD <= a || a + n <= b)
    ensures Word(m', b, c)
  {
  }

  // ---- Blocks ----

  /** Address of block `b`, for blocks of `e` bytes. */
  function Addr(e: nat, b: nat): nat {
    b * e
  }

  lemma AddrZero(e: nat)
    ensures Addr(e, 0) == 0
  {
  }

  lemma AddrNext(e: nat, b: nat)
    ensures Addr(e, b + 1) == Addr(e, b) + e
  {
  }

  /** A block ends before a later one begins. */
  lemma AddrOrder(e: nat, b: nat, c: nat)
    requires b < c
    ensures Addr(e, b) + e <= Addr(e, c)
  {
    assert c * e - (b + 1) * e == (c - b - 1) * e >= 0;
  }

  function Head(e: nat, s: seq<nat>): int {
    if s == [] then NULL else Addr(e, s[0])
  }

  function NextOf(e: nat, s: seq<nat>, i: nat): int {
    if i + 1 < |s| then Addr(e, s[i + 1]) else NULL
  }

  /** The blocks of `s` are linked in this order, each by the pointer in its first word. */
  predicate Linked(mem: Cells, e: nat, s: seq<nat>) {
    forall i :: 0 <= i < |s| ==> Word(mem, Addr(e, s[i]), Ptr(NextOf(e, s, i)))
  }

  lemma LinkedTail(mem: Cells, e: nat, s: seq<nat>)
    requires Linked(mem, e, s) && s != []
    ensures Linked(mem, e, s[1..]) && Word(mem, Head(e, s), Ptr(Head(e, s[1..])))
  {
    hide Word;
    var r := s[1..];
    assert NextOf(e, s, 0) == Head(e, r);
    forall i | 0 <= i < |r| ensures Word(mem, Addr(e, r[i]), Ptr(NextOf(e, r, i))) {
      assert r[i] == s[i + 1] && NextOf(e, r, i) == NextOf(e, s, i + 1);
    }
  }

  lemma LinkedCons(mem: Cells, e: nat, b: nat, s: seq<nat>)
    requires Linked(mem, e, s) && Word(mem, Addr(e, b), Ptr(Head(e, s)))
    ensures Linked(mem, e, [b] + s)
  {
    hide Word;
    var r := [b] + s;
    forall i | 0 <= i < |r| ensures Word(mem, Addr(e, r[i]), Ptr(NextOf(e, r, i))) {
      if i > 0 { assert r[i] == s[i - 1] && NextOf(e, r, i) == NextOf(e, s, i - 1); }
    }
  }

  /** The free list: distinct blocks, linked from `head` on. */
  predicate FreeList(mem: Cells, e: nat, capacity: nat, head: int, free: seq<nat>) {
    && Linked(mem, e, free) && head == Head(e, free) && NoDup(free) && forall i :: 0 <= i < |free| ==> free[i] < capacity
  }

  /** Writing inside a block that is in use leaves the free list alone. */
  lemma FreeFrame(m: Cells, m': Cells, e: nat, capacity: nat, head: int, free: seq<nat>, b: nat, a: int, n: nat)
    requires FreeList(m, e, capacity, head, free) && b !in free && WORD <= e
    requires Addr(e, b) <= a && a + n <= Addr(e, b) + e && SameOutside(m, m', a, n)
    ensures FreeList(m', e, capacity, head, free)
  {
    hide Linked, Addr, SameOutside;
    LinkedFrame(m, m', e, free, b, a, n);
  }

  lemma FreeCons(m: Cells, m': Cells, e: nat, capacity: nat, head: int, free: seq<nat>, b: nat)
    requires FreeList(m, e, capacity, head, free) && b !in free && b < capacity && WORD <= e
    requires SameOutside(m, m', Addr(e, b), WORD) && Word(m', Addr(e, b), Ptr(head))
    ensures FreeList(m', e, capacity, Addr(e, b), [b] + free)
  {
    hide Word, Addr, Linked;
    LinkedFrame(m, m', e, free, b, Addr(e, b), WORD);
    LinkedCons(m', e, b, free);
  }

  lemma FreeTail(mem: Cells, e: nat, capacity: nat, head: int, free: seq<nat>)
    requires FreeList(mem, e, capacity, head, free) && head != NULL
    ensures free != [] && head == Addr(e, free[0]) && 0 <= head && head + WORD <= |mem| && mem[head].Ptr?
    ensures FreeList(mem, e, capacity, mem[head].address, free[1..])
  {
    hide Addr, Linked;
    LinkedTail(mem, e, free);
  }

  /** The first `n` blocks point to the next one each. */
  predicate Pointers(mem: Cells, e: nat, n: nat) {
    forall j :: 0 <= j < n ==> Word(mem, Addr(e, j), Ptr(Addr(e, j + 1)))
  }

  /** The list after the constructor's loop. */
  lemma FreeAll(mem: Cells, e: nat, capacity: nat)
    requires 0 < capacity && Word(mem, Addr(e, capacity - 1), Ptr(NULL))
    requires Pointers(mem, e, capacity - 1)
    ensures FreeList(mem, e, capacity, 0, seq(capacity, i => i))
  {
    hide Word;
    var s := seq(capacity, i => i);
    forall i | 0 <= i < |s| ensures Word(mem, Addr(e, s[i]), Ptr(NextOf(e, s, i))) {
      assert s[i] == i && (i + 1 < capacity ==> s[i + 1] == i + 1);
    }
  }

  /** Writing the pointer of block `i` leaves those of the blocks before it alone. */
  lemma PointersKept(m: Cells, m': Cells, e: nat, i: nat)
    requires WORD <= e && SameOutside(m, m', Addr(e, i), WORD)
    requires Pointers(m, e, i)
    ensures Pointers(m', e, i)
  {
    hide Word, Addr, SameOutside;
    forall j | 0 <= j < i ensures Word(m', Addr(e, j), Ptr(Addr(e, j + 1))) {
      AddrOrder(e, j, i);
      WordFrame(m, m', Addr(e, i), WORD, Addr(e, j), Ptr(Addr(e, j + 1)));
    }
  }

  /** Writing inside a block leaves the list of other blocks alone. */
  lemma LinkedFrame(m: Cells, m': Cells, e: nat, s: seq<nat>, b: nat, a: int, n: nat)
    requires Linked(m, e, s) && b !in s && WORD <= e
    requires Addr(e, b) <= a && a + n <= Addr(e, b) + e && SameOutside(m, m', a, n)
    ensures Linked(m', e, s)
  {
    hide Word, Addr;
    forall i | 0 <= i < |s| ensures Word(m', Addr(e, s[i]), Ptr(NextOf(e, s, i))) {
      if s[i] < b { AddrOrder(e, s[i], b); } else { AddrOrder(e, b, s[i]); }
      WordFrame(m, m', a, n, Addr(e, s[i]), Ptr(NextOf(e, s, i)));
    }
  }
}

module FixedMemoryPools {

  import opened Memory

  /** `AlignUp`: the least multiple of the word size that is not less. */
  function AlignUp(size: nat): (r: nat)
    ensures size <= r < size + WORD && r % WORD == 0
  {
    (size + WORD - 1) / WORD * WORD
  }

  class FixedMemoryPool {
    var m_pool: array?<Cell>
    var m_freeList: int
    var m_elemSize: nat
    var m_capacity: nat
    var m_freeCount: nat
    /** The free blocks, in the order of the list. */
    ghost var free: seq<nat>

    ghost predicate Valid()
      reads this, m_pool
    {
      && WORD <= m_elemSize && m_elemSize % WORD == 0
      && m_freeCount == |free|
      && (m_pool == null ==> m_capacity == 0 && free == [] && m_freeList == NULL)
      && (m_pool != null ==> m_pool.Length == Addr(m_elemSize, m_capacity) && FreeList(m_pool[..], m_elemSize, m_capacity, m_freeList, free))
    }

    /** A pool with every block free, or, if there is no memory, a pool without blocks. */
    constructor (elemSize: nat, capacity: nat)
      requires 0 < elemSize && 0 < capacity
      ensures Valid() && m_elemSize == AlignUp(if elemSize < WORD then WORD else elemSize)
      ensures m_pool != null ==> fresh(m_pool) && m_capacity == capacity && free == seq(capacity, i => i)
      ensures m_pool == null ==> m_capacity == 0 && free == []
    {
      var size := if elemSize < WORD then WORD else elemSize;
      var e := AlignUp(size);
      m_pool := null;
      m_freeList := NULL;
      m_elemSize := e;
      m_capacity := capacity;
      m_freeCount := 0;
      free := [];
      new;
      var mem := Malloc(Addr(e, capacity));
      m_pool := mem;
      if m_pool == null {
        m_capacity := 0;
        return;
      }
      LinkBlocks(mem, e, capacity);
      free := seq(capacity, i => i);
      m_freeList := 0;
      m_freeCount := capacity;
    }

    /** The constructor's loop: every block points to the next one. */
    static method LinkBlocks(mem: array<Cell>, e: nat, capacity: nat)
      requires WORD <= e && 0 < capacity && mem.Length == Addr(e, capacity)
      modifies mem
      ensures FreeList(mem[..], e, capacity, 0, seq(capacity, i => i))
    {
      hide Word, Addr, FreeList, SameOutside;
      AddrZero(e);
      var p := 0;
      for i := 0 to capacity - 1
        invariant p == Addr(e, i)
        invariant Pointers(mem[..], e, i)
      {
        AddrNext(e, i);
        AddrOrder(e, i, capacity);
        ghost var m := mem[..];
        Store(mem, p, Ptr(p + e));
        PointersKept(m, mem[..], e, i);
        p := p + e;
      }
      AddrOrder(e, capacity - 1, capacity);
      ghost var m := mem[..];
      Store(mem, p, Ptr(NULL));
      PointersKept(m, mem[..], e, capacity - 1);
      FreeAll(mem[..], e, capacity);
    }

    /** `malloc`. */
    static method Malloc(n: nat) returns (mem: array?<Cell>)
      ensures mem != null ==> fresh(mem) && mem.Length == n
    {
      if * {
        mem := null;
      } else {
        mem := new Cell[n];
      }
    }

    /** `AllocRaw`: the first free block. */
    method AllocRaw() returns (ptr: int)
      requires Valid()
      modifies this`m_freeList, this`m_freeCount, this`free
      ensures Valid()
      ensures old(free) == [] ==> ptr == NULL && free == []
      ensures old(free) != [] ==> ptr == Addr(m_elemSize, old(free)[0]) && free == old(free)[1..]
    {
      if m_freeList == NULL {
        return NULL;
      }
      FreeTail(m_pool[..], m_elemSize, m_capacity, m_freeList, free);
      var node := m_freeList;
      m_freeList := m_pool[node].address;
      m_freeCount := m_freeCount - 1;
      free := free[1..];
      return node;
    }

    /** `FreeRaw` of block `b`, which is in use. */
    method FreeRaw(ptr: int, ghost b: nat)
      requires Valid() && (ptr != NULL ==> b < m_capacity && b !in free && ptr == Addr(m_elemSize, b))
      modifies this`m_freeList, this`m_freeCount, this`free, m_pool
      ensures Valid()
      ensures ptr == NULL ==> free == old(free) && (m_pool != null ==> m_pool[..] == old(m_pool[..]))
      ensures ptr != NULL ==> m_pool != null && free == [b] + old(free) && SameOutside(old(m_pool[..]), m_pool[..], ptr, WORD)
    {
      if ptr == NULL {
        return;
      }
      hide Word, Addr, FreeList, SameOutside;
      AddrOrder(m_elemSize, b, m_capacity);
      ghost var m := m_pool[..];
      Store(m_pool, ptr, Ptr(m_freeList));
      FreeCons(m, m_pool[..], m_elemSize, m_capacity, m_freeList, free, b);
      m_freeList := ptr;
      m_freeCount := m_freeCount + 1;
      free := [b] + free;
    }
  }
}
