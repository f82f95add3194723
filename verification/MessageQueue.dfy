/** Baselib/MessageQueue.cpp: a bounded queue of byte strings, each kept in a block of a `FixedMemoryPool` behind
    a header of two words.  Each method runs under the lock of the queue, so it is one step. */
module MessageQueues {

  import opened Memory
  import opened FixedMemoryPools
  import opened Seqs

  const MPOP_OK: int := 0
  const MPOP_EMPTY: int := 1

  /** `sizeof(MQPacketHeader)`: the length of the message, and the room there is. */
  const HEADER: nat := 2 * WORD

  /** The block at `a` holds the message. */
  predicate Holds(mem: Cells, a: int, msg: string) {
    && Word(mem, a, Size(|msg|)) && a + HEADER + |msg| <= |mem|
    && forall k :: 0 <= k < |msg| ==> mem[a + HEADER + k] == Byte(msg[k])
  }

  /** The blocks of the queue hold its messages. */
  predicate Queued(mem: Cells, e: nat, queue: seq<int>, blocks: seq<nat>, messages: seq<string>) {
    && |queue| == |blocks| == |messages|
    && forall i :: 0 <= i < |queue| ==> queue[i] == Addr(e, blocks[i]) && Holds(mem, queue[i], messages[i]) && HEADER + |messages[i]| <= e
  }

  /** Every block is either queued or free. */
  predicate Partition(blocks: seq<nat>, free: seq<nat>, capacity: nat) {
    && NoDup(blocks) && NoDup(free) && |blocks| + |free| == capacity
    && (forall i :: 0 <= i < |blocks| ==> blocks[i] < capacity && blocks[i] !in free)
    && forall i :: 0 <= i < |free| ==> free[i] < capacity
  }

  lemma HoldsFrame(m: Cells, m': Cells, a: int, n: nat, b: int, msg: string)
    requires Holds(m, b, msg) && SameOutside(m, m', a, n) && (b + HEADER + |msg| <= a || a + n <= b)
    ensures Holds(m', b, msg)
  {
    WordFrame(m, m', a, n, b, Size(|msg|));
  }

  /** Writing inside a block leaves the messages of other blocks alone. */
  lemma QueuedFrame(m: Cells, m': Cells, e: nat, queue: seq<int>, blocks: seq<nat>, messages: seq<string>, b: nat, a: int, n: nat)
    requires Queued(m, e, queue, blocks, messages) && b !in blocks
    requires Addr(e, b) <= a && a + n <= Addr(e, b) + e && SameOutside(m, m', a, n)
    ensures Queued(m', e, queue, blocks, messages)
  {
    hide Holds, Addr, SameOutside;
    forall i | 0 <= i < |queue| ensures Holds(m', queue[i], messages[i]) {
      if blocks[i] < b { AddrOrder(e, blocks[i], b); } else { AddrOrder(e, b, blocks[i]); }
      HoldsFrame(m, m', a, n, queue[i], messages[i]);
    }
  }

  lemma QueuedTail(m: Cells, e: nat, queue: seq<int>, blocks: seq<nat>, messages: seq<string>)
    requires Queued(m, e, queue, blocks, messages) && queue != []
    ensures Queued(m, e, queue[1..], blocks[1..], messages[1..])
  {
    hide Holds, Addr;
  }

  lemma QueuedPush(m: Cells, e: nat, queue: seq<int>, blocks: seq<nat>, messages: seq<string>, b: nat, msg: string)
    requires Queued(m, e, queue, blocks, messages) && Holds(m, Addr(e, b), msg) && HEADER + |msg| <= e
    ensures Queued(m, e, queue + [Addr(e, b)], blocks + [b], messages + [msg])
  {
    hide Holds, Addr;
  }

  /** A free block is queued. */
  lemma PartitionPush(blocks: seq<nat>, free: seq<nat>, capacity: nat)
    requires Partition(blocks, free, capacity) && free != []
    ensures free[0] !in blocks && free[0] !in free[1..] && free[0] < capacity && Partition(blocks + [free[0]], free[1..], capacity)
  {
    var bs, fs := blocks + [free[0]], free[1..];
    assert free[0] in free;
    forall i | 0 <= i < |bs| ensures bs[i] < capacity && bs[i] !in fs {
      if i < |blocks| { assert bs[i] == blocks[i]; }
    }
    forall i, j | 0 <= i < j < |bs| ensures bs[i] != bs[j] { assert bs[i] == blocks[i]; }
  }

  /** A queued block is set free. */
  lemma PartitionPop(blocks: seq<nat>, free: seq<nat>, capacity: nat)
    requires Partition(blocks, free, capacity) && blocks != []
    ensures blocks[0] !in blocks[1..] && blocks[0] !in free && blocks[0] < capacity && Partition(blocks[1..], [blocks[0]] + free, capacity)
  {
    var bs, fs := blocks[1..], [blocks[0]] + free;
    forall i | 0 <= i < |bs| ensures bs[i] < capacity && bs[i] !in fs { assert bs[i] == blocks[i + 1]; }
    forall i, j | 0 <= i < j < |fs| ensures fs[i] != fs[j] { assert fs[j] == free[j - 1]; }
  }

  class MessageQueue {
    var m_queue: seq<int>
    var m_pool: FixedMemoryPool?
    /** The blocks of the queue, and the messages in them. */
    ghost var blocks: seq<nat>
    ghost var messages: seq<string>

    ghost predicate Valid()
      reads this, m_pool, Block()
    {
      if m_pool == null then m_queue == [] && blocks == [] && messages == []
      else
        && m_pool.Valid() && HEADER <= m_pool.m_elemSize
        && (m_pool.m_pool == null ==> m_queue == [] && blocks == [] && messages == [])
        && (m_pool.m_pool != null ==> Queued(m_pool.m_pool[..], m_pool.m_elemSize, m_queue, blocks, messages))
        && Partition(blocks, m_pool.free, m_pool.m_capacity)
    }

    /** The memory of the pool. */
    ghost function Block(): set<object>
      reads this, m_pool
    {
      if m_pool == null || m_pool.m_pool == null then {} else {m_pool.m_pool}
    }

    constructor ()
      ensures Valid() && m_pool == null && messages == []
    {
      m_queue := [];
      m_pool := null;
      blocks := [];
      messages := [];
    }

    /** `Init`; a second call does nothing. */
    method Init(maxPacketPayload: nat, maxPackets: nat) returns (ret: int)
      requires Valid() && 0 < maxPackets
      modifies this`m_pool
      ensures Valid() && (ret == 0 <==> m_pool != null)
      ensures old(m_pool) != null ==> m_pool == old(m_pool)
      ensures old(m_pool) == null && ret == 0 ==> fresh(m_pool) && m_pool.m_elemSize == AlignUp(HEADER + maxPacketPayload)
                                                  && (m_pool.m_capacity == maxPackets || m_pool.m_capacity == 0)
    {
      if m_pool != null {
        return 0;
      }
      if * {
        return 1;
      }
      m_pool := new FixedMemoryPool(HEADER + maxPacketPayload, maxPackets);
      return 0;
    }

    /** The longest message. */
    ghost function MaxLength(): int
      requires m_pool != null
      reads this, m_pool
    {
      m_pool.m_elemSize - HEADER
    }

    /** `Push` succeeds just when the message fits and fewer messages are queued than there are blocks. */
    method Push(data: string) returns (ok: bool)
      requires Valid() && m_pool != null
      modifies this`m_queue, this`blocks, this`messages, m_pool, Block()
      ensures Valid() && m_pool == old(m_pool) && m_pool.m_capacity == old(m_pool.m_capacity) && MaxLength() == old(MaxLength())
      ensures ok <==> |data| <= MaxLength() && |old(messages)| < m_pool.m_capacity
      ensures messages == if ok then old(messages) + [data] else old(messages)
    {
      hide Addr, FreeList, Queued, Partition;
      ghost var free := m_pool.free;
      PartitionFull(blocks, free, m_pool.m_capacity);
      assert |blocks| == |messages| by { QueuedSizes(); }
      if |data| > m_pool.m_elemSize - HEADER {
        return false;
      }
      var buf := m_pool.AllocRaw();
      if buf == NULL {
        return false;
      }
      ghost var b := free[0];
      PartitionPush(blocks, free, m_pool.m_capacity);
      WriteMessage(buf, b, data);
      QueuedPush(m_pool.m_pool[..], m_pool.m_elemSize, m_queue, blocks, messages, b, data);
      m_queue := m_queue + [buf];
      blocks, messages := blocks + [b], messages + [data];
      return true;
    }

    lemma QueuedSizes()
      requires Valid()
      ensures |m_queue| == |blocks| == |messages|
    {
      hide Holds;
    }

    /** The part of `Push` that fills the block. */
    method WriteMessage(buf: nat, ghost b: nat, data: string)
      requires m_pool != null && m_pool.Valid() && m_pool.m_pool != null && b < m_pool.m_capacity && b !in m_pool.free && b !in blocks
      requires buf == Addr(m_pool.m_elemSize, b) && HEADER + |data| <= m_pool.m_elemSize
      requires Queued(m_pool.m_pool[..], m_pool.m_elemSize, m_queue, blocks, messages)
      modifies Block()
      ensures m_pool.Valid() && Holds(m_pool.m_pool[..], buf, data)
      ensures Queued(m_pool.m_pool[..], m_pool.m_elemSize, m_queue, blocks, messages)
    {
      hide Addr, FreeList, Queued, SameOutside, Holds;
      ghost var m := m_pool.m_pool[..];
      AddrOrder(m_pool.m_elemSize, b, m_pool.m_capacity);
      Fill(m_pool.m_pool, buf, data, m_pool.m_elemSize - HEADER);
      QueuedFrame(m, m_pool.m_pool[..], m_pool.m_elemSize, m_queue, blocks, messages, b, buf, HEADER + |data|);
      FreeFrame(m, m_pool.m_pool[..], m_pool.m_elemSize, m_pool.m_capacity, m_pool.m_freeList, m_pool.free, b, buf, HEADER + |data|);
    }

    static method Fill(mem: array<Cell>, buf: nat, data: string, capacity: nat)
      requires buf + HEADER + |data| <= mem.Length
      modifies mem
      ensures Holds(mem[..], buf, data) && SameOutside(old(mem[..]), mem[..], buf, HEADER + |data|)
    {
      forall k | 0 <= k < |data| { mem[buf + HEADER + k] := Byte(data[k]); }
      Store(mem, buf, Size(|data|));
      Store(mem, buf + WORD, Size(capacity));
    }

    /** `Front`: where the oldest message is, and how long it is. */
    method Front() returns (ptr: int, len: nat)
      requires Valid()
      ensures messages == [] ==> ptr == NULL && len == 0
      ensures messages != [] ==> m_pool != null && m_pool.m_pool != null && len == |messages[0]| && 0 <= ptr && ptr + len <= m_pool.m_pool.Length
                                 && forall k :: 0 <= k < len ==> m_pool.m_pool[ptr + k] == Byte(messages[0][k])
    {
      QueuedSizes();
      if m_queue == [] {
        return NULL, 0;
      }
      var raw := m_queue[0];
      assert Holds(m_pool.m_pool[..], raw, messages[0]);
      return raw + HEADER, m_pool.m_pool[raw].count;
    }

    method IsEmpty() returns (empty: bool)
      requires Valid()
      ensures empty == (messages == [])
    {
      QueuedSizes();
      return m_queue == [];
    }

    method GetQueueSize() returns (n: nat)
      requires Valid()
      ensures n == |messages|
    {
      QueuedSizes();
      return |m_queue|;
    }

    /** `Pop` takes the oldest message out. */
    method Pop() returns (ret: int)
      requires Valid()
      modifies this`m_queue, this`blocks, this`messages, m_pool, Block()
      ensures Valid() && m_pool == old(m_pool) && (m_pool != null ==> m_pool.m_capacity == old(m_pool.m_capacity) && MaxLength() == old(MaxLength()))
      ensures ret == if old(messages) == [] then MPOP_EMPTY else MPOP_OK
      ensures messages == if old(messages) == [] then [] else old(messages)[1..]
    {
      QueuedSizes();
      if m_queue == [] {
        return MPOP_EMPTY;
      }
      TakeFront();
      return MPOP_OK;
    }

    /** The front block leaves the queue and is given back to the pool. */
    method TakeFront()
      requires Valid() && m_queue != []
      modifies this`m_queue, this`blocks, this`messages, m_pool, Block()
      ensures Valid() && m_pool == old(m_pool) && m_pool != null && m_pool.m_capacity == old(m_pool.m_capacity) && MaxLength() == old(MaxLength())
      ensures |old(messages)| > 0 && messages == old(messages)[1..] && m_queue == old(m_queue)[1..] && Block() == old(Block())
    {
      hide Addr, FreeList, Partition, Holds, SameOutside;
      QueuedSizes();
      ghost var b, m := blocks[0], m_pool.m_pool[..];
      PartitionPop(blocks, m_pool.free, m_pool.m_capacity);
      QueuedTail(m, m_pool.m_elemSize, m_queue, blocks, messages);
      var buf := m_queue[0];
      m_queue := m_queue[1..];
      blocks, messages := blocks[1..], messages[1..];
      m_pool.FreeRaw(buf, b);
      QueuedFrame(m, m_pool.m_pool[..], m_pool.m_elemSize, m_queue, blocks, messages, b, buf, WORD);
    }

    /** `Clear` takes every message out. */
    method Clear()
      requires Valid()
      modifies this`m_queue, this`blocks, this`messages, m_pool, Block()
      ensures Valid() && m_pool == old(m_pool) && (m_pool != null ==> m_pool.m_capacity == old(m_pool.m_capacity) && MaxLength() == old(MaxLength()))
      ensures messages == [] && (m_pool != null ==> m_pool.m_freeCount == m_pool.m_capacity)
    {
      hide Queued, Partition, FreeList;
      QueuedSizes();
      while m_queue != []
        invariant Valid() && m_pool == old(m_pool) && Block() == old(Block())
        invariant m_pool != null ==> m_pool.m_capacity == old(m_pool.m_capacity) && MaxLength() == old(MaxLength())
        decreases |m_queue|
      {
        TakeFront();
      }
      QueuedSizes();
      if m_pool != null { AllFree(blocks, m_pool.free, m_pool.m_capacity); }
    }
  }

  lemma AllFree(blocks: seq<nat>, free: seq<nat>, capacity: nat)
    requires Partition(blocks, free, capacity) && blocks == []
    ensures |free| == capacity
  {
  }

  /** No block is free just when as many messages are queued as there are blocks. */
  lemma PartitionFull(blocks: seq<nat>, free: seq<nat>, capacity: nat)
    requires Partition(blocks, free, capacity)
    ensures free == [] <==> |blocks| == capacity
    ensures |blocks| <= capacity
  {
  }
}
