/** Baselib/PackageQueue.cpp run by any number of threads.  A step is one lock region or one wait for the
    semaphore, except that the two halves of `Push`, which holds the lock over both, are two steps: a thread that
    waits for the semaphore can run between them.

    A block of the pool is handed out to be written, queued, handed out to be read, and given back.  A caller
    pushes a packet once, after it has written to it. */
module PackageQueues {

  import opened Gates
  import opened Seqs

  /** A block that is out: the thread that has it, and, for a reader, the message it was given. */
  datatype Writer = Writer(thread: nat)
  datatype Reader = Reader(thread: nat, message: string)

  datatype State = State(gate: Gate, capacity: nat, queue: seq<nat>, free: seq<nat>, text: map<nat, string>,
                         writing: map<nat, Writer>, reading: map<nat, Reader>,
                         pushed: seq<string>, taken: seq<string>)

  /** What has been written to a block. */
  function TextOf(text: map<nat, string>, b: nat): string {
    if b in text then text[b] else ""
  }

  datatype Step =
    | AllocWritePacket(t: nat, b: nat)
    | AllocFails(t: nat)
    | Write(t: nat, b: nat, data: string)
    | PushEnqueue(t: nat, b: nat)
    | PushPost(t: nat)
    | PopWait(t: nat)
    | PopTimeout(t: nat)
    | PopTake(t: nat)
    | Release(t: nat, b: nat)

  /** The thread is where the step begins, and has what the step needs; the pool hands out its first free block. */
  predicate Enabled(s: State, x: Step) {
    match x
    case AllocWritePacket(t, b) => CanLock(s.gate, t, Ready) && s.free != [] && b == s.free[0]
    case AllocFails(t) => CanLock(s.gate, t, Ready) && s.free == []
    case Write(t, b, _) => At(s.gate, t, Ready) && b in s.writing && s.writing[b].thread == t
    case PushEnqueue(t, b) => CanLock(s.gate, t, Ready) && b in s.writing && s.writing[b].thread == t
    case PushPost(t) => At(s.gate, t, Posting)
    case PopWait(t) => At(s.gate, t, Ready) && s.gate.sem > 0
    case PopTimeout(t) => At(s.gate, t, Ready)
    case PopTake(t) => CanLock(s.gate, t, Waited)
    case Release(t, b) => CanLock(s.gate, t, Ready) && b in s.reading && s.reading[b].thread == t
  }

  /** The step, for packets with room for `room` bytes. */
  function Next(s: State, x: Step, room: nat): State
    requires Enabled(s, x)
  {
    match x
    case AllocWritePacket(t, b) => Alloc(s, t, b)
    case AllocFails(_) => s
    case Write(t, b, data) => if |TextOf(s.text, b)| + |data| > room then s else s.(text := s.text[b := TextOf(s.text, b) + data])
    case PushEnqueue(t, b) => Enqueue(s, t, b)
    case PushPost(t) => s.(gate := Post(s.gate, t))
    case PopWait(t) => s.(gate := Pass(s.gate, t))
    case PopTimeout(_) => s
    case PopTake(t) => if PopsEmpty(s) then s.(gate := Leave(s.gate, t)) else Take(s, t, s.queue[0])
    case Release(t, b) => s.(free := [b] + s.free, reading := s.reading - {b})
  }

  function Alloc(s: State, t: nat, b: nat): State
    requires s.free != []
  {
    s.(free := s.free[1..], text := s.text[b := ""], writing := s.writing[b := Writer(t)])
  }

  function Enqueue(s: State, t: nat, b: nat): State
    requires CanLock(s.gate, t, Ready)
  {
    s.(gate := Enter(s.gate, t), queue := s.queue + [b], writing := s.writing - {b}, pushed := s.pushed + [TextOf(s.text, b)])
  }

  function Take(s: State, t: nat, b: nat): State
    requires CanLock(s.gate, t, Waited) && s.queue != []
  {
    s.(gate := Leave(s.gate, t), queue := s.queue[1..], reading := s.reading[b := Reader(t, TextOf(s.text, b))],
       taken := s.taken + [TextOf(s.text, b)])
  }

  /** `Pop` returns `POP_EMPTY`. */
  predicate PopsEmpty(s: State) {
    s.queue == []
  }

  /** `Init`, with all blocks free. */
  function Start(threads: nat, capacity: nat): State {
    State(Fresh(threads, 0), capacity, [], seq(capacity, i => i), map[], map[], map[], [], [])
  }

  // ---- What every step keeps ----

  function Texts(text: map<nat, string>, queue: seq<nat>): (r: seq<string>)
    ensures |r| == |queue|
  {
    seq(|queue|, i requires 0 <= i < |queue| => TextOf(text, queue[i]))
  }

  /** In how many places a block is. */
  function Places(s: State, b: nat): nat {
    (if b in s.free then 1 else 0) + (if b in s.queue then 1 else 0) + (if b in s.writing then 1 else 0) + (if b in s.reading then 1 else 0)
  }

  /** Every block is free, being written, queued or being read, and only one of these. */
  ghost predicate Owned(s: State) {
    && NoDup(s.free) && NoDup(s.queue)
    && |s.free| + |s.queue| + |s.writing| + |s.reading| == s.capacity
    && forall b: nat :: Places(s, b) == if b < s.capacity then 1 else 0
  }

  /** What has been pushed is what has been taken and then what is queued, in order; readers hold what they were
      given; and no packet is longer than its room. */
  ghost predicate InOrder(s: State, room: nat) {
    && s.pushed == s.taken + Texts(s.text, s.queue)
    && (forall b :: b in s.reading ==> TextOf(s.text, b) == s.reading[b].message)
    && forall b :: b in s.text ==> |s.text[b]| <= room
  }

  ghost predicate Inv(s: State, room: nat) {
    s.capacity <= MAX_COUNT && GateOk(s.gate, |s.queue|) && Owned(s) && InOrder(s, room)
  }

  lemma AllocKeeps(s: State, t: nat, room: nat)
    requires Inv(s, room) && s.free != []
    ensures Inv(Alloc(s, t, s.free[0]), room)
  {
    hide GateOk;
    var b, s' := s.free[0], Alloc(s, t, s.free[0]);
    assert b in s.free && Places(s, b) == 1;
    forall c: nat ensures Places(s', c) == Places(s, c) {
      assert c in s.free <==> c == b || c in s.free[1..];
    }
    assert Texts(s'.text, s'.queue) == Texts(s.text, s.queue);
  }

  lemma WriteKeeps(s: State, b: nat, data: string, room: nat)
    requires Inv(s, room) && b in s.writing && |TextOf(s.text, b)| + |data| <= room
    ensures Inv(s.(text := s.text[b := TextOf(s.text, b) + data]), room)
  {
    hide GateOk;
    var s' := s.(text := s.text[b := TextOf(s.text, b) + data]);
    assert Places(s, b) == 1;
    forall c: nat ensures Places(s', c) == Places(s, c) {}
    assert Texts(s'.text, s'.queue) == Texts(s.text, s.queue);
  }

  lemma EnqueueKeeps(s: State, t: nat, b: nat, room: nat)
    requires Inv(s, room) && b in s.writing && CanLock(s.gate, t, Ready)
    ensures Inv(Enqueue(s, t, b), room)
  {
    hide GateOk, Enter;
    var s' := Enqueue(s, t, b);
    assert Places(s, b) == 1;
    EnterOk(s.gate, |s.queue|, t);
    forall c: nat ensures Places(s', c) == Places(s, c) {
      assert c in s'.queue <==> c in s.queue || c == b;
    }
    assert Texts(s'.text, s'.queue) == Texts(s.text, s.queue) + [TextOf(s.text, b)];
  }

  /** A thread past the semaphore never finds the queue empty. */
  lemma TakeKeeps(s: State, t: nat, room: nat)
    requires Inv(s, room) && CanLock(s.gate, t, Waited)
    ensures !PopsEmpty(s) && Inv(Take(s, t, s.queue[0]), room)
  {
    hide GateOk, Leave;
    LeaveOk(s.gate, |s.queue|, t);
    var b, s' := s.queue[0], Take(s, t, s.queue[0]);
    assert b in s.queue && Places(s, b) == 1;
    forall c: nat ensures Places(s', c) == Places(s, c) {
      assert c in s.queue <==> c == b || c in s.queue[1..];
    }
    assert Texts(s.text, s.queue) == [TextOf(s.text, b)] + Texts(s.text, s'.queue);
  }

  lemma ReleaseKeeps(s: State, b: nat, room: nat)
    requires Inv(s, room) && b in s.reading
    ensures Inv(s.(free := [b] + s.free, reading := s.reading - {b}), room)
  {
    hide GateOk;
    var s' := s.(free := [b] + s.free, reading := s.reading - {b});
    assert Places(s, b) == 1;
    forall c: nat ensures Places(s', c) == Places(s, c) {
      assert c in s'.free <==> c == b || c in s.free;
    }
  }

  lemma StepKeeps(s: State, x: Step, room: nat)
    requires Inv(s, room) && Enabled(s, x)
    ensures Inv(Next(s, x, room), room)
  {
    hide Inv, Enqueue, Take, Alloc;
    match x
    case AllocWritePacket(t, b) => AllocKeeps(s, t, room);
    case AllocFails(_) =>
    case Write(t, b, data) => if |TextOf(s.text, b)| + |data| <= room { WriteKeeps(s, b, data, room); }
    case PushEnqueue(t, b) => EnqueueKeeps(s, t, b, room);
    case PushPost(t) => PostKeeps(s, t, room);
    case PopWait(t) => PassKeeps(s, t, room);
    case PopTimeout(_) =>
    case PopTake(t) => TakeKeeps(s, t, room);
    case Release(t, b) => ReleaseKeeps(s, b, room);
  }

  lemma PostKeeps(s: State, t: nat, room: nat)
    requires Inv(s, room) && At(s.gate, t, Posting)
    ensures Inv(s.(gate := Post(s.gate, t)), room)
  {
    hide GateOk, Post;
    PostOk(s.gate, |s.queue|, t);
    var s' := s.(gate := Post(s.gate, t));
    forall c: nat ensures Places(s', c) == Places(s, c) {}
  }

  lemma PassKeeps(s: State, t: nat, room: nat)
    requires Inv(s, room) && At(s.gate, t, Ready) && s.gate.sem > 0
    ensures Inv(s.(gate := Pass(s.gate, t)), room)
  {
    hide GateOk, Pass;
    PassOk(s.gate, |s.queue|, t);
    var s' := s.(gate := Pass(s.gate, t));
    forall c: nat ensures Places(s', c) == Places(s, c) {}
  }

  // ---- Runs ----

  /** The steps can be taken one after the other. */
  predicate CanRun(s: State, xs: seq<Step>, room: nat)
    decreases |xs|
  {
    xs == [] || (Enabled(s, xs[0]) && CanRun(Next(s, xs[0], room), xs[1..], room))
  }

  function After(s: State, xs: seq<Step>, room: nat): State
    requires CanRun(s, xs, room)
    decreases |xs|
  {
    if xs == [] then s else After(Next(s, xs[0], room), xs[1..], room)
  }

  lemma {:induction false} RunKeeps(s: State, xs: seq<Step>, room: nat)
    requires Inv(s, room) && CanRun(s, xs, room)
    ensures Inv(After(s, xs, room), room)
    decreases |xs|
  {
    hide Inv, Next;
    if xs != [] {
      StepKeeps(s, xs[0], room);
      RunKeeps(Next(s, xs[0], room), xs[1..], room);
    }
  }

  // ---- What the steps say ----

  /** What the steps have written to a block: the data, in order, of the writes to it since it was last handed out, but
      for those that found too little room left. */
  function Written(xs: seq<Step>, b: nat, room: nat): string
    decreases |xs|
  {
    if xs == [] then "" else
    var x, before := xs[|xs| - 1], Written(xs[..|xs| - 1], b, room);
    if x.AllocWritePacket? && x.b == b then ""
    else if x.Write? && x.b == b && |before| + |x.data| <= room then before + x.data
    else before
  }

  /** What the blocks held that the steps have pushed, in the order of the pushes. */
  function Pushes(xs: seq<Step>, room: nat): seq<string>
    decreases |xs|
  {
    if xs == [] then [] else
    var x, ys := xs[|xs| - 1], xs[..|xs| - 1];
    if x.PushEnqueue? then Pushes(ys, room) + [Written(ys, x.b, room)] else Pushes(ys, room)
  }

  /** How many packets the steps have popped. */
  function Pops(xs: seq<Step>): nat {
    if xs == [] then 0 else Pops(xs[..|xs| - 1]) + if xs[|xs| - 1].PopTake? then 1 else 0
  }

  lemma {:induction false} RunLast(s: State, xs: seq<Step>, x: Step, room: nat)
    requires CanRun(s, xs + [x], room)
    ensures CanRun(s, xs, room) && Enabled(After(s, xs, room), x) && After(s, xs + [x], room) == Next(After(s, xs, room), x, room)
    decreases |xs|
  {
    hide Enabled, Next;
    var ys := xs + [x];
    if xs == [] {
      assert ys[0] == x && ys[1..] == [];
    } else {
      assert ys[0] == xs[0] && ys[1..] == xs[1..] + [x];
      RunLast(Next(s, xs[0], room), xs[1..], x, room);
    }
  }

  /** The state holds what the steps say. */
  ghost predicate Told(s: State, xs: seq<Step>, room: nat) {
    (forall b: nat :: TextOf(s.text, b) == Written(xs, b, room)) && s.pushed == Pushes(xs, room) && |s.taken| == Pops(xs)
  }

  lemma ToldNext(s: State, ys: seq<Step>, x: Step, room: nat)
    requires Inv(s, room) && Enabled(s, x) && Told(s, ys, room)
    ensures Told(Next(s, x, room), ys + [x], room)
  {
    hide Inv, Enter, Leave, Post, Pass, Written, Pushes, Pops;
    var xs, s' := ys + [x], Next(s, x, room);
    assert xs[..|xs| - 1] == ys && xs[|xs| - 1] == x;
    forall b: nat ensures TextOf(s'.text, b) == Written(xs, b, room) { WrittenLast(ys, x, b, room); }
    PushesLast(ys, x, room);
    if x.PopTake? { TakeKeeps(s, x.t, room); }
  }

  lemma WrittenLast(ys: seq<Step>, x: Step, b: nat, room: nat)
    ensures Written(ys + [x], b, room) ==
            if x.AllocWritePacket? && x.b == b then ""
            else if x.Write? && x.b == b && |Written(ys, b, room)| + |x.data| <= room then Written(ys, b, room) + x.data
            else Written(ys, b, room)
  {
    assert (ys + [x])[..|ys + [x]| - 1] == ys;
  }

  lemma PushesLast(ys: seq<Step>, x: Step, room: nat)
    ensures Pushes(ys + [x], room) == if x.PushEnqueue? then Pushes(ys, room) + [Written(ys, x.b, room)] else Pushes(ys, room)
    ensures Pops(ys + [x]) == Pops(ys) + if x.PopTake? then 1 else 0
  {
    assert (ys + [x])[..|ys + [x]| - 1] == ys;
  }

  lemma {:induction false} RunTold(threads: nat, capacity: nat, xs: seq<Step>, room: nat)
    requires capacity <= MAX_COUNT && CanRun(Start(threads, capacity), xs, room)
    ensures Told(After(Start(threads, capacity), xs, room), xs, room)
    decreases |xs|
  {
    hide Inv, Next, Enabled, Told;
    var s0 := Start(threads, capacity);
    if xs == [] {
      assert Told(s0, [], room) by { NothingTold(threads, capacity, room); }
    } else {
      var ys, x := xs[..|xs| - 1], xs[|xs| - 1];
      assert xs == ys + [x];
      RunLast(s0, ys, x, room);
      RunTold(threads, capacity, ys, room);
      StartOk(threads, capacity, room);
      RunKeeps(s0, ys, room);
      ToldNext(After(s0, ys, room), ys, x, room);
    }
  }

  lemma NothingTold(threads: nat, capacity: nat, room: nat)
    ensures Told(Start(threads, capacity), [], room)
  {
  }

  /** In every interleaving a block holds the data of the accepted writes since it was handed out, in order; the packets
      taken and then those queued are, in the order of the pushes, what the blocks held when they were pushed, as many
      taken as there have been pops; and a reader reads what was written. */
  lemma PacketsRead(threads: nat, capacity: nat, xs: seq<Step>, room: nat)
    requires capacity <= MAX_COUNT && CanRun(Start(threads, capacity), xs, room)
    ensures var s := After(Start(threads, capacity), xs, room);
            && (forall b: nat :: TextOf(s.text, b) == Written(xs, b, room))
            && (forall b :: b in s.reading ==> s.reading[b].message == Written(xs, b, room))
            && s.pushed == Pushes(xs, room) && Pops(xs) <= |Pushes(xs, room)| && s.taken == Pushes(xs, room)[..Pops(xs)]
            && Texts(s.text, s.queue) == Pushes(xs, room)[Pops(xs)..]
  {
    hide Written, Pushes, Pops;
    RunTold(threads, capacity, xs, room);
    StartOk(threads, capacity, room);
    RunKeeps(Start(threads, capacity), xs, room);
    var s := After(Start(threads, capacity), xs, room);
    assert InOrder(s, room);
    assert s.pushed[..|s.taken|] == s.taken && s.pushed[|s.taken|..] == Texts(s.text, s.queue);
  }

  /** In every interleaving: the semaphore counts the queue but for the pops on their way to the lock and a push
      on its way to post; `Pop` never returns `POP_EMPTY`; a block is in one place; packets are taken in the order
      in which they were pushed; and when no call is under way the semaphore counts the queue. */
  lemma EveryRun(threads: nat, capacity: nat, xs: seq<Step>, room: nat)
    requires capacity <= MAX_COUNT && CanRun(Start(threads, capacity), xs, room)
    ensures var s := After(Start(threads, capacity), xs, room);
            && |s.queue| == s.gate.sem + Count(s.gate.pcs, Waited) + Count(s.gate.pcs, Posting)
            && (forall t :: CanLock(s.gate, t, Waited) ==> !PopsEmpty(s))
            && Owned(s) && s.taken + Texts(s.text, s.queue) == s.pushed
            && (forall b :: b in s.reading ==> TextOf(s.text, b) == s.reading[b].message)
            && ((forall t :: 0 <= t < |s.gate.pcs| ==> s.gate.pcs[t] == Ready) ==> s.gate.sem == |s.queue|)
  {
    StartOk(threads, capacity, room);
    RunKeeps(Start(threads, capacity), xs, room);
    var s := After(Start(threads, capacity), xs, room);
    forall t | CanLock(s.gate, t, Waited) ensures !PopsEmpty(s) { TakeKeeps(s, t, room); }
    if forall t :: 0 <= t < |s.gate.pcs| ==> s.gate.pcs[t] == Ready { AtRest(s.gate, |s.queue|); }
  }

  lemma StartOk(threads: nat, capacity: nat, room: nat)
    requires capacity <= MAX_COUNT
    ensures Inv(Start(threads, capacity), room)
  {
    hide GateOk, Fresh;
    FreshOk(threads, 0);
    var s := Start(threads, capacity);
    forall b: nat ensures Places(s, b) == if b < capacity then 1 else 0 {
      if b < capacity { assert s.free[b] == b; }
    }
  }
}
