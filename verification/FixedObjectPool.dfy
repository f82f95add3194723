/** include/tool/FixedObjectPool.h run by any number of threads: the same semaphore and lock as in `PackageQueue`,
    but the semaphore is created with the number of objects, and the object put back last is taken first. */
module FixedObjectPools {

  import opened Gates
  import opened Seqs

  /** Objects are numbered; `held` maps the ones in use to the thread that has them. */
  datatype State = State(gate: Gate, maxCount: nat, freeList: seq<nat>, held: map<nat, nat>)

  datatype Step =
    | AcquireWait(t: nat)
    | AcquireTimeout(t: nat)
    | AcquireTake(t: nat)
    | ReleaseStore(t: nat, obj: nat)
    | ReleasePost(t: nat)

  predicate Enabled(s: State, x: Step) {
    match x
    case AcquireWait(t) => At(s.gate, t, Ready) && s.gate.sem > 0
    case AcquireTimeout(t) => At(s.gate, t, Ready)
    case AcquireTake(t) => CanLock(s.gate, t, Waited)
    case ReleaseStore(t, obj) => CanLock(s.gate, t, Ready) && obj in s.held && s.held[obj] == t
    case ReleasePost(t) => At(s.gate, t, Posting)
  }

  /** `back()` and `pop_back()` of an empty vector mean nothing; `Broken` stands for that. */
  datatype Result = Went(state: State) | Broken

  function Next(s: State, x: Step): Result
    requires Enabled(s, x)
  {
    match x
    case AcquireWait(t) => Went(s.(gate := Pass(s.gate, t)))
    case AcquireTimeout(_) => Went(s)
    case AcquireTake(t) => if s.freeList == [] then Broken else Went(Take(s, t))
    case ReleaseStore(t, obj) => Went(Store(s, t, obj))
    case ReleasePost(t) => Went(s.(gate := Post(s.gate, t)))
  }

  function Take(s: State, t: nat): State
    requires CanLock(s.gate, t, Waited) && s.freeList != []
  {
    var n := |s.freeList| - 1;
    s.(gate := Leave(s.gate, t), freeList := s.freeList[..n], held := s.held[s.freeList[n] := t])
  }

  function Store(s: State, t: nat, obj: nat): State
    requires CanLock(s.gate, t, Ready)
  {
    s.(gate := Enter(s.gate, t), freeList := s.freeList + [obj], held := s.held - {obj})
  }

  /** The constructor. */
  function Start(threads: nat, maxCount: nat): State {
    State(Fresh(threads, maxCount), maxCount, seq(maxCount, i => i), map[])
  }

  function Places(s: State, obj: nat): nat {
    (if obj in s.freeList then 1 else 0) + (if obj in s.held then 1 else 0)
  }

  /** Every object is free or in use, and not both. */
  ghost predicate Inv(s: State) {
    && s.maxCount <= MAX_COUNT && GateOk(s.gate, |s.freeList|) && NoDup(s.freeList)
    && |s.freeList| + |s.held| == s.maxCount
    && forall obj: nat :: Places(s, obj) == if obj < s.maxCount then 1 else 0
  }

  lemma TakeKeeps(s: State, t: nat)
    requires Inv(s) && CanLock(s.gate, t, Waited)
    ensures s.freeList != [] && Inv(Take(s, t))
  {
    hide GateOk, Leave;
    LeaveOk(s.gate, |s.freeList|, t);
    var n := |s.freeList| - 1;
    var b, s' := s.freeList[n], Take(s, t);
    assert b in s.freeList && Places(s, b) == 1;
    forall c: nat ensures Places(s', c) == Places(s, c) {
      assert c in s.freeList <==> c == b || c in s.freeList[..n];
    }
  }

  lemma StoreKeeps(s: State, t: nat, obj: nat)
    requires Inv(s) && CanLock(s.gate, t, Ready) && obj in s.held
    ensures Inv(Store(s, t, obj))
  {
    hide GateOk, Enter;
    var s' := Store(s, t, obj);
    assert Places(s, obj) == 1;
    EnterOk(s.gate, |s.freeList|, t);
    forall c: nat ensures Places(s', c) == Places(s, c) {
      assert c in s'.freeList <==> c in s.freeList || c == obj;
    }
  }

  lemma GateKeeps(s: State, g: Gate)
    requires Inv(s) && GateOk(g, |s.freeList|)
    ensures Inv(s.(gate := g))
  {
    hide GateOk;
    var s' := s.(gate := g);
    forall c: nat ensures Places(s', c) == Places(s, c) {}
  }

  /** No step takes from an empty list. */
  lemma StepKeeps(s: State, x: Step)
    requires Inv(s) && Enabled(s, x)
    ensures Next(s, x).Went? && Inv(Next(s, x).state)
  {
    hide Take, Store, Pass, Post;
    match x
    case AcquireWait(t) => PassOk(s.gate, |s.freeList|, t); GateKeeps(s, Pass(s.gate, t));
    case AcquireTimeout(_) =>
    case AcquireTake(t) => TakeKeeps(s, t);
    case ReleaseStore(t, obj) => StoreKeeps(s, t, obj);
    case ReleasePost(t) => PostOk(s.gate, |s.freeList|, t); GateKeeps(s, Post(s.gate, t));
  }

  /** The steps can be taken one after the other, from each state that is not broken. */
  predicate CanRun(s: State, xs: seq<Step>)
    decreases |xs|
  {
    xs == [] || (Enabled(s, xs[0]) && (Next(s, xs[0]).Went? ==> CanRun(Next(s, xs[0]).state, xs[1..])))
  }

  function After(s: State, xs: seq<Step>): Result
    requires CanRun(s, xs)
    decreases |xs|
  {
    if xs == [] then Went(s)
    else if Next(s, xs[0]).Went? then After(Next(s, xs[0]).state, xs[1..])
    else Broken
  }

  lemma {:induction false} RunKeeps(s: State, xs: seq<Step>)
    requires Inv(s) && CanRun(s, xs)
    ensures After(s, xs).Went? && Inv(After(s, xs).state)
    decreases |xs|
  {
    hide Inv, Next;
    if xs != [] {
      StepKeeps(s, xs[0]);
      RunKeeps(Next(s, xs[0]).state, xs[1..]);
    }
  }

  /** In every interleaving no object is taken from an empty list, every object is free or in use, and a free
      object is counted by the semaphore unless a thread past it is about to take one, or has stored one and is
      about to post. */
  lemma EveryRun(threads: nat, maxCount: nat, xs: seq<Step>)
    requires maxCount <= MAX_COUNT && CanRun(Start(threads, maxCount), xs)
    ensures After(Start(threads, maxCount), xs).Went?
    ensures var s := After(Start(threads, maxCount), xs).state;
            && |s.freeList| == s.gate.sem + Count(s.gate.pcs, Waited) + Count(s.gate.pcs, Posting)
            && |s.freeList| + |s.held| == maxCount && NoDup(s.freeList)
            && forall obj: nat :: Places(s, obj) == if obj < maxCount then 1 else 0
  {
    hide GateOk, Fresh;
    FreshOk(threads, maxCount);
    var s := Start(threads, maxCount);
    forall b: nat ensures Places(s, b) == if b < maxCount then 1 else 0 {
      if b < maxCount { assert s.freeList[b] == b; }
    }
    RunKeeps(s, xs);
    RunCount(s, xs);
    GateCount(After(s, xs).state);
  }

  lemma {:induction false} RunCount(s: State, xs: seq<Step>)
    requires CanRun(s, xs)
    ensures After(s, xs).Went? ==> After(s, xs).state.maxCount == s.maxCount
    decreases |xs|
  {
    if xs != [] && Next(s, xs[0]).Went? { RunCount(Next(s, xs[0]).state, xs[1..]); }
  }

  lemma GateCount(s: State)
    requires Inv(s)
    ensures |s.freeList| == s.gate.sem + Count(s.gate.pcs, Waited) + Count(s.gate.pcs, Posting)
  {
  }
}
