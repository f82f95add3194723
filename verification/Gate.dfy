/** A store of items behind a semaphore and a lock, as `PackageQueue` and `FixedObjectPool` use them.

    To put an item in, a thread takes the lock, stores the item, posts the semaphore and gives the lock back.
    To take one out, it waits for the semaphore first and takes the lock afterwards, so another thread may run
    between the two.  Any number of threads run, and any of them may take the next step. */
module Gates {

  /** Where a thread is: outside; holding the lock, its item stored but not posted; or past the semaphore,
      not yet at the lock. */
  datatype Pc = Ready | Posting | Waited

  datatype Gate = Gate(pcs: seq<Pc>, lock: int, sem: nat)

  /** No thread holds the lock. */
  const FREE: int := -1
  /** The largest count the semaphore is created with; posting at that count has no effect. */
  const MAX_COUNT: nat := 0x7fff_ffff

  predicate At(g: Gate, t: nat, pc: Pc) {
    t < |g.pcs| && g.pcs[t] == pc
  }

  predicate CanLock(g: Gate, t: nat, pc: Pc) {
    At(g, t, pc) && g.lock == FREE
  }

  /** The lock is taken; an item is stored in this step. */
  function Enter(g: Gate, t: nat): Gate
    requires CanLock(g, t, Ready)
  {
    Gate(g.pcs[t := Posting], t, g.sem)
  }

  /** `Post`, and the lock is given back. */
  function Post(g: Gate, t: nat): Gate
    requires At(g, t, Posting)
  {
    Gate(g.pcs[t := Ready], FREE, if g.sem < MAX_COUNT then g.sem + 1 else g.sem)
  }

  /** `Wait` succeeds. */
  function Pass(g: Gate, t: nat): Gate
    requires At(g, t, Ready) && g.sem > 0
  {
    Gate(g.pcs[t := Waited], g.lock, g.sem - 1)
  }

  /** The thread has had the lock; an item is taken in this step. */
  function Leave(g: Gate, t: nat): Gate
    requires CanLock(g, t, Waited)
  {
    Gate(g.pcs[t := Ready], g.lock, g.sem)
  }

  function Count(pcs: seq<Pc>, pc: Pc): nat {
    if pcs == [] then 0 else (if pcs[0] == pc then 1 else 0) + Count(pcs[1..], pc)
  }

  /** The semaphore counts the items that no thread past it is about to take, but for one that is stored and
      not yet posted; only the thread that holds the lock can be between the two. */
  predicate GateOk(g: Gate, items: nat) {
    && items == g.sem + Count(g.pcs, Waited) + Count(g.pcs, Posting)
    && items <= MAX_COUNT && FREE <= g.lock
    && forall t :: 0 <= t < |g.pcs| ==> (g.pcs[t] == Posting <==> t == g.lock)
  }

  lemma {:induction false} CountUpdate(pcs: seq<Pc>, t: nat, q: Pc, pc: Pc)
    requires t < |pcs|
    ensures Count(pcs[t := q], pc) + (if pcs[t] == pc then 1 else 0) == Count(pcs, pc) + (if q == pc then 1 else 0)
  {
    if t == 0 {
      assert pcs[t := q][1..] == pcs[1..];
    } else {
      assert pcs[t := q][1..] == pcs[1..][t - 1 := q];
      CountUpdate(pcs[1..], t - 1, q, pc);
    }
  }

  lemma {:induction false} CountNone(pcs: seq<Pc>, pc: Pc)
    ensures Count(pcs, pc) == 0 <==> forall t :: 0 <= t < |pcs| ==> pcs[t] != pc
  {
    if pcs != [] {
      CountNone(pcs[1..], pc);
      assert forall t :: 0 < t < |pcs| ==> pcs[t] == pcs[1..][t - 1];
      assert forall t :: 0 <= t < |pcs| - 1 ==> pcs[1..][t] == pcs[t + 1];
    }
  }

  /** Both counts after a thread has moved on. */
  lemma CountMoved(g: Gate, t: nat, q: Pc)
    requires t < |g.pcs|
    ensures Count(g.pcs[t := q], Waited) == Count(g.pcs, Waited) - (if g.pcs[t] == Waited then 1 else 0) + (if q == Waited then 1 else 0)
    ensures Count(g.pcs[t := q], Posting) == Count(g.pcs, Posting) - (if g.pcs[t] == Posting then 1 else 0) + (if q == Posting then 1 else 0)
  {
    CountUpdate(g.pcs, t, q, Waited);
    CountUpdate(g.pcs, t, q, Posting);
  }

  lemma EnterOk(g: Gate, items: nat, t: nat)
    requires GateOk(g, items) && CanLock(g, t, Ready) && items < MAX_COUNT
    ensures GateOk(Enter(g, t), items + 1)
  {
    hide Count;
    CountMoved(g, t, Posting);
  }

  /** Posting always takes effect. */
  lemma PostOk(g: Gate, items: nat, t: nat)
    requires GateOk(g, items) && At(g, t, Posting)
    ensures g.sem < MAX_COUNT && GateOk(Post(g, t), items)
  {
    hide Count;
    CountMoved(g, t, Ready);
  }

  lemma PassOk(g: Gate, items: nat, t: nat)
    requires GateOk(g, items) && At(g, t, Ready) && g.sem > 0
    ensures GateOk(Pass(g, t), items)
  {
    hide Count;
    CountMoved(g, t, Waited);
  }

  /** Who is past the semaphore finds an item. */
  lemma LeaveOk(g: Gate, items: nat, t: nat)
    requires GateOk(g, items) && CanLock(g, t, Waited)
    ensures items > 0 && GateOk(Leave(g, t), items - 1)
  {
    hide Count;
    CountMoved(g, t, Ready);
  }

  /** No wakeup is lost: when no thread is in the middle of a call, the semaphore counts the items. */
  lemma AtRest(g: Gate, items: nat)
    requires GateOk(g, items) && forall t :: 0 <= t < |g.pcs| ==> g.pcs[t] == Ready
    ensures g.sem == items
  {
    CountNone(g.pcs, Waited);
    CountNone(g.pcs, Posting);
  }

  /** All threads outside, and the semaphore created with the number of items. */
  function Fresh(threads: nat, items: nat): Gate {
    Gate(seq(threads, _ => Ready), FREE, items)
  }

  lemma FreshOk(threads: nat, items: nat)
    requires items <= MAX_COUNT
    ensures GateOk(Fresh(threads, items), items)
  {
    CountNone(Fresh(threads, items).pcs, Waited);
    CountNone(Fresh(threads, items).pcs, Posting);
  }
}
