/** The life of an acceptor (Netlib/TcpAcceptor.cpp with Netlib/TcpService.cpp).  `Initialize` posts its accepts while
    the first of them complete; completions run `OnCompleteOperation` on any number of threads while the service may
    stop; a step is one access to what they share.  The acceptor deletes itself when its pending count falls to zero. */
module TcpAcceptors {

  /** The next access of the callback that releases the acceptor: it shuts the socket down and closes it, tells the
      service, and deletes the acceptor. */
  datatype Farewell = ShutSocket | CloseSocket | ClearSocket | Tell | Delete

  /** The next access of `PostCancel` to the acceptor. */
  datatype Cancel = ReadService | AskSocket | CancelShut | CancelClose | CancelClear | Returned

  /** Where a completion callback is.  `late` says that it began after `mMarkedStop`; `net` is how much it has
      changed the pending count so far. */
  datatype Pc =
    | Idle
    | Started(late: bool, net: int)
    | Checked(late: bool, net: int)
    | Allocated(late: bool, net: int)
    | Counted(late: bool, net: int)
    | Undoing(late: bool, net: int)
    | Posted(late: bool, net: int)
    | Releasing(next: Farewell)

  /** A callback that has returned. */
  datatype Done = Done(late: bool, net: int)

  /** `accepts` counts the accepts the system has taken and not yet completed; `releases` the times the acceptor has
      been deleted, each right after a call of `OnAcceptorReleased`; `stray` tells that an access of `PostCancel` came
      to an acceptor that had deleted itself. */
  datatype State = State(pcs: seq<Pc>, count: int, accepts: nat, socketValid: bool, stopped: bool, cancel: Cancel,
                         releases: nat, stray: bool, done: seq<Done>)

  datatype Step =
    | Complete(t: nat)
    | CheckSocket(t: nat)
    | AllocClient(t: nat, found: bool)
    | Increment(t: nat)
    | AcceptEx(t: nat, taken: bool)
    | Undo(t: nat)
    | Decrement(t: nat)
    | Release(t: nat)
    | Stop
    | PostCancel

  predicate Enabled(s: State, x: Step) {
    match x
    case Complete(t) => t < |s.pcs| && s.pcs[t].Idle? && s.accepts > 0
    case CheckSocket(t) => t < |s.pcs| && s.pcs[t].Started?
    case AllocClient(t, _) => t < |s.pcs| && s.pcs[t].Checked?
    case Increment(t) => t < |s.pcs| && s.pcs[t].Allocated?
    case AcceptEx(t, _) => t < |s.pcs| && s.pcs[t].Counted?
    case Undo(t) => t < |s.pcs| && s.pcs[t].Undoing?
    case Decrement(t) => t < |s.pcs| && s.pcs[t].Posted?
    case Release(t) => t < |s.pcs| && s.pcs[t].Releasing?
    case Stop => !s.stopped
    case PostCancel => s.stopped && !s.cancel.Returned?
  }

  /** The release goes on; a socket that is not valid is not closed. */
  function Leave(s: State, t: nat): State
    requires t < |s.pcs| && s.pcs[t].Releasing?
  {
    match s.pcs[t].next
    case ShutSocket => s.(pcs := s.pcs[t := Releasing(CloseSocket)])
    case CloseSocket => s.(pcs := s.pcs[t := Releasing(if s.socketValid then ClearSocket else Tell)])
    case ClearSocket => s.(pcs := s.pcs[t := Releasing(Tell)], socketValid := false)
    case Tell => s.(pcs := s.pcs[t := Releasing(Delete)])
    case Delete => s.(pcs := s.pcs[t := Idle], releases := s.releases + 1)
  }

  /** `PostCancel` goes on; it leaves a socket alone that is not valid. */
  function Cancelling(s: State): State {
    var next :=
      match s.cancel
      case ReadService => AskSocket
      case AskSocket => if s.socketValid then CancelShut else Returned
      case CancelShut => CancelClose
      case CancelClose => if s.socketValid then CancelClear else Returned
      case CancelClear => Returned
      case Returned => Returned;
    s.(cancel := next, socketValid := s.socketValid && !s.cancel.CancelClear?, stray := s.stray || s.releases > 0)
  }

  function Next(s: State, x: Step): State
    requires Enabled(s, x)
  {
    match x
    case Complete(t) => s.(pcs := s.pcs[t := Started(s.stopped, 0)], accepts := s.accepts - 1)
    case CheckSocket(t) =>
      var p := s.pcs[t];
      s.(pcs := s.pcs[t := if s.socketValid then Checked(p.late, p.net) else Posted(p.late, p.net)])
    case AllocClient(t, found) =>
      var p := s.pcs[t];
      s.(pcs := s.pcs[t := if !s.stopped && found then Allocated(p.late, p.net) else Posted(p.late, p.net)])
    case Increment(t) =>
      var p := s.pcs[t];
      s.(pcs := s.pcs[t := Counted(p.late, p.net + 1)], count := s.count + 1)
    case AcceptEx(t, taken) =>
      var p := s.pcs[t];
      if taken then s.(pcs := s.pcs[t := Posted(p.late, p.net)], accepts := s.accepts + 1)
      else s.(pcs := s.pcs[t := Undoing(p.late, p.net)])
    case Undo(t) =>
      var p := s.pcs[t];
      s.(pcs := s.pcs[t := Posted(p.late, p.net - 1)], count := s.count - 1)
    case Decrement(t) =>
      var p := s.pcs[t];
      s.(pcs := s.pcs[t := if s.count - 1 == 0 then Releasing(ShutSocket) else Idle], count := s.count - 1,
         done := s.done + [Done(p.late, p.net - 1)])
    case Release(t) => Leave(s, t)
    case Stop => s.(stopped := true)
    case PostCancel => Cancelling(s)
  }

  // ---- What every step keeps ----

  /** How much of the pending count is there for a callback: one until it has decremented it, and one more while it
      has counted an accept that the system has not taken. */
  function Owes(p: Pc): nat {
    match p
    case Idle => 0
    case Releasing(_) => 0
    case Counted(_, _) => 2
    case Undoing(_, _) => 2
    case _ => 1
  }

  function Owed(pcs: seq<Pc>): nat {
    if pcs == [] then 0 else Owes(pcs[0]) + Owed(pcs[1..])
  }

  /** A late callback finds no client to post an accept with, so all it has done to the count is nothing yet. */
  predicate PcOk(p: Pc, stopped: bool) {
    match p
    case Idle => true
    case Releasing(_) => true
    case Started(late, net) => (late ==> stopped) && net == 0
    case Checked(late, net) => (late ==> stopped) && net == 0
    case Allocated(late, net) => !late && net == 0
    case Counted(late, net) => !late && net == 1
    case Undoing(late, net) => !late && net == 1
    case Posted(late, net) => (late ==> stopped && net == 0) && 0 <= net <= 1
  }

  /** A late callback has lowered the count by one; any other by one, or not at all if it has posted an accept. */
  predicate DoneOk(d: Done) {
    -1 <= d.net <= 0 && (d.late ==> d.net == -1)
  }

  predicate Inv(s: State) {
    && s.count == s.accepts + Owed(s.pcs)
    && (forall t :: 0 <= t < |s.pcs| ==> PcOk(s.pcs[t], s.stopped))
    && (forall i :: 0 <= i < |s.done| ==> DoneOk(s.done[i]))
    && s.releases <= 1
    && (forall t :: 0 <= t < |s.pcs| && s.pcs[t].Releasing? ==> s.count == 0 && s.releases == 0)
    && (s.releases == 1 ==> s.count == 0)
    && (s.count == 0 && s.releases == 0 ==> exists t :: 0 <= t < |s.pcs| && s.pcs[t].Releasing?)
    && forall t, u :: 0 <= t < u < |s.pcs| && s.pcs[t].Releasing? ==> !s.pcs[u].Releasing?
  }

  lemma {:induction false} OwedUpdate(pcs: seq<Pc>, t: nat, p: Pc)
    requires t < |pcs|
    ensures Owed(pcs[t := p]) + Owes(pcs[t]) == Owed(pcs) + Owes(p)
  {
    if t == 0 {
      assert pcs[t := p][1..] == pcs[1..];
    } else {
      assert pcs[t := p][1..] == pcs[1..][t - 1 := p];
      OwedUpdate(pcs[1..], t - 1, p);
    }
  }

  lemma {:induction false} OwedNone(pcs: seq<Pc>)
    ensures Owed(pcs) == 0 <==> forall t :: 0 <= t < |pcs| ==> Owes(pcs[t]) == 0
  {
    if pcs != [] {
      OwedNone(pcs[1..]);
      assert forall t :: 0 < t < |pcs| ==> pcs[t] == pcs[1..][t - 1];
      assert forall t :: 0 <= t < |pcs| - 1 ==> pcs[1..][t] == pcs[t + 1];
    }
  }

  /** A callback moves on, with the count and the accepts changed to match, and nobody is released. */
  lemma Moves(s: State, t: nat, p: Pc, count: int, accepts: nat, done: seq<Done>)
    requires Inv(s) && t < |s.pcs| && !p.Releasing? && !s.pcs[t].Releasing? && PcOk(p, s.stopped)
    requires count - accepts - Owes(p) == s.count - s.accepts - Owes(s.pcs[t]) && (count == 0 <==> s.count == 0)
    requires forall i :: 0 <= i < |done| ==> DoneOk(done[i])
    ensures Inv(s.(pcs := s.pcs[t := p], count := count, accepts := accepts, done := done))
  {
    hide Owed, PcOk, DoneOk;
    OwedUpdate(s.pcs, t, p);
    var s' := s.(pcs := s.pcs[t := p], count := count, accepts := accepts, done := done);
    if s'.count == 0 && s'.releases == 0 {
      var u :| 0 <= u < |s.pcs| && s.pcs[u].Releasing?;
      assert s'.pcs[u].Releasing?;
    }
  }

  /** A callback that is under way keeps the count above zero. */
  lemma Counts(s: State, t: nat)
    requires Inv(s) && t < |s.pcs| && Owes(s.pcs[t]) > 0
    ensures s.count >= Owes(s.pcs[t])
  {
    OwedUpdate(s.pcs, t, Idle);
  }

  lemma DecrementKeeps(s: State, t: nat)
    requires Inv(s) && Enabled(s, Decrement(t))
    ensures Inv(Next(s, Decrement(t)))
  {
    hide Owed;
    var p, s' := s.pcs[t], Next(s, Decrement(t));
    Counts(s, t);
    if s.count > 1 {
      Moves(s, t, Idle, s.count - 1, s.accepts, s'.done);
    } else {
      OwedUpdate(s.pcs, t, Releasing(ShutSocket));
      assert s'.pcs[t].Releasing?;
    }
  }

  /** The last callback releases the acceptor with nothing outstanding: no accept is with the system, and no other
      callback is under way. */
  lemma ReleaseAlone(s: State, t: nat)
    requires Inv(s) && Enabled(s, Release(t))
    ensures s.count == 0 && s.accepts == 0 && s.releases == 0 && forall u :: 0 <= u < |s.pcs| && u != t ==> s.pcs[u] == Idle
  {
    OwedNone(s.pcs);
    forall u | 0 <= u < |s.pcs| && u != t ensures s.pcs[u] == Idle {
      assert Owes(s.pcs[u]) == 0;
    }
  }

  lemma ReleaseKeeps(s: State, t: nat)
    requires Inv(s) && Enabled(s, Release(t))
    ensures Inv(Next(s, Release(t)))
  {
    hide Owed, PcOk, DoneOk, Leave;
    ReleaseAlone(s, t);
    var s' := Leave(s, t);
    LeaveFacts(s, t);
    OwedUpdate(s.pcs, t, s'.pcs[t]);
    assert PcOk(s'.pcs[t], s.stopped) by { NothingDone(s'.pcs[t], s.stopped); }
    if s'.releases == 0 { assert s'.pcs[t].Releasing?; }
  }

  lemma NothingDone(p: Pc, stopped: bool)
    requires p.Idle? || p.Releasing?
    ensures PcOk(p, stopped)
  {
  }

  lemma StopKeeps(s: State)
    requires Inv(s)
    ensures Inv(s.(stopped := true)) && Inv(Cancelling(s))
  {
    hide Owed;
    var s1, s2 := s.(stopped := true), Cancelling(s);
    if s.count == 0 && s.releases == 0 {
      var u :| 0 <= u < |s.pcs| && s.pcs[u].Releasing?;
      assert s1.pcs[u].Releasing? && s2.pcs[u].Releasing?;
    }
  }

  lemma StepKeeps(s: State, x: Step)
    requires Inv(s) && Enabled(s, x)
    ensures Inv(Next(s, x))
  {
    hide Inv, Owed;
    match x
    case Complete(t) => CompleteKeeps(s, t);
    case CheckSocket(t) =>
      var p := s.pcs[t];
      PcFacts(s, t);
      Moves(s, t, if s.socketValid then Checked(p.late, p.net) else Posted(p.late, p.net), s.count, s.accepts, s.done);
    case AllocClient(t, found) =>
      var p := s.pcs[t];
      PcFacts(s, t);
      Moves(s, t, if !s.stopped && found then Allocated(p.late, p.net) else Posted(p.late, p.net), s.count, s.accepts, s.done);
    case Increment(t) =>
      var p := s.pcs[t];
      PcFacts(s, t);
      Moves(s, t, Counted(p.late, p.net + 1), s.count + 1, s.accepts, s.done);
    case AcceptEx(t, taken) =>
      var p := s.pcs[t];
      PcFacts(s, t);
      if taken { Moves(s, t, Posted(p.late, p.net), s.count, s.accepts + 1, s.done); }
      else { Moves(s, t, Undoing(p.late, p.net), s.count, s.accepts, s.done); }
    case Undo(t) =>
      var p := s.pcs[t];
      PcFacts(s, t);
      Moves(s, t, Posted(p.late, p.net - 1), s.count - 1, s.accepts, s.done);
    case Decrement(t) => DecrementKeeps(s, t);
    case Release(t) => ReleaseKeeps(s, t);
    case Stop => StopKeeps(s);
    case PostCancel => StopKeeps(s);
  }

  /** What is known of a callback that is under way. */
  lemma PcFacts(s: State, t: nat)
    requires Inv(s) && t < |s.pcs| && Owes(s.pcs[t]) > 0
    ensures PcOk(s.pcs[t], s.stopped) && s.count >= Owes(s.pcs[t]) && forall i :: 0 <= i < |s.done| ==> DoneOk(s.done[i])
  {
    Counts(s, t);
  }

  lemma CompleteKeeps(s: State, t: nat)
    requires Inv(s) && Enabled(s, Complete(t))
    ensures Inv(Next(s, Complete(t)))
  {
    Moves(s, t, Started(s.stopped, 0), s.count, s.accepts - 1, s.done);
  }

  // ---- Runs ----

  predicate CanRun(s: State, xs: seq<Step>)
    decreases |xs|
  {
    xs == [] || (Enabled(s, xs[0]) && CanRun(Next(s, xs[0]), xs[1..]))
  }

  function After(s: State, xs: seq<Step>): State
    requires CanRun(s, xs)
    decreases |xs|
  {
    if xs == [] then s else After(Next(s, xs[0]), xs[1..])
  }

  lemma {:induction false} RunKeeps(s: State, xs: seq<Step>)
    requires Inv(s) && CanRun(s, xs)
    ensures Inv(After(s, xs))
    decreases |xs|
  {
    hide Inv, Next;
    if xs != [] {
      StepKeeps(s, xs[0]);
      RunKeeps(Next(s, xs[0]), xs[1..]);
    }
  }

  // ---- Initialize ----

  /** `Initialize` on its way: `poster` is where its thread is in `PostAccept`, `posted` how many accepts it has posted
      of `backLog`.  `failed` tells that it has given up, `early` that the count fell to zero, so that the acceptor was
      to delete itself, while the thread had more accepts to post. */
  datatype Opening = Opening(s: State, poster: Pc, posted: nat, backLog: nat, failed: bool, early: bool)

  datatype PostStep = PostCheck | PostAlloc(found: bool) | PostCount | PostEx(taken: bool) | PostUndo | PostNext

  datatype OpenStep = Callback(x: Step) | Post(k: PostStep)

  predicate CanPost(p: Pc, k: PostStep) {
    match k
    case PostCheck => p.Started?
    case PostAlloc(_) => p.Checked?
    case PostCount => p.Allocated?
    case PostEx(_) => p.Counted?
    case PostUndo => p.Undoing?
    case PostNext => p.Posted?
  }

  /** The service stops after `Initialize` has returned. */
  predicate CanOpen(o: Opening, x: OpenStep) {
    !o.poster.Idle? &&
    match x
    case Callback(y) => !y.Stop? && !y.PostCancel? && Enabled(o.s, y)
    case Post(k) => CanPost(o.poster, k)
  }

  function Posting(o: Opening, k: PostStep): Opening
    requires CanPost(o.poster, k)
  {
    var s, p := o.s, o.poster;
    match k
    case PostCheck => o.(poster := if s.socketValid then Checked(false, 0) else Posted(false, 0))
    case PostAlloc(found) => o.(poster := if !s.stopped && found then Allocated(false, 0) else Posted(false, 0))
    case PostCount => o.(poster := Counted(false, 1), s := s.(count := s.count + 1))
    case PostEx(taken) =>
      if taken then o.(poster := Posted(false, 1), s := s.(accepts := s.accepts + 1), posted := o.posted + 1)
      else o.(poster := Undoing(false, 1))
    case PostUndo => o.(poster := Posted(false, 0), s := s.(count := s.count - 1))
    case PostNext =>
      if p.net == 0 then o.(poster := Idle, failed := true)
      else o.(poster := if o.posted < o.backLog then Started(false, 0) else Idle)
  }

  function Open(o: Opening, x: OpenStep): Opening
    requires CanOpen(o, x)
  {
    match x
    case Callback(y) => o.(s := Next(o.s, y), early := o.early || (y.Decrement? && o.s.count == 1 && o.posted < o.backLog))
    case Post(k) => Posting(o, k)
  }

  function Start(threads: nat, backLog: nat): Opening {
    Opening(State(seq(threads, _ => Idle), 0, 0, true, false, ReadService, 0, false, []), Started(false, 0), 0, backLog, false, false)
  }

  /** `Initialize` has returned without an error. */
  predicate Opened(o: Opening) {
    o.poster.Idle? && !o.failed
  }

  /** How much of the pending count is there for the thread that posts. */
  function PosterOwes(p: Pc): nat {
    if p.Counted? || p.Undoing? then 1 else 0
  }

  function Releasings(pcs: seq<Pc>): nat {
    if pcs == [] then 0 else (if pcs[0].Releasing? then 1 else 0) + Releasings(pcs[1..])
  }

  /** How often the count has fallen to zero. */
  function Zeros(s: State): nat {
    s.releases + Releasings(s.pcs)
  }

  /** The acceptor has been released, or is to be, although something counts on it; or more than once. */
  predicate Lost(s: State) {
    Zeros(s) >= 1 && (s.count > 0 || Zeros(s) >= 2)
  }

  /** What holds at the end of `Initialize` of the acceptor's release. */
  predicate ReleaseOk(s: State) {
    if s.count == 0 then Zeros(s) == 1 else Zeros(s) == 0
  }

  predicate PosterOk(p: Pc, posted: nat, backLog: nat, failed: bool) {
    && posted <= backLog && 0 < backLog
    && (posted == backLog && !p.Idle? ==> p == Posted(false, 1))
    && (p.Idle? && !failed ==> posted == backLog) && (failed ==> p.Idle? && posted < backLog)
    && match p
       case Idle => true
       case Releasing(_) => false
       case Started(late, net) => !late && net == 0
       case Checked(late, net) => !late && net == 0
       case Allocated(late, net) => !late && net == 0
       case Counted(late, net) => !late && net == 1
       case Undoing(late, net) => !late && net == 1
       case Posted(late, net) => !late && 0 <= net <= 1
  }

  predicate OpenInv(o: Opening) {
    && o.s.count == o.s.accepts + Owed(o.s.pcs) + PosterOwes(o.poster)
    && (forall t :: 0 <= t < |o.s.pcs| ==> PcOk(o.s.pcs[t], o.s.stopped))
    && (forall i :: 0 <= i < |o.s.done| ==> DoneOk(o.s.done[i]))
    && !o.s.stopped && PosterOk(o.poster, o.posted, o.backLog, o.failed)
    && (if o.early then Zeros(o.s) >= 1 && (o.posted == o.backLog ==> Lost(o.s))
        else if o.posted < o.backLog then Zeros(o.s) == 0
        else ReleaseOk(o.s))
  }

  lemma {:induction false} ReleasingsUpdate(pcs: seq<Pc>, t: nat, p: Pc)
    requires t < |pcs|
    ensures Releasings(pcs[t := p]) + (if pcs[t].Releasing? then 1 else 0) == Releasings(pcs) + if p.Releasing? then 1 else 0
  {
    if t == 0 {
      assert pcs[t := p][1..] == pcs[1..];
    } else {
      assert pcs[t := p][1..] == pcs[1..][t - 1 := p];
      ReleasingsUpdate(pcs[1..], t - 1, p);
    }
  }

  lemma {:induction false} ReleasingsOne(pcs: seq<Pc>)
    ensures Releasings(pcs) == 0 <==> forall t :: 0 <= t < |pcs| ==> !pcs[t].Releasing?
    ensures Releasings(pcs) == 1 ==> forall t, u :: 0 <= t < u < |pcs| && pcs[t].Releasing? ==> !pcs[u].Releasing?
    ensures Releasings(pcs) >= 2 ==> exists t, u :: 0 <= t < u < |pcs| && pcs[t].Releasing? && pcs[u].Releasing?
  {
    if pcs != [] {
      var r := pcs[1..];
      ReleasingsOne(r);
      assert forall t :: 0 < t < |pcs| ==> pcs[t] == r[t - 1];
      assert forall t :: 0 <= t < |r| ==> r[t] == pcs[t + 1];
    }
  }

  /** The invariant of the acceptor, when the posting thread has gone, says how often it is released. */
  lemma InvIff(s: State)
    requires s.count == s.accepts + Owed(s.pcs) && (forall t :: 0 <= t < |s.pcs| ==> PcOk(s.pcs[t], s.stopped)) && forall i :: 0 <= i < |s.done| ==> DoneOk(s.done[i])
    ensures Inv(s) <==> ReleaseOk(s)
  {
    hide Owed, PcOk, DoneOk;
    ReleasingsOne(s.pcs);
  }

  lemma OpenOk(threads: nat, backLog: nat)
    requires 0 < backLog
    ensures OpenInv(Start(threads, backLog))
  {
    OwedNone(Start(threads, backLog).s.pcs);
    ReleasingsOne(Start(threads, backLog).s.pcs);
  }

  lemma PostKeeps(o: Opening, k: PostStep)
    requires OpenInv(o) && CanPost(o.poster, k)
    ensures OpenInv(Posting(o, k))
  {
    hide Owed, PcOk, DoneOk, Releasings;
  }

  /** A callback moves on while the posting thread is under way. */
  lemma OpenMoves(o: Opening, t: nat, p: Pc, count: int, accepts: nat)
    requires OpenInv(o) && t < |o.s.pcs| && !p.Releasing? && !o.s.pcs[t].Releasing? && PcOk(p, o.s.stopped)
    requires count - accepts - Owes(p) == o.s.count - o.s.accepts - Owes(o.s.pcs[t]) && (count <= 0 <==> o.s.count <= 0) && (count == 0 <==> o.s.count == 0)
    ensures OpenInv(o.(s := o.s.(pcs := o.s.pcs[t := p], count := count, accepts := accepts)))
  {
    hide Owed, DoneOk, Releasings, PosterOk, PcOk;
    OwedUpdate(o.s.pcs, t, p);
    ReleasingsUpdate(o.s.pcs, t, p);
  }

  /** What is known of a callback that is under way. */
  lemma OpenFacts(o: Opening, t: nat)
    requires OpenInv(o) && t < |o.s.pcs|
    ensures PcOk(o.s.pcs[t], false) && !o.s.stopped && o.s.count >= Owes(o.s.pcs[t]) + o.s.accepts
  {
    hide Releasings, PosterOk, DoneOk;
    OwedUpdate(o.s.pcs, t, Idle);
  }

  lemma CallbackMoves(o: Opening, y: Step)
    requires OpenInv(o) && CanOpen(o, Callback(y)) && !y.Decrement? && !y.Release?
    ensures OpenInv(Open(o, Callback(y)))
  {
    hide OpenInv;
    var s' := Next(o.s, y);
    OpenFacts(o, y.t);
    OpenMoves(o, y.t, s'.pcs[y.t], s'.count, s'.accepts);
  }

  lemma CallbackEnds(o: Opening, t: nat)
    requires OpenInv(o) && CanOpen(o, Callback(Decrement(t)))
    ensures OpenInv(Open(o, Callback(Decrement(t))))
  {
    hide Owed, Releasings, PosterOk;
    var s' := Next(o.s, Decrement(t));
    OwedUpdate(o.s.pcs, t, s'.pcs[t]);
    ReleasingsUpdate(o.s.pcs, t, s'.pcs[t]);
  }

  /** The release goes on, and the acceptor is deleted at its end. */
  lemma LeaveFacts(s: State, t: nat)
    requires t < |s.pcs| && s.pcs[t].Releasing?
    ensures var s' := Leave(s, t);
            && |s'.pcs| == |s.pcs| && s'.pcs == s.pcs[t := s'.pcs[t]] && (s'.pcs[t].Idle? || s'.pcs[t].Releasing?)
            && s'.count == s.count && s'.accepts == s.accepts && s'.done == s.done && s'.stopped == s.stopped
            && s'.releases + (if s'.pcs[t].Releasing? then 1 else 0) == s.releases + 1
  {
  }

  lemma CallbackReleases(o: Opening, t: nat)
    requires OpenInv(o) && CanOpen(o, Callback(Release(t)))
    ensures OpenInv(Open(o, Callback(Release(t))))
  {
    hide Owed, Releasings, PosterOk, DoneOk, PcOk, Leave;
    var s' := Leave(o.s, t);
    LeaveFacts(o.s, t);
    NothingDone(s'.pcs[t], o.s.stopped);
    OwedUpdate(o.s.pcs, t, s'.pcs[t]);
    ReleasingsUpdate(o.s.pcs, t, s'.pcs[t]);
  }

  lemma OpenKeeps(o: Opening, x: OpenStep)
    requires OpenInv(o) && CanOpen(o, x)
    ensures OpenInv(Open(o, x))
  {
    hide OpenInv, Next, Posting;
    match x
    case Callback(y) =>
      if y.Decrement? { CallbackEnds(o, y.t); }
      else if y.Release? { CallbackReleases(o, y.t); }
      else { CallbackMoves(o, y); }
    case Post(k) => PostKeeps(o, k);
  }

  predicate CanOpenAll(o: Opening, xs: seq<OpenStep>)
    decreases |xs|
  {
    xs == [] || (CanOpen(o, xs[0]) && CanOpenAll(Open(o, xs[0]), xs[1..]))
  }

  function OpenAll(o: Opening, xs: seq<OpenStep>): Opening
    requires CanOpenAll(o, xs)
    decreases |xs|
  {
    if xs == [] then o else OpenAll(Open(o, xs[0]), xs[1..])
  }

  lemma {:induction false} OpeningKeeps(o: Opening, xs: seq<OpenStep>)
    requires OpenInv(o) && CanOpenAll(o, xs)
    ensures OpenInv(OpenAll(o, xs))
    decreases |xs|
  {
    hide OpenInv, Open;
    if xs != [] {
      OpenKeeps(o, xs[0]);
      OpeningKeeps(Open(o, xs[0]), xs[1..]);
    }
  }

  /** When `Initialize` returns without an error, the acceptor is as it should be, whatever completed meanwhile,
      exactly when the count did not fall to zero before the last accept was posted. */
  lemma InitializeIff(threads: nat, backLog: nat, xs: seq<OpenStep>)
    requires 0 < backLog && CanOpenAll(Start(threads, backLog), xs) && Opened(OpenAll(Start(threads, backLog), xs))
    ensures var o := OpenAll(Start(threads, backLog), xs); Inv(o.s) <==> !o.early
  {
    hide Owed, Releasings, PcOk, DoneOk;
    OpenOk(threads, backLog);
    OpeningKeeps(Start(threads, backLog), xs);
    InvIff(OpenAll(Start(threads, backLog), xs).s);
  }

  /** The count falls to zero before the last accept is posted exactly when the callback that lowers it is alone: no
      accept is with the system, no other callback is under way, and the posting thread is between two accepts. */
  lemma EarlyIff(o: Opening, t: nat)
    requires OpenInv(o) && !o.early && CanOpen(o, Callback(Decrement(t)))
    ensures Open(o, Callback(Decrement(t))).early <==>
            o.posted < o.backLog && o.s.accepts == 0 && PosterOwes(o.poster) == 0 && forall u :: 0 <= u < |o.s.pcs| && u != t ==> Owes(o.s.pcs[u]) == 0
  {
    hide OpenInv, PcOk;
    OwedUpdate(o.s.pcs, t, Idle);
    OwedNone(o.s.pcs[t := Idle]);
    assert forall u :: 0 <= u < |o.s.pcs| && u != t ==> o.s.pcs[t := Idle][u] == o.s.pcs[u];
    assert o.s.count == o.s.accepts + Owed(o.s.pcs) + PosterOwes(o.poster) by { CountIs(o); }
  }

  lemma CountIs(o: Opening)
    requires OpenInv(o)
    ensures o.s.count == o.s.accepts + Owed(o.s.pcs) + PosterOwes(o.poster)
  {
  }

  /** When `Initialize` gives up, the service deletes the acceptor.  No accept is left with the system, no callback is
      under way, and none has deleted the acceptor already, exactly when the count is zero and has not fallen to zero
      before. */
  lemma FailedIff(threads: nat, backLog: nat, xs: seq<OpenStep>)
    requires 0 < backLog && CanOpenAll(Start(threads, backLog), xs) && OpenAll(Start(threads, backLog), xs).failed
    ensures var o := OpenAll(Start(threads, backLog), xs);
            o.s.count == 0 && !o.early <==> o.s.accepts == 0 && o.s.releases == 0 && forall t :: 0 <= t < |o.s.pcs| ==> o.s.pcs[t].Idle?
  {
    hide CanOpenAll, OpenAll;
    OpenOk(threads, backLog);
    OpeningKeeps(Start(threads, backLog), xs);
    QuietIff(OpenAll(Start(threads, backLog), xs));
  }

  lemma QuietIff(o: Opening)
    requires OpenInv(o) && o.failed
    ensures o.s.count == 0 && !o.early <==> o.s.accepts == 0 && o.s.releases == 0 && forall t :: 0 <= t < |o.s.pcs| ==> o.s.pcs[t].Idle?
  {
    hide Owed, Releasings, PcOk, DoneOk;
    OwedNone(o.s.pcs);
    ReleasingsOne(o.s.pcs);
    if o.s.count == 0 && !o.early {
      forall t | 0 <= t < |o.s.pcs| ensures o.s.pcs[t].Idle? { assert Owes(o.s.pcs[t]) == 0; }
    }
  }

  /** A run of `Initialize` that ends well and in time. */
  predicate OpensWell(threads: nat, backLog: nat, os: seq<OpenStep>) {
    0 < backLog && CanOpenAll(Start(threads, backLog), os) &&
    var o := OpenAll(Start(threads, backLog), os);
    Opened(o) && !o.early
  }

  /** In every interleaving, from the first accept that `Initialize` posts: the pending count is the number of accepts
      with the system and of what callbacks have not yet decremented; the acceptor is released at most once, and then
      nothing is outstanding; a callback that began after the stop has lowered the count by exactly one. */
  lemma EveryRun(threads: nat, backLog: nat, os: seq<OpenStep>, xs: seq<Step>)
    requires OpensWell(threads, backLog, os) && CanRun(OpenAll(Start(threads, backLog), os).s, xs)
    ensures var s := After(OpenAll(Start(threads, backLog), os).s, xs);
            && s.count == s.accepts + Owed(s.pcs) && s.releases <= 1
            && (s.releases == 1 ==> s.accepts == 0 && forall t :: 0 <= t < |s.pcs| ==> s.pcs[t] == Idle)
            && forall i :: 0 <= i < |s.done| && s.done[i].late ==> s.done[i].net == -1
  {
    hide CanOpenAll, OpenAll;
    InitializeIff(threads, backLog, os);
    var s := OpenAll(Start(threads, backLog), os).s;
    RunKeeps(s, xs);
    if After(s, xs).releases == 1 { ReleasedAtRest(After(s, xs)); }
  }

  lemma ReleasedAtRest(s: State)
    requires Inv(s) && s.releases == 1
    ensures s.accepts == 0 && forall t :: 0 <= t < |s.pcs| ==> s.pcs[t] == Idle
  {
    OwedNone(s.pcs);
    forall t | 0 <= t < |s.pcs| ensures s.pcs[t] == Idle { assert Owes(s.pcs[t]) == 0; }
  }

  // ---- After the stop ----

  /** How far a callback, and what it may still post, is from its end. */
  function Left(p: Pc): nat {
    match p
    case Idle => 0
    case Releasing(a) =>
      (match a
       case Delete => 1
       case Tell => 2
       case ClearSocket => 3
       case CloseSocket => 4
       case ShutSocket => 5)
    case Posted(_, _) => 6
    case Undoing(_, _) => 7
    case Checked(_, _) => 7
    case Started(_, _) => 8
    case Counted(_, _) => 16
    case Allocated(_, _) => 17
  }

  function CancelLeft(c: Cancel): nat {
    match c
    case ReadService => 5
    case AskSocket => 4
    case CancelShut => 3
    case CancelClose => 2
    case CancelClear => 1
    case Returned => 0
  }

  function LeftOf(pcs: seq<Pc>): nat {
    if pcs == [] then 0 else Left(pcs[0]) + LeftOf(pcs[1..])
  }

  function Measure(s: State): nat {
    9 * s.accepts + LeftOf(s.pcs) + CancelLeft(s.cancel)
  }

  lemma {:induction false} LeftUpdate(pcs: seq<Pc>, t: nat, p: Pc)
    requires t < |pcs|
    ensures LeftOf(pcs[t := p]) + Left(pcs[t]) == LeftOf(pcs) + Left(p)
  {
    if t == 0 {
      assert pcs[t := p][1..] == pcs[1..];
    } else {
      assert pcs[t := p][1..] == pcs[1..][t - 1 := p];
      LeftUpdate(pcs[1..], t - 1, p);
    }
  }

  /** Once the service has stopped, every step brings the end nearer. */
  lemma Drains(s: State, x: Step)
    requires s.stopped && Enabled(s, x)
    ensures Measure(Next(s, x)) < Measure(s) && Next(s, x).stopped
  {
    hide LeftOf, Left;
    if !x.PostCancel? {
      var s' := Next(s, x);
      LeftUpdate(s.pcs, x.t, s'.pcs[x.t]);
      PcDrains(s, x);
    }
  }

  lemma PcDrains(s: State, x: Step)
    requires s.stopped && Enabled(s, x) && !x.PostCancel?
    ensures var s' := Next(s, x); 9 * s'.accepts + Left(s'.pcs[x.t]) < 9 * s.accepts + Left(s.pcs[x.t])
  {
  }

  /** So a run after the stop is no longer than its start allows. */
  lemma {:induction false} RunEnds(s: State, xs: seq<Step>)
    requires s.stopped && CanRun(s, xs)
    ensures |xs| <= Measure(s) && After(s, xs).stopped
    decreases |xs|
  {
    hide Next, Measure;
    if xs != [] {
      Drains(s, xs[0]);
      RunEnds(Next(s, xs[0]), xs[1..]);
    }
  }

  // ---- A closed socket ----

  /** The same when the socket is closed: no callback that has still to look at it posts another accept. */
  function ClosedLeft(p: Pc): nat {
    match p
    case Started(_, _) => 7
    case Counted(_, _) => 15
    case Allocated(_, _) => 16
    case Checked(_, _) => 17
    case _ => Left(p)
  }

  function ClosedLeftOf(pcs: seq<Pc>): nat {
    if pcs == [] then 0 else ClosedLeft(pcs[0]) + ClosedLeftOf(pcs[1..])
  }

  function ClosedMeasure(s: State): nat {
    8 * s.accepts + ClosedLeftOf(s.pcs) + CancelLeft(s.cancel) + if s.stopped then 0 else 1
  }

  lemma {:induction false} ClosedUpdate(pcs: seq<Pc>, t: nat, p: Pc)
    requires t < |pcs|
    ensures ClosedLeftOf(pcs[t := p]) + ClosedLeft(pcs[t]) == ClosedLeftOf(pcs) + ClosedLeft(p)
  {
    if t == 0 {
      assert pcs[t := p][1..] == pcs[1..];
    } else {
      assert pcs[t := p][1..] == pcs[1..][t - 1 := p];
      ClosedUpdate(pcs[1..], t - 1, p);
    }
  }

  lemma ClosedDrains(s: State, x: Step)
    requires !s.socketValid && Enabled(s, x)
    ensures ClosedMeasure(Next(s, x)) < ClosedMeasure(s) && !Next(s, x).socketValid
  {
    hide ClosedLeftOf, ClosedLeft;
    if !x.PostCancel? && !x.Stop? {
      var s' := Next(s, x);
      ClosedUpdate(s.pcs, x.t, s'.pcs[x.t]);
      ClosedPc(s, x);
    }
  }

  lemma ClosedPc(s: State, x: Step)
    requires !s.socketValid && Enabled(s, x) && !x.PostCancel? && !x.Stop?
    ensures var s' := Next(s, x); 8 * s'.accepts + ClosedLeft(s'.pcs[x.t]) < 8 * s.accepts + ClosedLeft(s.pcs[x.t])
  {
  }

  /** Once the socket is closed, the acceptor comes to rest even while the service goes on. */
  lemma {:induction false} ClosedEnds(s: State, xs: seq<Step>)
    requires !s.socketValid && CanRun(s, xs)
    ensures |xs| <= ClosedMeasure(s) && !After(s, xs).socketValid
    decreases |xs|
  {
    hide Next, ClosedMeasure;
    if xs != [] {
      ClosedDrains(s, xs[0]);
      ClosedEnds(Next(s, xs[0]), xs[1..]);
    }
  }

  /** Whoever is done with the socket leaves it closed. */
  predicate Closing(s: State) {
    && (s.releases > 0 || s.cancel.Returned? ==> !s.socketValid)
    && forall t :: 0 <= t < |s.pcs| && (s.pcs[t] == Releasing(Tell) || s.pcs[t] == Releasing(Delete)) ==> !s.socketValid
  }

  lemma {:induction false} OpeningCloses(o: Opening, xs: seq<OpenStep>)
    requires Closing(o.s) && CanOpenAll(o, xs)
    ensures Closing(OpenAll(o, xs).s)
    decreases |xs|
  {
    hide Next, Closing, Posting;
    if xs != [] {
      OpenCloses(o, xs[0]);
      OpeningCloses(Open(o, xs[0]), xs[1..]);
    }
  }

  lemma OpenCloses(o: Opening, x: OpenStep)
    requires Closing(o.s) && CanOpen(o, x)
    ensures Closing(Open(o, x).s)
  {
    hide Next;
    if x.Callback? { StepCloses(o.s, x.x); }
  }

  lemma StepCloses(s: State, x: Step)
    requires Closing(s) && Enabled(s, x)
    ensures Closing(Next(s, x))
  {
  }

  lemma {:induction false} RunCloses(s: State, xs: seq<Step>)
    requires Closing(s) && CanRun(s, xs)
    ensures Closing(After(s, xs))
    decreases |xs|
  {
    hide Next, Closing;
    if xs != [] {
      StepCloses(s, xs[0]);
      RunCloses(Next(s, xs[0]), xs[1..]);
    }
  }

  /** An acceptor that has deleted itself has closed its socket, and so has one that `PostCancel` is done with, whatever
      else came between. */
  lemma SocketClosed(threads: nat, backLog: nat, os: seq<OpenStep>, xs: seq<Step>)
    requires CanOpenAll(Start(threads, backLog), os) && CanRun(OpenAll(Start(threads, backLog), os).s, xs)
    ensures var s := After(OpenAll(Start(threads, backLog), os).s, xs); s.releases > 0 || s.cancel.Returned? ==> !s.socketValid
  {
    OpeningCloses(Start(threads, backLog), os);
    RunCloses(OpenAll(Start(threads, backLog), os).s, xs);
  }

  /** When the service has stopped and no step is left, the acceptor has been released, and just once. */
  lemma StopReleases(threads: nat, backLog: nat, os: seq<OpenStep>, xs: seq<Step>)
    requires 0 < threads && OpensWell(threads, backLog, os) && CanRun(OpenAll(Start(threads, backLog), os).s, xs)
    requires var s := After(OpenAll(Start(threads, backLog), os).s, xs); s.stopped && forall x :: !Enabled(s, x)
    ensures var s := After(OpenAll(Start(threads, backLog), os).s, xs); s.releases == 1 && s.count == 0
  {
    hide CanOpenAll, OpenAll;
    InitializeIff(threads, backLog, os);
    var s := OpenAll(Start(threads, backLog), os).s;
    OpenThreads(Start(threads, backLog), os);
    RunKeeps(s, xs);
    RunThreads(s, xs);
    AllEnded(After(s, xs));
  }

  lemma {:induction false} OpenThreads(o: Opening, xs: seq<OpenStep>)
    requires CanOpenAll(o, xs)
    ensures |OpenAll(o, xs).s.pcs| == |o.s.pcs|
    decreases |xs|
  {
    if xs != [] { OpenThreads(Open(o, xs[0]), xs[1..]); }
  }

  lemma AllEnded(s: State)
    requires Inv(s) && |s.pcs| > 0 && forall x :: !Enabled(s, x)
    ensures s.releases == 1 && s.count == 0
  {
    hide Owed;
    forall t | 0 <= t < |s.pcs| ensures s.pcs[t].Idle? {
      if !s.pcs[t].Idle? { NextStep(s, t); }
    }
    OwedNone(s.pcs);
    assert !Enabled(s, Complete(0));
  }

  /** A callback that is under way can go on. */
  lemma NextStep(s: State, t: nat)
    requires t < |s.pcs| && !s.pcs[t].Idle?
    ensures exists x :: Enabled(s, x) && !x.PostCancel? && !x.Stop?
  {
    match s.pcs[t]
    case Started(_, _) => assert Enabled(s, CheckSocket(t));
    case Checked(_, _) => assert Enabled(s, AllocClient(t, true));
    case Allocated(_, _) => assert Enabled(s, Increment(t));
    case Counted(_, _) => assert Enabled(s, AcceptEx(t, true));
    case Undoing(_, _) => assert Enabled(s, Undo(t));
    case Posted(_, _) => assert Enabled(s, Decrement(t));
    case Releasing(_) => assert Enabled(s, Release(t));
  }

  lemma {:induction false} RunThreads(s: State, xs: seq<Step>)
    requires CanRun(s, xs)
    ensures |After(s, xs).pcs| == |s.pcs|
    decreases |xs|
  {
    if xs != [] { RunThreads(Next(s, xs[0]), xs[1..]); }
  }

  // ---- Calls on an acceptor that is gone ----

  /** An access of `PostCancel` comes to an acceptor that has deleted itself exactly when, at that access, the count is
      zero and no callback is releasing it. */
  lemma CancelStray(s: State)
    requires Inv(s) && Enabled(s, PostCancel) && !s.stray
    ensures Next(s, PostCancel).stray <==> s.count == 0 && forall t :: 0 <= t < |s.pcs| ==> !s.pcs[t].Releasing?
  {
    hide Owed, PcOk, DoneOk;
  }

  /** The same in every state that a run reaches. */
  lemma StrayIff(threads: nat, backLog: nat, os: seq<OpenStep>, xs: seq<Step>)
    requires OpensWell(threads, backLog, os) && CanRun(OpenAll(Start(threads, backLog), os).s, xs)
    requires var s := After(OpenAll(Start(threads, backLog), os).s, xs); Enabled(s, PostCancel) && !s.stray
    ensures var s := After(OpenAll(Start(threads, backLog), os).s, xs);
            Next(s, PostCancel).stray <==> s.count == 0 && forall t :: 0 <= t < |s.pcs| ==> !s.pcs[t].Releasing?
  {
    hide CanOpenAll, OpenAll, Inv;
    InitializeIff(threads, backLog, os);
    var s := OpenAll(Start(threads, backLog), os).s;
    RunKeeps(s, xs);
    CancelStray(After(s, xs));
  }

  /** Steps of callbacks after which the acceptor is gone, while `PostCancel` waits. */
  predicate Drained(s: State, ys: seq<Step>) {
    CanRun(s, ys) && After(s, ys).releases == 1 && After(s, ys).cancel == s.cancel
  }

  /** After the stop the callbacks can always go on to the end without `PostCancel`. */
  lemma {:induction false} CanDrain(s: State)
    requires Inv(s) && s.stopped && |s.pcs| > 0
    ensures exists ys :: Drained(s, ys)
    decreases Measure(s)
  {
    hide Inv, Next, Measure;
    if s.releases == 1 {
      assert Drained(s, []);
    } else {
      NotYet(s);
      var x :| Enabled(s, x) && !x.PostCancel? && !x.Stop?;
      StepKeeps(s, x);
      Drains(s, x);
      StillWaits(s, x);
      CanDrain(Next(s, x));
      var ys :| Drained(Next(s, x), ys);
      RunStep(s, x, ys);
      assert Drained(s, [x] + ys);
    }
  }

  lemma NotYet(s: State)
    requires Inv(s) && |s.pcs| > 0 && s.releases != 1
    ensures exists x :: Enabled(s, x) && !x.PostCancel? && !x.Stop?
  {
    hide Owed, PcOk, DoneOk;
    OwedNone(s.pcs);
    if t :| 0 <= t < |s.pcs| && !s.pcs[t].Idle? {
      NextStep(s, t);
    } else {
      assert Enabled(s, Complete(0));
    }
  }

  lemma StillWaits(s: State, x: Step)
    requires Enabled(s, x) && !x.PostCancel?
    ensures Next(s, x).cancel == s.cancel && |Next(s, x).pcs| == |s.pcs|
  {
  }

  /** Nothing that holds when `PostCancel` begins keeps it from that: in every state in which it can begin, however many
      accepts and callbacks there are, the callbacks can come to their end between its first access and its second. */
  lemma StrayAlways(threads: nat, backLog: nat, os: seq<OpenStep>, xs: seq<Step>)
    requires 0 < threads && OpensWell(threads, backLog, os) && CanRun(OpenAll(Start(threads, backLog), os).s, xs)
    requires var s := After(OpenAll(Start(threads, backLog), os).s, xs); s.stopped && s.cancel.ReadService?
    ensures var s := After(OpenAll(Start(threads, backLog), os).s, xs);
            exists ys :: CanRun(s, [PostCancel] + ys + [PostCancel]) && After(s, [PostCancel] + ys + [PostCancel]).stray
  {
    hide CanOpenAll, OpenAll, Inv;
    InitializeIff(threads, backLog, os);
    var s0 := OpenAll(Start(threads, backLog), os).s;
    OpenThreads(Start(threads, backLog), os);
    RunKeeps(s0, xs);
    RunThreads(s0, xs);
    var s := After(s0, xs);
    StepKeeps(s, PostCancel);
    var s1 := Next(s, PostCancel);
    CanDrain(s1);
    var ys :| Drained(s1, ys);
    RunEnds(s1, ys);
    RunCat(s1, ys, [PostCancel]);
    var s2 := After(s1, ys);
    assert CanRun(s2, [PostCancel]) && After(s2, [PostCancel]) == Next(s2, PostCancel) by { RunStep(s2, PostCancel, []); }
    RunStep(s, PostCancel, ys + [PostCancel]);
    assert [PostCancel] + ys + [PostCancel] == [PostCancel] + (ys + [PostCancel]);
  }

  lemma {:induction false} RunCat(s: State, xs: seq<Step>, ys: seq<Step>)
    requires CanRun(s, xs) && CanRun(After(s, xs), ys)
    ensures CanRun(s, xs + ys) && After(s, xs + ys) == After(After(s, xs), ys)
    decreases |xs|
  {
    hide Enabled, Next;
    if xs == [] {
      assert xs + ys == ys;
    } else {
      assert (xs + ys)[1..] == xs[1..] + ys && (xs + ys)[0] == xs[0];
      RunCat(Next(s, xs[0]), xs[1..], ys);
    }
  }

  /** The one accept is posted and `Initialize` returns. */
  const POST_ONE: seq<OpenStep> := [Post(PostCheck), Post(PostAlloc(true)), Post(PostCount), Post(PostEx(true)), Post(PostNext)]

  lemma OneOpened()
    ensures OpensWell(1, 1, POST_ONE)
    ensures OpenAll(Start(1, 1), POST_ONE).s == State([Idle], 1, 1, true, false, ReadService, 0, false, [])
  {
    var o0 := Start(1, 1);
    assert o0.s.pcs == [Idle];
    var o1 := Open(o0, Post(PostCheck));
    var o2 := Open(o1, Post(PostAlloc(true)));
    var o3 := Open(o2, Post(PostCount));
    var o4 := Open(o3, Post(PostEx(true)));
    OpenOne(o4, Post(PostNext), []);
    OpenOne(o3, Post(PostEx(true)), [Post(PostNext)]);
    OpenOne(o2, Post(PostCount), [Post(PostEx(true)), Post(PostNext)]);
    OpenOne(o1, Post(PostAlloc(true)), [Post(PostCount), Post(PostEx(true)), Post(PostNext)]);
    OpenOne(o0, Post(PostCheck), [Post(PostAlloc(true)), Post(PostCount), Post(PostEx(true)), Post(PostNext)]);
  }

  lemma OpenOne(o: Opening, x: OpenStep, xs: seq<OpenStep>)
    requires CanOpen(o, x) && CanOpenAll(Open(o, x), xs)
    ensures CanOpenAll(o, [x] + xs) && OpenAll(o, [x] + xs) == OpenAll(Open(o, x), xs)
  {
    assert ([x] + xs)[1..] == xs;
  }

  /** A callback completes, finds no client for the next accept, and lowers the count. */
  const END_ONE: seq<Step> := [Complete(0), CheckSocket(0), AllocClient(0, false), Decrement(0)]

  /** The whole release of an acceptor whose socket is open. */
  const LEAVE: seq<Step> := [Release(0), Release(0), Release(0), Release(0), Release(0)]

  /** The acceptor does not wait for the service to stop.  When a callback finds no client for the next accept and
      it was the last, the acceptor deletes itself, and a later stop calls `PostCancel` on it all the same. */
  lemma StrayCancel()
    ensures var s := OpenAll(Start(1, 1), POST_ONE).s;
            var xs := END_ONE + LEAVE + [Stop, PostCancel];
            OpensWell(1, 1, POST_ONE) && CanRun(s, xs) && After(s, xs).stray
  {
    hide CanRun, After, OpensWell, OpenAll, CanOpenAll;
    OneOpened();
    var s0 := State([Idle], 1, 1, true, false, ReadService, 0, false, []);
    OneEnds(s0);
    OneLeaves(After(s0, END_ONE));
    RunCat(s0, END_ONE, LEAVE);
    OneCancelled(After(s0, END_ONE + LEAVE));
    RunCat(s0, END_ONE + LEAVE, [Stop, PostCancel]);
  }

  lemma OneCancelled(s: State)
    requires s.releases == 1 && !s.stopped && s.cancel.ReadService?
    ensures CanRun(s, [Stop, PostCancel]) && After(s, [Stop, PostCancel]).stray
  {
    RunStep(Next(s, Stop), PostCancel, []);
    RunStep(s, Stop, [PostCancel]);
  }

  lemma OneEnds(s0: State)
    requires s0 == State([Idle], 1, 1, true, false, ReadService, 0, false, [])
    ensures CanRun(s0, END_ONE) && After(s0, END_ONE) == State([Releasing(ShutSocket)], 0, 0, true, false, ReadService, 0, false, [Done(false, -1)])
  {
    var s1 := Next(s0, Complete(0));
    var s2 := Next(s1, CheckSocket(0));
    var s3 := Next(s2, AllocClient(0, false));
    RunStep(s3, Decrement(0), []);
    RunStep(s2, AllocClient(0, false), [Decrement(0)]);
    RunStep(s1, CheckSocket(0), [AllocClient(0, false), Decrement(0)]);
    RunStep(s0, Complete(0), [CheckSocket(0), AllocClient(0, false), Decrement(0)]);
  }

  lemma OneLeaves(s0: State)
    requires s0.pcs == [Releasing(ShutSocket)] && s0.socketValid && s0.releases == 0
    ensures CanRun(s0, LEAVE) && After(s0, LEAVE) == s0.(pcs := [Idle], socketValid := false, releases := 1)
  {
    var s1 := Next(s0, Release(0));
    var s2 := Next(s1, Release(0));
    var s3 := Next(s2, Release(0));
    var s4 := Next(s3, Release(0));
    RunStep(s4, Release(0), []);
    RunStep(s3, Release(0), [Release(0)]);
    RunStep(s2, Release(0), [Release(0), Release(0)]);
    RunStep(s1, Release(0), [Release(0), Release(0), Release(0)]);
    RunStep(s0, Release(0), [Release(0), Release(0), Release(0), Release(0)]);
  }

  lemma RunStep(s: State, x: Step, xs: seq<Step>)
    requires Enabled(s, x) && CanRun(Next(s, x), xs)
    ensures CanRun(s, [x] + xs) && After(s, [x] + xs) == After(Next(s, x), xs)
  {
    assert ([x] + xs)[1..] == xs;
  }

  lemma {:induction false} OpenCat(o: Opening, xs: seq<OpenStep>, ys: seq<OpenStep>)
    requires CanOpenAll(o, xs) && CanOpenAll(OpenAll(o, xs), ys)
    ensures CanOpenAll(o, xs + ys) && OpenAll(o, xs + ys) == OpenAll(OpenAll(o, xs), ys)
    decreases |xs|
  {
    hide CanOpen, Open;
    if xs == [] {
      assert xs + ys == ys;
    } else {
      assert (xs + ys)[1..] == xs[1..] + ys && (xs + ys)[0] == xs[0];
      OpenCat(Open(o, xs[0]), xs[1..], ys);
    }
  }

  const POST_FIRST: seq<OpenStep> := [Post(PostCheck), Post(PostAlloc(true)), Post(PostCount), Post(PostEx(true))]

  /** The first accept completes, finds no client for the next, and lowers the count to zero. */
  const END_FIRST: seq<OpenStep> :=
    [Callback(Complete(0)), Callback(CheckSocket(0)), Callback(AllocClient(0, false)), Callback(Decrement(0))]

  const LEAVE_FIRST: seq<OpenStep> :=
    [Callback(Release(0)), Callback(Release(0)), Callback(Release(0)), Callback(Release(0)), Callback(Release(0))]

  /** The posting thread goes on to the second accept, finds no client for it either, and gives up. */
  const FAIL_SECOND: seq<OpenStep> := [Post(PostNext), Post(PostCheck), Post(PostAlloc(false)), Post(PostNext)]

  /** With two accepts to post, the first may complete and find no client for the next while the second is not posted
      yet: the acceptor deletes itself under `Initialize`, which goes on to use it. */
  lemma EarlyRelease()
    ensures CanOpenAll(Start(1, 2), POST_FIRST + END_FIRST + LEAVE_FIRST)
    ensures var o := OpenAll(Start(1, 2), POST_FIRST + END_FIRST + LEAVE_FIRST); o.early && o.s.releases == 1 && !o.poster.Idle?
  {
    FirstPosted();
    FirstEnds();
    OpenCat(Start(1, 2), POST_FIRST, END_FIRST);
    FirstLeaves();
    OpenCat(Start(1, 2), POST_FIRST + END_FIRST, LEAVE_FIRST);
  }

  /** The same, before the callback has gone on to the release, and with an `Initialize` that fails: the count is zero
      and nothing is with the system, but the service and the callback both delete the acceptor. */
  lemma FailedEarly()
    ensures CanOpenAll(Start(1, 2), POST_FIRST + END_FIRST + FAIL_SECOND)
    ensures var o := OpenAll(Start(1, 2), POST_FIRST + END_FIRST + FAIL_SECOND);
            o.failed && o.s.count == 0 && o.s.accepts == 0 && o.s.releases == 0 && o.s.pcs == [Releasing(ShutSocket)]
  {
    FirstPosted();
    FirstEnds();
    OpenCat(Start(1, 2), POST_FIRST, END_FIRST);
    SecondFails();
    OpenCat(Start(1, 2), POST_FIRST + END_FIRST, FAIL_SECOND);
  }

  /** The first accept is posted and with the system. */
  function FirstOut(): Opening {
    Opening(State([Idle], 1, 1, true, false, ReadService, 0, false, []), Posted(false, 1), 1, 2, false, false)
  }

  /** The first accept has come to its end, and its callback is about to release the acceptor. */
  function FirstGone(): Opening {
    Opening(State([Releasing(ShutSocket)], 0, 0, true, false, ReadService, 0, false, [Done(false, -1)]), Posted(false, 1), 1, 2, false, true)
  }

  lemma FirstPosted()
    ensures CanOpenAll(Start(1, 2), POST_FIRST) && OpenAll(Start(1, 2), POST_FIRST) == FirstOut()
  {
    var o0 := Start(1, 2);
    assert o0.s.pcs == [Idle];
    var o1 := Open(o0, Post(PostCheck));
    var o2 := Open(o1, Post(PostAlloc(true)));
    var o3 := Open(o2, Post(PostCount));
    OpenOne(o3, Post(PostEx(true)), []);
    OpenOne(o2, Post(PostCount), [Post(PostEx(true))]);
    OpenOne(o1, Post(PostAlloc(true)), [Post(PostCount), Post(PostEx(true))]);
    OpenOne(o0, Post(PostCheck), [Post(PostAlloc(true)), Post(PostCount), Post(PostEx(true))]);
  }

  lemma FirstEnds()
    ensures CanOpenAll(FirstOut(), END_FIRST) && OpenAll(FirstOut(), END_FIRST) == FirstGone()
  {
    var o4 := FirstOut();
    var o5 := Open(o4, Callback(Complete(0)));
    var o6 := Open(o5, Callback(CheckSocket(0)));
    var o7 := Open(o6, Callback(AllocClient(0, false)));
    OpenOne(o7, Callback(Decrement(0)), []);
    OpenOne(o6, Callback(AllocClient(0, false)), [Callback(Decrement(0))]);
    OpenOne(o5, Callback(CheckSocket(0)), [Callback(AllocClient(0, false)), Callback(Decrement(0))]);
    OpenOne(o4, Callback(Complete(0)), [Callback(CheckSocket(0)), Callback(AllocClient(0, false)), Callback(Decrement(0))]);
  }

  lemma FirstLeaves()
    ensures CanOpenAll(FirstGone(), LEAVE_FIRST)
    ensures var e := OpenAll(FirstGone(), LEAVE_FIRST); e.early && e.s.releases == 1 && !e.poster.Idle?
  {
    var x := Callback(Release(0));
    var o0 := FirstGone();
    var o1 := Open(o0, x);
    var o2 := Open(o1, x);
    var o3 := Open(o2, x);
    var o4 := Open(o3, x);
    OpenOne(o4, x, []);
    OpenOne(o3, x, [x]);
    OpenOne(o2, x, [x, x]);
    OpenOne(o1, x, [x, x, x]);
    OpenOne(o0, x, [x, x, x, x]);
  }

  lemma SecondFails()
    ensures CanOpenAll(FirstGone(), FAIL_SECOND)
    ensures var e := OpenAll(FirstGone(), FAIL_SECOND); e.failed && e.s == FirstGone().s
  {
    var o0 := FirstGone();
    var o1 := Open(o0, Post(PostNext));
    var o2 := Open(o1, Post(PostCheck));
    var o3 := Open(o2, Post(PostAlloc(false)));
    OpenOne(o3, Post(PostNext), []);
    OpenOne(o2, Post(PostAlloc(false)), [Post(PostNext)]);
    OpenOne(o1, Post(PostCheck), [Post(PostAlloc(false)), Post(PostNext)]);
    OpenOne(o0, Post(PostNext), [Post(PostCheck), Post(PostAlloc(false)), Post(PostNext)]);
  }
}
