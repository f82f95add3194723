/** Saved positions over runs of edits: an element keeps its parent for as long as it is in the document, so a saved
    position that survives is restored as it was saved. */
module SavedRuns {
  import opened Content
  import opened Index
  import opened Edit
  import opened Links
  import opened Effect
  import opened Represent
  import opened Position
  import opened AddElem
  import opened NewElem
  import opened SetData
  import opened RemoveElem
  import opened SetAttrib
  import opened Navigate
  import opened Runs
  import opened SavedPositions

  // ---- Parents ----

  lemma {:induction false} ParentNoIds(c: Content, t: nat, q: nat)
    requires t !in Ids(c)
    ensures ParentIn(c, t, q) == q
    decreases c
  {
    match c
    case End(_) =>
    case Mark(_, _, r) => ParentNoIds(r, t, q);
    case Elem(_, _, _, _, _, r) => ParentNoIds(r, t, q);
  }

  /** `k'` has the elements of `k` that it has below the same parents. */
  ghost predicate SameParents(k: Content, k': Content, q: nat) {
    forall t :: t in Ids(k) && t in Ids(k') ==> ParentIn(k', t, q) == ParentIn(k, t, q)
  }

  /** An element that gets another list below it, with the elements that it keeps where they were. */
  lemma {:induction false} ParentWith(c: Content, p: nat, s: string, k: Content, e: string, q: nat, t: nat)
    requires Distinct(c) && p in Ids(c) && Distinct(k) && Ids(k) !! (Ids(c) - Ids(Subtree(c, p).kids)) && SameParents(Subtree(c, p).kids, k, p)
    requires t in Ids(c) && t in Ids(With(c, p, s, k, e))
    ensures ParentIn(With(c, p, s, k, e), t, q) == ParentIn(c, t, q)
    decreases c
  {
    hide SameParents;
    SubtreeIds(c, p);
    match c
    case Mark(_, _, r) => ParentWith(r, p, s, k, e, q, t);
    case Elem(_, i, _, k0, _, r) =>
      if i == p {
        assert SameParents(k0, k, p);
        KidsParents(k0, k, p, t);
      } else if p in Ids(k0) {
        SubtreeIds(k0, p);
        WithSlots(k0, p, s, k, e);
        if t in Ids(k0) && t in Ids(With(k0, p, s, k, e)) {
          ParentWith(k0, p, s, k, e, i, t);
        }
      } else {
        SubtreeIds(r, p);
        WithSlots(r, p, s, k, e);
        if t in Ids(r) && t in Ids(With(r, p, s, k, e)) {
          ParentWith(r, p, s, k, e, q, t);
        }
      }
  }

  lemma KidsParents(k: Content, k': Content, q: nat, t: nat)
    requires SameParents(k, k', q)
    ensures t in Ids(k) && t in Ids(k') ==> ParentIn(k', t, q) == ParentIn(k, t, q)
  {
  }

  lemma SetTextParents(k: Content, x: string, t: nat, q: nat)
    ensures ParentIn(Edit.SetText(k, x), t, q) == ParentIn(k, t, q)
  {
  }

  lemma {:induction false} ParentInsert(k: Content, w: Where, id: nat, s: string, n: Content, e: string, q: nat, t: nat)
    requires CanInsert(k, w) && id !in Ids(k) && Ids(n) == {} && t in Ids(k)
    ensures ParentIn(Insert(k, w, id, s, n, e), t, q) == ParentIn(k, t, q)
    decreases k
  {
    forall x { SetTextParents(k, x, t, q); }
    match k
    case End(_) =>
    case Mark(_, _, r) =>
      if w.Last? || w.Behind? || w.InFront? {
        ParentInsert(r, w, id, s, n, e, q, t);
      }
    case Elem(_, i, _, k0, _, r) =>
      if i != t && t !in Ids(k0) {
        if w.Last? || (w.Behind? && w.rel != i) || (w.InFront? && w.rel != i) {
          ParentInsert(r, w, id, s, n, e, q, t);
        } else {
          forall x { SetTextParents(r, x, t, q); }
        }
      }
  }

  lemma {:induction false} ParentRemove(k: Content, x: nat, q: nat, t: nat)
    requires Distinct(k) && x in Top(k) && t in Ids(Edit.Remove(k, x))
    ensures t in Ids(k) && ParentIn(Edit.Remove(k, x), t, q) == ParentIn(k, t, q)
    decreases k
  {
    match k
    case End(_) =>
    case Mark(_, _, r) => ParentRemove(r, x, q, t);
    case Elem(_, i, _, k0, _, r) =>
      if i != x && i != t && t !in Ids(k0) {
        ParentRemove(r, x, q, t);
      }
  }

  // ---- One call ----

  lemma AddedParents(c: Content, p: nat, w: Where, id: nat, s: string, n: Content, e: string, t: nat)
    requires CanAdd(c, p, w, id, s, n, e) && t in Ids(c)
    ensures t in Ids(Added(c, p, w, id, s, n, e)) && ParentIn(Added(c, p, w, id, s, n, e), t, 0) == ParentIn(c, t, 0)
  {
    hide Insert, CanInsert, Opened, Closed, Shape, ShapedTags, Distinct, PlaceOf, Inserted, ParentIn;
    NoIds(n);
    AddedSlots(c, p, w, id, s, n, e);
    BelowDistinct(c, p);
    BelowIds(c, p);
    var k := Insert(Below(c, p), w, id, s, n, e);
    InsertIds(Below(c, p), w, id, s, n, e);
    if p != 0 {
      var x := Subtree(c, p);
      forall y | y in Ids(x.kids) && y in Ids(k) ensures ParentIn(k, y, p) == ParentIn(x.kids, y, p) {
        ParentInsert(x.kids, w, id, s, n, e, p, y);
      }
      ParentWith(c, p, Opened(x), k, Closed(x), 0, t);
    } else {
      ParentInsert(c, w, id, s, n, e, 0, t);
    }
  }

  lemma InsertIds(k: Content, w: Where, id: nat, s: string, n: Content, e: string)
    requires Distinct(k) && CanInsert(k, w) && id != 0 && id !in Ids(k) && Ids(n) == {} && Distinct(n)
    ensures Distinct(Insert(k, w, id, s, n, e)) && Ids(Insert(k, w, id, s, n, e)) == Ids(k) + {id}
  {
    hide Insert, CanInsert, PlaceOf, Distinct;
    InsertSlots(k, w, id, s, n, e);
  }

  lemma FilledParents(c: Content, p: nat, k: Content, t: nat)
    requires Distinct(c) && CanFill(c, p, k) && t in Ids(c)
    ensures t in Ids(Filled(c, p, k)) && ParentIn(Filled(c, p, k), t, 0) == ParentIn(c, t, 0)
  {
    hide Opened, Closed, Shape, Distinct;
    FilledSlots(c, p, k);
    var n := Subtree(c, p);
    ParentWith(c, p, Opened(n), k, Closed(n), 0, t);
  }

  lemma RestartedParents(c: Content, p: nat, s: string, t: nat)
    requires Distinct(c) && p in Ids(c) && t in Ids(c)
    ensures t in Ids(Restarted(c, p, s)) && ParentIn(Restarted(c, p, s), t, 0) == ParentIn(c, t, 0)
  {
    hide Distinct;
    RestartedSlots(c, p, s);
    DistinctKids(c, p);
    var n := Subtree(c, p);
    ParentWith(c, p, s, n.kids, n.etag, 0, t);
  }

  lemma RemovedParents(c: Content, p: nat, x: nat, t: nat)
    requires CanRemove(c, p, x) && t in Ids(Removed(c, p, x))
    ensures t in Ids(c) && ParentIn(Removed(c, p, x), t, 0) == ParentIn(c, t, 0)
  {
    hide Edit.Remove, Shape, Distinct, ParentIn, Gone;
    assert Distinct(c);
    NoZero(c);
    RemovedSlots(c, p, x);
    BelowDistinct(c, p);
    if p != 0 {
      var n := Subtree(c, p);
      forall y | y in Ids(n.kids) && y in Ids(Edit.Remove(n.kids, x)) ensures ParentIn(Edit.Remove(n.kids, x), y, p) == ParentIn(n.kids, y, p) {
        ParentRemove(n.kids, x, p, y);
      }
      ParentWith(c, p, n.stag, Edit.Remove(n.kids, x), n.etag, 0, t);
    } else {
      ParentRemove(c, x, 0, t);
    }
  }

  /** No call gives an element another parent, and no slot comes back to the document. */
  lemma ParentKept(s: State, op: Op, t: nat)
    requires StateOk(s) && Allowed(s, op) && t < s.free
    ensures s.free <= Apply(s, op).free
    ensures t in Ids(Apply(s, op).tree) ==> t in Ids(s.tree) && ParentIn(Apply(s, op).tree, t, 0) == ParentIn(s.tree, t, 0)
    ensures t in Ids(s.tree) && !op.Remove? ==> t in Ids(Apply(s, op).tree)
  {
    hide Shape, Distinct, ParentIn, Added, Filled, Removed, Restarted, WriteIn, Within, Strays, NewTag, StagOf, KidsOf, EtagOf, DataOf, PreviousOf, CursorOk;
    if !s.strayed {
      match op
      case Add(_, _, _) => AddKeepsParent(s, op, t);
      case SetText(_, _, _) => TextKeepsParent(s, op, t);
      case Remove(below) =>
        if Target(s, below) != 0 {
          TargetIn(s, below);
          var p := if below then s.main else s.parent;
          RemovedSlots(s.tree, p, Target(s, below));
          if t in Ids(Apply(s, op).tree) { RemovedParents(s.tree, p, Target(s, below), t); }
        }
      case SetAttr(below, _, _, _) =>
        var p := Target(s, below);
        if p != 0 && s.main != 0 {
          TargetIn(s, below);
          RestartedSlots(s.tree, p, NewTag(s.tree, p, WriteOf(s, op)));
          if t in Ids(s.tree) { RestartedParents(s.tree, p, NewTag(s.tree, p, WriteOf(s, op)), t); }
        }
      case Move(_, _, _) =>
    }
  }

  lemma AddKeepsParent(s: State, op: Op, t: nat)
    requires StateOk(s) && !s.strayed && op.Add? && t < s.free
    ensures s.free <= Apply(s, op).free
    ensures t in Ids(Apply(s, op).tree) ==> t in Ids(s.tree) && ParentIn(Apply(s, op).tree, t, 0) == ParentIn(s.tree, t, 0)
    ensures t in Ids(s.tree) ==> t in Ids(Apply(s, op).tree)
  {
    hide StagOf, KidsOf, EtagOf, Added, Shape, Distinct, Ids, Below, Top, ShapedTags, CursorOk, ParentIn;
    var f := op.f;
    if !(f.child && s.main == 0) {
      CursorParent(s.tree, s.parent, s.main, s.child);
      var p, rel := if f.child then s.main else s.parent, if f.child then s.child else s.main;
      var w, st, k, et := WhereFor(s.tree, p, rel, f.insert), StagOf(op.name, op.value, f), KidsOf(op.value, f), EtagOf(op.name, op.value);
      CursorRel(s);
      AddFits(s.tree, p, rel, f.insert, s.free, op.name, op.value, f);
      AddedSlots(s.tree, p, w, s.free, st, k, et);
      if t in Ids(s.tree) { AddedParents(s.tree, p, w, s.free, st, k, et, t); }
    }
  }

  lemma TextKeepsParent(s: State, op: Op, t: nat)
    requires StateOk(s) && !s.strayed && op.SetText?
    ensures t in Ids(Apply(s, op).tree) <==> t in Ids(s.tree)
    ensures t in Ids(s.tree) ==> ParentIn(Apply(s, op).tree, t, 0) == ParentIn(s.tree, t, 0)
  {
    hide DataOf, Shape, Distinct, Filled, CursorOk, ParentIn;
    var p := Target(s, op.below);
    if p != 0 && Ids(Below(s.tree, p)) == {} {
      TargetIn(s, op.below);
      DataShape(op.data, op.g);
      SubtreeShape(s.tree, p);
      FilledSlots(s.tree, p, DataOf(op.data, op.g));
      if t in Ids(s.tree) { FilledParents(s.tree, p, DataOf(op.data, op.g), t); }
    }
  }

  // ---- Runs ----

  /** Over a run an element that is in the document at the end has had its parent all along. */
  lemma {:induction false} RunKeepsParent(s: State, ops: seq<Op>, t: nat)
    requires StateOk(s) && AllAllowed(s, ops) && t < s.free && t in Ids(ApplyAll(s, ops).tree)
    ensures t in Ids(s.tree) && ParentIn(ApplyAll(s, ops).tree, t, 0) == ParentIn(s.tree, t, 0)
    decreases |ops|
  {
    hide StateOk, Allowed, Apply, ParentIn;
    if ops != [] {
      ParentKept(s, ops[0], t);
      ApplyOk(s, ops[0]);
      RunKeepsParent(Apply(s, ops[0]), ops[1..], t);
    }
  }

  lemma {:induction false} TopParent(k: Content, t: nat, q: nat)
    requires Distinct(k) && t in Top(k)
    ensures ParentIn(k, t, q) == q && t in Ids(k)
    decreases k
  {
    match k
    case Mark(_, _, r) => TopParent(r, t, q);
    case Elem(_, i, _, _, _, r) => if i != t { TopParent(r, t, q); }
  }

  lemma {:induction false} ChildParent(c: Content, p: nat, q: nat, t: nat)
    requires Distinct(c) && p in Ids(c) && t in Top(Subtree(c, p).kids)
    ensures ParentIn(c, t, q) == p
    decreases c
  {
    SubtreeIds(c, p);
    TopParent(Subtree(c, p).kids, t, p);
    match c
    case Mark(_, _, r) => ChildParent(r, p, q, t);
    case Elem(_, i, _, k, _, r) =>
      if i != p {
        if p in Ids(k) {
          SubtreeIds(k, p);
          ChildParent(k, p, i, t);
        } else {
          SubtreeIds(r, p);
          ChildParent(r, p, q, t);
        }
      }
  }

  lemma BelowParent(c: Content, p: nat, t: nat)
    requires Distinct(c) && IsParent(c, p) && t in Top(Below(c, p))
    ensures ParentIn(c, t, 0) == p && t in Ids(c)
  {
    BelowIds(c, p);
    TopSeqFacts(Below(c, p));
    if p == 0 { TopParent(c, t, 0); } else { ChildParent(c, p, 0, t); }
  }

  /** What was saved comes back after any run of calls that has not removed the element: the parent, main and child
      position are those at the time of `SavePos`. */
  lemma RestoreAfterRun(s: State, ops: seq<Op>, parent: nat, main: nat, child: nat, doc: string, elem: Elems, free: nat)
    requires StateOk(s) && AllAllowed(s, ops) && CursorOk(s.tree, parent, main, child)
    requires Represents(doc, elem, free, ApplyAll(s, ops).tree)
    requires var v := ToSave(parent, main, child); v.iPos == 0 || v.iPos in Ids(ApplyAll(s, ops).tree)
    ensures InIndex(elem, ToSave(parent, main, child)) && Restored(elem, ToSave(parent, main, child)) == (parent, main, child)
  {
    hide ApplyAll, AllAllowed, Shape, Linked, Offsets, ParentIn, Distinct, Below;
    var c := ApplyAll(s, ops).tree;
    RepresentsParts(doc, elem, free, c);
    LinkedInRange(elem, c);
    NoZero(c);
    CursorParent(s.tree, parent, main, child);
    if child != 0 {
      BelowParent(s.tree, main, child);
      KeptLink(s, ops, elem, child);
      ParentPlace(c, child, 0);
      if main != 0 {
        BelowParent(s.tree, parent, main);
        KeptLink(s, ops, elem, main);
      }
    } else if main != 0 {
      BelowParent(s.tree, parent, main);
      KeptLink(s, ops, elem, main);
      ParentPlace(c, main, 0);
      if parent != 0 { ParentLink(elem, c, parent, 0); }
    } else if parent != 0 {
      ParentLink(elem, c, parent, 0);
    }
  }

  lemma KeptLink(s: State, ops: seq<Op>, elem: Elems, t: nat)
    requires StateOk(s) && AllAllowed(s, ops) && t in Ids(s.tree) && t in Ids(ApplyAll(s, ops).tree) && Chain(elem, ApplyAll(s, ops).tree, 0)
    ensures t < |elem| && elem[t].parent == ParentIn(s.tree, t, 0) == ParentIn(ApplyAll(s, ops).tree, t, 0)
  {
    hide ApplyAll, AllAllowed, StateOk, ParentIn, Chain;
    SlotBelow(s, t);
    RunKeepsParent(s, ops, t);
    ParentLink(elem, ApplyAll(s, ops).tree, t, 0);
  }

  /** What a call leaves of the map. */
  function SavedStep(m: map<string, Saved>, s: State, op: Op): map<string, Saved> {
    if op.Remove? && !s.strayed && Target(s, op.below) != 0 then SavedIn(m, Apply(s, op).tree) else m
  }

  function SavedRun(m: map<string, Saved>, s: State, ops: seq<Op>): map<string, Saved>
    decreases |ops|
  {
    if ops == [] then m else SavedRun(SavedStep(m, s, ops[0]), Apply(s, ops[0]), ops[1..])
  }

  lemma StepSaved(m: map<string, Saved>, s: State, op: Op)
    requires StateOk(s) && Allowed(s, op) && Alive(m, s.tree)
    ensures SavedStep(m, s, op) == SavedIn(m, Apply(s, op).tree)
  {
    hide StateOk, Apply, Allowed;
    forall x | x in m && m[x].iPos in Ids(s.tree) && m[x].iPos !in Ids(Apply(s, op).tree)
      ensures op.Remove? && !s.strayed && Target(s, op.below) != 0
    {
      assert AliveAt(m[x], s.tree);
      SlotBelow(s, m[x].iPos);
      ParentKept(s, op, m[x].iPos);
      NothingGone(s, op);
    }
  }

  lemma SlotBelow(s: State, t: nat)
    requires StateOk(s) && t in Ids(s.tree)
    ensures t < s.free
  {
  }

  lemma NothingGone(s: State, op: Op)
    ensures op.Remove? && (s.strayed || Target(s, op.below) == 0) ==> Apply(s, op).tree == s.tree
  {
  }

  lemma LaterIn(m: map<string, Saved>, c: Content, d: Content)
    requires forall x :: x in m && m[x].iPos in Ids(d) ==> m[x].iPos in Ids(c)
    ensures SavedIn(SavedIn(m, c), d) == SavedIn(m, d)
  {
  }

  /** Over a run of calls exactly the names vanish whose elements have been removed. */
  lemma {:induction false} SavedAfterRun(m: map<string, Saved>, s: State, ops: seq<Op>)
    requires StateOk(s) && AllAllowed(s, ops) && Alive(m, s.tree)
    ensures SavedRun(m, s, ops) == SavedIn(m, ApplyAll(s, ops).tree)
    decreases |ops|
  {
    hide StateOk, Apply, Allowed, SavedStep;
    if ops != [] {
      var u := Apply(s, ops[0]);
      StepSaved(m, s, ops[0]);
      ApplyOk(s, ops[0]);
      SavedAfterRun(SavedIn(m, u.tree), u, ops[1..]);
      forall x | x in m && m[x].iPos in Ids(ApplyAll(s, ops).tree) ensures m[x].iPos in Ids(u.tree) {
        if m[x].iPos != 0 {
          SlotBelow(s, m[x].iPos);
          ParentKept(s, ops[0], m[x].iPos);
        } else {
          FreeNotZero(s);
          ParentKept(s, ops[0], 0);
        }
        RunKeepsParent(u, ops[1..], m[x].iPos);
      }
      LaterIn(m, u.tree, ApplyAll(s, ops).tree);
    } else {
      assert SavedIn(m, s.tree) == m;
    }
  }

  lemma FreeNotZero(s: State)
    requires StateOk(s)
    ensures 0 < s.free
  {
  }
}
