/** `CMarkup`: the document text, the element index over it, and the edits that keep them in step. */
module Markup {
  import opened Chars
  import opened Token
  import opened Content
  import opened Index
  import opened Edit
  import opened Links
  import opened Effect
  import opened Represent
  import opened Position
  import opened AddElem
  import opened Cursor
  import opened Tags
  import opened NewElem
  import opened SetData
  import opened RemoveElem
  import opened ParseStack
  import opened ParseIndex
  import opened ParseState
  import opened Repairs
  import opened GetData
  import opened Navigate
  import opened Runs
  import opened InStep
  import opened SetAttrib
  import opened Calls
  import NewTexts
  import Entities
  import Escaping
  import CData
  import opened ElemPosTrees
  import SavedPositions
  import SavedRuns

  class CMarkup {
    var doc: string
    var elem: Elems
    var iPosParent: nat
    var iPos: nat
    var iPosChild: nat
    var iPosFree: nat
    var iPosDeleted: nat
    var savedPos: SavedPositions.SavedPosMap
    ghost var tree: Content

    /** The index represents the document, and the positions are elements where they should be. */
    ghost predicate Valid()
      reads this
    {
      && Represents(doc, elem, iPosFree, tree) && Marked(elem, iPosFree, tree) && 8 <= |elem|
      && CursorOk(tree, iPosParent, iPos, iPosChild)
    }

    /** Every saved position is that of an element of the document. */
    ghost predicate Saving()
      reads this, savedPos, savedPos.pTable, savedPos.Buckets()
    {
      savedPos.Valid() && SavedPositions.Alive(savedPos.saved, tree)
    }

    lemma ViewOk()
      requires Valid()
      ensures StateOk(View())
    {
      hide Represents, Marked, CursorOk, Distinct, Shape, SlotsBelow;
      RepresentsParts(doc, elem, iPosFree, tree);
      RepresentsSlots(doc, elem, iPosFree, tree);
    }

    lemma TextOk()
      requires Valid()
      ensures Represents(doc, elem, iPosFree, tree) && doc == Render(tree)
    {
      hide Marked, CursorOk, Distinct, Shape, SlotsBelow, Linked, Offsets;
    }

    /** Saved positions stay as they are for as long as no element goes and the table is not touched. */
    twostate lemma StillSaving()
      requires old(Saving()) && savedPos == old(savedPos) && unchanged(savedPos, savedPos.pTable) && unchanged(old(savedPos.Buckets()))
      requires Ids(old(tree)) <= Ids(tree)
      ensures Saving() && savedPos.saved == old(savedPos.saved)
    {
      hide SavedPositions.Stores, Ids;
      assert savedPos.Buckets() == old(savedPos.Buckets());
      assert savedPos.Valid();
    }

    /** The content, the cursor and the next free slot. */
    ghost function View(): State
      reads this
    {
      State(tree, iPosParent, iPos, iPosChild, iPosFree, false)
    }

    /** The traversal step of `x_Adjust`: from the position of element `from` to its first child
        (unless `done`), to its next sibling, or up to the next sibling of an element around it or
        to `iPosTop`, whichever comes first.  The result says what is left to do there. */
    method NextPosition(from: nat, iPosTop: nat, done: bool, ghost links: Elems, ghost c0: Content, ghost up0: Path, ghost d0: nat, ghost s: int)
      returns (i: nat, ghost c: Content, ghost up: Path, ghost d: nat)
      requires SameLinks(elem, links) && Walking(links, c0, up0, d0) && from == c0.id && iPosTop == Above(up0, d0)
      ensures Walking(links, c, up, d) && Base(up) == Base(up0) && InPath(c0, up0, |elem|) && InPath(c, up, |elem|)
      ensures i == iPosTop ==>
                d == 0 && FirstId(c.rest) == 0 && ParentOf(up) == i && Left(c, up) <= Left(c0, up0) &&
                Remaining(elem, c, up, 0, true, s) == Remaining(elem, c0, up0, d0, done, s)
      ensures i != iPosTop ==>
                i == c.id && Above(up, d) == iPosTop && i < |elem| &&
                Weight(c.kids) + Left(c, up) < (if done then 0 else Weight(c0.kids)) + Left(c0, up0) &&
                Remaining(AddStart(elem, i, s), c, up, d, false, s) == Remaining(elem, c0, up0, d0, done, s)
    {
      hide OnPath, InPath, Tight, Depth, Left, Weight, Above, Remaining, SameLinks;
      c, up, d := c0, up0, d0;
      i := from;
      LinksAt(links, elem, c, up, d);
      if !done && elem[i].child != 0 {
        StepDown(links, elem, c, up, d, s);
        c, up, d := Skip(c.kids), Under(c, up), d + 1;
        i := elem[i].child;
        LinksAt(links, elem, c, up, d);
        return;
      }
      NoDescent(links, elem, c, up, d, done, s);
      if elem[i].next != 0 {
        StepNext(links, elem, c, up, d, s);
        c := Skip(c.rest);
        i := elem[i].next;
        LinksAt(links, elem, c, up, d);
        return;
      }
      while true
        invariant Walking(links, c, up, d) && Base(up) == Base(up0) && i == c.id && FirstId(c.rest) == 0 && iPosTop == Above(up, d)
        invariant Remaining(elem, c, up, d, true, s) == Remaining(elem, c0, up0, d0, done, s)
        invariant Left(c, up) <= Left(c0, up0)
        decreases up
      {
        LinksAt(links, elem, c, up, d);
        StepUp(links, elem, c, up, d, s);
        i := elem[i].parent;
        if i == iPosTop {
          return;
        }
        c, up, d := up.node, up.up, d - 1;
        LinksAt(links, elem, c, up, d);
        if elem[i].next != 0 {
          StepNext(links, elem, c, up, d, s);
          c := Skip(c.rest);
          i := elem[i].next;
          LinksAt(links, elem, c, up, d);
          return;
        }
      }
    }

    /** `x_Adjust`: the iterative walk over everything an edit at `at` moves or stretches. */
    method Adjust(at: nat, nShift: int, bAfterPos: bool, ghost tree: Content)
      requires Chain(elem, tree, 0) && Distinct(tree) && at in Ids(tree)
      requires 0 < |elem| && elem[0].startTagLen == 0
      modifies this`elem
      ensures InRange(tree, |old(elem)|) && elem == Adjusted(old(elem), tree, at, nShift, bAfterPos)
    {
      hide OnPath, InPath, Tight, Depth, Left, Weight, Above, Adjusted, ShiftAll, Remaining, SameLinks, AddStart, AddLength;
      hide Chain, Distinct, InRange, Ids;
      ghost var links := elem;
      WalkStart(elem, tree, at, nShift, bAfterPos);
      ghost var c, up := Locate(tree, Root(0), at).0, Locate(tree, Root(0), at).1;
      ghost var goal := Adjusted(elem, tree, at, nShift, bAfterPos);
      ghost var d: nat := 0;            // how many elements around the position were reached on the way down
      ghost var done := bAfterPos;      // the descendants of the position are not to be visited
      ghost var left := (if done then 0 else Weight(c.kids)) + Left(c, up);
      SameLinksRefl(elem);
      LinksAt(links, elem, c, up, 0);
      var i := at;
      var iPosTop := elem[i].parent;
      var bPosFirst := bAfterPos;
      while elem[i].startTagLen != 0
        invariant SameLinks(elem, links) && i < |elem| == |links| && elem[0].startTagLen == 0
        invariant i == 0 ==> elem == goal
        invariant i != 0 ==> Walking(links, c, up, d) && Base(up) == 0 && i == c.id
        invariant i != 0 ==> goal == Remaining(elem, c, up, d, done, nShift)
        invariant i != 0 ==> left == (if done then 0 else Weight(c.kids)) + Left(c, up)
        invariant i != 0 ==> done == (bPosFirst || i == iPosTop)
        invariant i != 0 ==> if i == iPosTop then d == 0 else iPosTop == Above(up, d)
        decreases left
      {
        LinksAt(links, elem, c, up, d);
        var bPosTop := false;
        if i == iPosTop {
          iPosTop := elem[i].parent;
          bPosTop := true;
        }
        i, c, up, d := NextPosition(i, iPosTop, bPosTop || bPosFirst, links, c, up, d, nShift);
        LinksAt(links, elem, c, up, d);
        StepUp(links, elem, c, up, d, nShift);
        bPosFirst := false;
        SameLinksStep(elem, links, i, nShift);
        if i != iPosTop {
          elem := AddStart(elem, i, nShift);
          done, left := false, Weight(c.kids) + Left(c, up);
        } else {
          elem := AddLength(elem, i, nShift);
          if up.Under? {
            c, up, d := up.node, up.up, 0;
            done, left := true, Left(c, up);
          } else {
            left := 0;
          }
        }
      }
      if i != 0 {
        LinksAt(links, elem, c, up, d);
      }
    }
  
    /** `x_ReleasePos`. */
    method ReleasePos(i: nat) returns (iPosNext: nat)
      requires i < |elem|
      modifies this`elem, this`iPosDeleted
      ensures elem == Released(old(elem), old(iPosDeleted), i) && iPosDeleted == i && iPosNext == old(elem)[i].next
      ensures |elem| == |old(elem)| && elem[i].parent == old(elem)[i].parent
    {
      iPosNext := elem[i].next;
      elem := Released(elem, iPosDeleted, i);
      iPosDeleted := i;
    }

    /** `x_ReleaseSubDoc`: depth-first, although the next links it follows are overwritten on the
        way.  `c0` is the sibling list from the element on, below `parent`. */
    method ReleaseSubDoc(top: nat, ghost c0: Content, ghost parent: nat) returns (iPosNext: nat)
      requires c0.Elem? && c0.id == top && Distinct(c0) && parent !in Ids(c0) && parent < |elem|
      requires Chain(elem, c0, parent)
      modifies this`elem, this`iPosDeleted
      ensures InRange(c0, |old(elem)|)
      ensures Pool(elem, iPosDeleted) == ReleaseNode(Pool(old(elem), old(iPosDeleted)), c0)
      ensures iPosNext == old(elem)[top].next
    {
      hide ReleaseUp, ReleaseList, ReleaseNode, Weight, Left, Releasing, Released, OnPath, InPath, Chain, Ids, InRange, Distinct;
      ghost var links := elem;
      ghost var c, up, gone := c0, Root(parent), {};
      ReleaseStart(elem, iPosDeleted, c0, parent);
      ghost var goal := ReleaseNode(Pool(elem, iPosDeleted), c0);
      var i := top;
      while true
        invariant |elem| == |links| && c.Elem? && i == c.id
        invariant Releasing(links, elem, gone, c, up, top) && Ids(c.kids) !! gone && InRange(c.kids, |elem|) && InPath(c, up, |elem|)
        invariant goal == ReleaseUp(ReleaseList(Pool(elem, iPosDeleted), c.kids), c, up)
        decreases Weight(c.kids) + Left(c, up)
      {
        ReleasingLinks(links, elem, gone, c, up, top);
        if elem[i].child != 0 {
          ReleaseDown(links, Pool(elem, iPosDeleted), gone, c, up, top);
          c, up := Skip(c.kids), Under(c, up);
          i := elem[i].child;
        } else {
          NoRelease(Pool(elem, iPosDeleted), c.kids);
          i, iPosNext, c, up, gone := ReleaseUpward(i, links, gone, c, up, top);
          if i == top {
            break;
          }
          i := iPosNext;
        }
      }
    }

    /** The inner loop of `x_ReleaseSubDoc`: releases an element whose descendants are gone, and the
        elements around it for as long as there is no next sibling. */
    method ReleaseUpward(from: nat, ghost links: Elems, ghost gone0: set<nat>, ghost c0: Content, ghost up0: Path, top: nat)
      returns (i: nat, iPosNext: nat, ghost c: Content, ghost up: Path, ghost gone: set<nat>)
      requires c0.Elem? && Releasing(links, elem, gone0, c0, up0, top) && from == c0.id && FirstId(c0.kids) == 0 && InPath(c0, up0, |elem|)
      modifies this`elem, this`iPosDeleted
      ensures |elem| == |old(elem)|
      ensures var goal := ReleaseUp(Pool(old(elem), old(iPosDeleted)), c0, up0);
              if i == top then
                goal == Pool(elem, iPosDeleted) && top < |links| && iPosNext == links[top].next
              else
                && c.Elem? && iPosNext == c.id && Releasing(links, elem, gone, c, up, top)
                && Ids(c.kids) !! gone && InRange(c.kids, |elem|) && InPath(c, up, |elem|)
                && goal == ReleaseUp(ReleaseList(Pool(elem, iPosDeleted), c.kids), c, up)
                && Weight(c.kids) + Left(c, up) < Left(c0, up0)
    {
      hide ReleaseUp, ReleaseList, Weight, Left, Releasing, Released, OnPath, InPath, Ids, InRange;
      ghost var goal := ReleaseUp(Pool(elem, iPosDeleted), c0, up0);
      c, up, gone := c0, up0, gone0;
      i := from;
      while true
        invariant |elem| == |old(elem)| && c.Elem? && i == c.id
        invariant Releasing(links, elem, gone, c, up, top) && InPath(c, up, |elem|)
        invariant goal == ReleaseUp(Pool(elem, iPosDeleted), c, up) && Left(c, up) <= Left(c0, up0)
        decreases up
      {
        ReleasingLinks(links, elem, gone, c, up, top);
        ReleaseStep(links, Pool(elem, iPosDeleted), gone, c, up, top, Pool(Released(elem, iPosDeleted, i), i));
        if up.Under? && FirstId(c.rest) != 0 {
          ReleaseNext(links, Pool(elem, iPosDeleted), gone, c, up, top, Pool(Released(elem, iPosDeleted, i), i), Skip(c.rest));
        }
        iPosNext := ReleasePos(i);
        if iPosNext != 0 || i == top {
          c, gone := Skip(c.rest), gone + {c.id};
          return;
        }
        i := elem[i].parent;
        c, up, gone := up.node, up.up, gone + {c.id};
      }
    }
  
    /** The branch of `x_LinkElem` that links an element in after a sibling. */
    method LinkBehind(p: nat, b: nat, id: nat)
      requires p < |elem| && b < |elem| && id < |elem| && elem[b].next < |elem| && elem[p].child < |elem|
      requires id != p && id != b && id != elem[b].next && id != elem[p].child
      modifies this`elem
      ensures |elem| == |old(elem)| && forall i :: 0 <= i < |elem| ==> elem[i] == LinkedAfter(old(elem), p, b, id, i)
    {
      elem := elem[id := elem[id].(parent := p, first := false, next := elem[b].next)];
      if elem[id].next != 0 {
        elem := elem[elem[id].next := elem[elem[id].next].(prev := id)];
      } else {
        elem := elem[elem[p].child := elem[elem[p].child].(prev := id)];
      }
      elem := elem[b := elem[b].(next := id)];
      elem := elem[id := elem[id].(prev := b)];
      LinkStepsAll(old(elem), p, b, id);
    }

    /** The branch of `x_LinkElem` that links an element in as first child. */
    method LinkInFront(p: nat, id: nat)
      requires p < |elem| && id < |elem| && elem[p].child < |elem|
      requires id != p && id != elem[p].child && (elem[p].child != 0 ==> p != elem[p].child)
      modifies this`elem
      ensures |elem| == |old(elem)| && forall i :: 0 <= i < |elem| ==> elem[i] == LinkedFirst(old(elem), p, id, i)
    {
      elem := elem[id := elem[id].(parent := p, first := true)];
      if elem[p].child != 0 {
        elem := elem[id := elem[id].(next := elem[p].child, prev := elem[elem[p].child].prev)];
        elem := elem[elem[id].next := elem[elem[id].next].(prev := id, first := !elem[elem[id].next].first)];
      } else {
        elem := elem[id := elem[id].(next := 0, prev := id)];
      }
      elem := elem[p := elem[p].(child := id)];
    }

    /** `x_LinkElem`: `id` becomes the child of `p` after `iPosBefore`, or its first child.  `s` are
        the children so far, and `j` is the place of the new one. */
    method LinkElem(p: nat, iPosBefore: nat, id: nat, ghost s: seq<nat>, ghost j: nat)
      requires CanLink(elem, p, s, j, id) && iPosBefore == (if j == 0 then 0 else s[j - 1])
      modifies this`elem
      ensures ListOk(elem, p, InsertAt(s, j, id)) && Relinked(old(elem), elem, p, s, id) && |elem| == |old(elem)|
      ensures elem[id] == old(elem)[id].(parent := p, next := elem[id].next, prev := elem[id].prev, first := elem[id].first,
                                         level := if p == 0 then old(elem)[id].level else old(elem)[p].level + 1)
    {
      hide ListOk, CanLink, DistinctSlots, Relinked, LinkedAfter, LinkedFirst;
      LinkReady(elem, p, s, j, id);
      if iPosBefore != 0 {
        LinkBehind(p, iPosBefore, id);
        LinkAfterOk(old(elem), elem, p, s, j, id);
        LinkAfterNew(old(elem), p, iPosBefore, id);
      } else {
        LinkInFront(p, id);
        LinkFirstOk(old(elem), elem, p, s, id);
        LinkFirstNew(old(elem), p, id);
      }
      if p != 0 {
        LinkLevel(old(elem), elem, p, InsertAt(s, j, id), s, id);
        elem := elem[id := elem[id].(level := elem[p].level + 1)];
      }
    }

    /** `x_UnlinkElem` up to its last step: the neighbours of `t` are linked around it. */
    method LinkAround(t: nat) returns (iPosPrev: nat)
      requires t < |elem| && elem[t].parent < |elem| && elem[t].next < |elem| && elem[t].prev < |elem|
      requires elem[elem[t].parent].child < |elem| && t != elem[t].parent
      requires elem[t].next != 0 ==> elem[t].next != t && elem[t].next != elem[t].parent
      requires !elem[t].first ==> elem[t].prev != t && elem[elem[t].parent].child != t && elem[t].prev != elem[t].parent
      modifies this`elem
      ensures |elem| == |old(elem)| && forall i :: 0 <= i < |elem| ==> elem[i] == Bypassed(old(elem), t, i)
      ensures iPosPrev == if old(elem)[t].first then 0 else old(elem)[t].prev
    {
      iPosPrev := 0;
      if elem[t].first {
        if elem[t].next != 0 {
          elem := elem[elem[t].parent := elem[elem[t].parent].(child := elem[t].next)];
          elem := elem[elem[t].next := elem[elem[t].next].(prev := elem[t].prev, first := true)];
        } else {
          elem := elem[elem[t].parent := elem[elem[t].parent].(child := 0)];
        }
      } else {
        iPosPrev := elem[t].prev;
        elem := elem[iPosPrev := elem[iPosPrev].(next := elem[t].next)];
        if elem[t].next != 0 {
          elem := elem[elem[t].next := elem[elem[t].next].(prev := iPosPrev)];
        } else {
          elem := elem[elem[elem[t].parent].child := elem[elem[elem[t].parent].child].(prev := iPosPrev)];
        }
      }
    }

    /** `x_UnlinkElem`: element `t`, the child of `p` at place `j`, goes from the list, and it and its
        descendants are released.  `c` is the sibling list from `t` on. */
    method UnlinkElem(t: nat, ghost p: nat, ghost s: seq<nat>, ghost j: nat, ghost c: Content)
      returns (iPosPrev: nat, ghost mid: Elems)
      requires ListOk(elem, p, s) && DistinctSlots(s) && p !in s && j < |s| && s[j] == t
      requires j > 0 ==> s[j - 1] !in Ids(c)
      requires c.Elem? && c.id == t && Distinct(c) && p !in Ids(c) && Chain(elem, c, p)
      modifies this`elem, this`iPosDeleted
      ensures iPosPrev == if j == 0 then 0 else s[j - 1]
      ensures ListOk(mid, p, RemoveAt(s, j)) && Relinked(old(elem), mid, p, s, t) && mid[t] == old(elem)[t] && InRange(c, |mid|)
      ensures Pool(elem, iPosDeleted) == ReleaseNode(Pool(mid, old(iPosDeleted)), c)
    {
      hide ListOk, DistinctSlots, Bypassed, Relinked, ReleaseNode;
      UnlinkReady(elem, p, s, j);
      iPosPrev := LinkAround(t);
      BypassOk(old(elem), elem, p, s, j);
      mid := elem;
      BypassChain(old(elem), elem, p, c);
      var _ := ReleaseSubDoc(t, c, p);
    }

    // ---- x_InsertNew ----

    /** `x_StrInsertReplace`. */
    method DocChange(nLeft: int, nReplace: nat, strInsert: string)
      requires 0 <= nLeft <= |doc|
      modifies this`doc
      ensures doc == SpliceAt(old(doc), nLeft, nReplace, strInsert)
    {
      doc := doc[..nLeft] + strInsert + doc[if nLeft + nReplace <= |doc| then nLeft + nReplace else |doc|..];
    }

    /** `x_GetTagName`. */
    method GetTagName(i: nat) returns (strTagName: string)
      requires i < |elem| && 0 <= elem[i].nStart < |doc|
      ensures strTagName == if i == 0 then "" else NameFrom(doc, elem[i].nStart + 1)
    {
      if i == 0 {
        return "";
      }
      var token := new TokenPos(doc);
      token.nNext := elem[i].nStart + 1;
      var found := token.FindName();
      strTagName := if found then token.TokenText() else "";
    }

    /** The part of `x_InsertNew` that chooses the place of a new element in the text. */
    method StartOfNew(iPosParent: nat, iPosRel: nat, insert: bool) returns (nStart: int)
      requires Represents(doc, elem, iPosFree, tree) && IsParent(tree, iPosParent)
      requires iPosRel != 0 ==> iPosRel in Top(Below(tree, iPosParent))
      ensures var w := WhereFor(tree, iPosParent, iPosRel, insert);
              nStart == Opening(tree, iPosParent) + InsertOffset(Below(tree, iPosParent), w) - (if w.Only? then |EOL| else 0)
    {
      hide Represents, Opened, Closed, Subtree, Top, Before, After, TagAfter, InsertOffset, Opening, RawStart;
      ghost var w := WhereFor(tree, iPosParent, iPosRel, insert);
      ParentFacts(doc, elem, iPosFree, tree, iPosParent);
      RawStartIs(doc, elem, iPosFree, tree, iPosParent, iPosRel, insert);
      StartIs(doc, elem, iPosFree, tree, iPosParent, w);
      var bEmptyParentTag := iPosParent != 0 && elem[iPosParent].IsEmptyElement();
      if iPosRel != 0 {
        nStart := elem[iPosRel].nStart;
        if !insert {
          nStart := nStart + elem[iPosRel].nLength;
        }
      } else if bEmptyParentTag {
        nStart := elem[iPosParent].StartContent() - (if elem[iPosParent].nonEnded then 0 else 1);
      } else if insert {
        nStart := elem[iPosParent].StartContent();
      } else {
        nStart := elem[iPosParent].StartAfter() - elem[iPosParent].endTagLen;
      }
      assert nStart == RawStart(tree, iPosParent, w);
      if !bEmptyParentTag {
        var token := new TokenPos(doc);
        nStart := token.WhitespaceToTag(nStart);
      }
    }

    /** The part of `x_InsertNew` that finds the sibling in front of the new element. */
    method Predecessor(iPosParent: nat, rel: nat, insert: bool) returns (iPosRel: nat)
      requires Represents(doc, elem, iPosFree, tree) && IsParent(tree, iPosParent)
      requires rel != 0 ==> rel in Top(Below(tree, iPosParent))
      ensures var s, j := TopSeq(Below(tree, iPosParent)), PlaceOf(Below(tree, iPosParent), WhereFor(tree, iPosParent, rel, insert));
              j <= |s| && iPosRel == if j == 0 then 0 else s[j - 1]
    {
      hide Linked, Offsets, Shape, PlaceOf;
      PredecessorIs(elem, tree, iPosParent, rel, insert);
      iPosRel := rel;
      if iPosRel != 0 {
        if insert {
          if !elem[iPosRel].first {
            iPosRel := elem[iPosRel].prev;
          } else {
            iPosRel := 0;
          }
        }
      } else if !insert {
        if elem[iPosParent].child != 0 {
          iPosRel := elem[elem[iPosParent].child].prev;
        }
      }
    }

    /** The part of `x_InsertNew` that splits an empty parent element. */
    method SplitParent(iPosParent: nat, strMeta: string, noLines: bool) returns (strFormat: string, nInsertAt: int, nReplace: nat)
      requires Represents(doc, elem, iPosFree, tree) && iPosParent in Ids(tree) && Subtree(tree, iPosParent).Elem? && Subtree(tree, iPosParent).etag == ""
      modifies this`elem
      ensures var n := Subtree(tree, iPosParent);
              && strFormat == ((if noLines then ">" else ">" + EOL) + strMeta) + "</" + WordOf(n.stag)
              && nInsertAt == |Before(tree, iPosParent)| + |n.stag| - 2 && nReplace == 1 && 0 <= nInsertAt && nInsertAt + 1 <= |doc|
      ensures elem == WithTags(old(elem), tree, iPosParent)
    {
      hide Represents, WordOf, NameFrom, Before, Opened, Closed;
      SplitRecord(doc, elem, iPosFree, tree, iPosParent);
      var strTagName := GetTagName(iPosParent);
      strFormat := if noLines then ">" else ">" + EOL;
      strFormat := strFormat + strMeta;
      strFormat := strFormat + "</";
      strFormat := strFormat + strTagName;
      nInsertAt := elem[iPosParent].StartAfter() - (if elem[iPosParent].nonEnded then 1 else 2);
      nReplace := 1 - (if elem[iPosParent].nonEnded then 1 else 0);
      elem := elem[iPosParent := elem[iPosParent].(
                startTagLen := elem[iPosParent].startTagLen - (if elem[iPosParent].nonEnded then 0 else 1),
                endTagLen := 3 + |strTagName|, nonEnded := false)];
    }

    /** `x_InsertNew` for a new element: puts its text into the document. */
    method InsertNew(iPosParent: nat, rel: nat, insert: bool, strNew: string)
      returns (nReplace: nat, iPosRel: nat, nStart: int, strMeta: string)
      requires Represents(doc, elem, iPosFree, tree) && IsParent(tree, iPosParent)
      requires rel != 0 ==> rel in Top(Below(tree, iPosParent))
      modifies this`elem, this`doc
      ensures var w := WhereFor(tree, iPosParent, rel, insert);
              && doc == NewText(tree, iPosParent, w, strNew) && |strMeta| - nReplace == |doc| - |old(doc)|
              && nStart == Opening(tree, iPosParent) + InsertOffset(Below(tree, iPosParent), w)
      ensures var s, j := TopSeq(Below(tree, iPosParent)), PlaceOf(Below(tree, iPosParent), WhereFor(tree, iPosParent, rel, insert));
              j <= |s| && iPosRel == if j == 0 then 0 else s[j - 1]
      ensures elem == WithTags(old(elem), tree, iPosParent)
    {
      hide Represents, WordOf, NameFrom, Before, Opened, Closed, InsertOffset, Opening, Top, PlaceOf, Ahead, Subtree, NewText, WithTags, SpliceAt;
      ghost var w := WhereFor(tree, iPosParent, rel, insert);
      ParentFacts(doc, elem, iPosFree, tree, iPosParent);
      RawStartIs(doc, elem, iPosFree, tree, iPosParent, rel, insert);
      InsertInside(doc, elem, iPosFree, tree, iPosParent, w);
      NewTextIs(doc, elem, iPosFree, tree, iPosParent, w, strNew);
      var bEmptyParentTag := iPosParent != 0 && elem[iPosParent].IsEmptyElement();
      var bNoContentParentTags := iPosParent != 0 && elem[iPosParent].ContentLen() == 0;
      nStart := StartOfNew(iPosParent, rel, insert);
      iPosRel := Predecessor(iPosParent, rel, insert);
      strMeta := strNew;
      if bEmptyParentTag || bNoContentParentTags {
        nStart := nStart + |EOL|;
      }
      strMeta := strMeta + EOL;
      nReplace := 0;
      var nInsertAt := nStart;
      if bEmptyParentTag {
        strMeta, nInsertAt, nReplace := SplitParent(iPosParent, strMeta, false);
      } else if bNoContentParentTags {
        strMeta := EOL + strMeta;
        nInsertAt := elem[iPosParent].StartContent();
      }
      SpliceLen(doc, nInsertAt, nReplace, strMeta);
      DocChange(nInsertAt, nReplace, strMeta);
    }

    // ---- x_AddElem ----

    /** `x_AllocElemPos`: the records grow as those of `ElemPosTree` do, by half or to as many as asked for, but by no more
        than one full segment. */
    method AllocElemPos(nNewSize: nat)
      modifies this`elem
      ensures GrownTo(old(elem), elem, AllocSize(|old(elem)|, iPosFree, nNewSize))
    {
      var n := AllocSize(|elem|, iPosFree, nNewSize);
      AllocMore(|elem|, iPosFree, nNewSize);
      elem := elem + seq(n - |elem|, _ => BLANK);
    }

    /** `x_GetFreePos`. */
    method GetFreePos() returns (i: nat)
      requires 0 < iPosFree <= |elem| && 8 <= |elem|
      modifies this`elem, this`iPosFree
      ensures i == old(iPosFree) && iPosFree == i + 1 && i < |elem|
      ensures GrownTo(old(elem), elem, FreeSize(|old(elem)|, old(iPosFree)))
    {
      AllocMore(|elem|, iPosFree, 0);
      if iPosFree == |elem| {
        AllocElemPos(0);
      }
      i := iPosFree;
      iPosFree := iPosFree + 1;
    }

    /** The part of `x_AddElem` that writes the new element and its lengths. */
    method BuildElem(id: nat, pName: string, pValue: string, f: NodeFlags) returns (strMeta: string)
      requires id < |elem|
      modifies this`elem
      ensures strMeta == StagOf(pName, pValue, f) + Render(KidsOf(pValue, f)) + EtagOf(pName, pValue)
      ensures elem == old(elem)[id := old(elem)[id].(nLength := |strMeta|, startTagLen := |StagOf(pName, pValue, f)|, endTagLen := |EtagOf(pName, pValue)|)]
    {
      hide Escaping.Escape, CData.Sections;
      if pValue == "" {
        strMeta := "<" + pName;
        if f.xhtmlSpace {
          strMeta := strMeta + " />";
        } else {
          strMeta := strMeta + "/>";
        }
        elem := elem[id := elem[id].(nLength := |strMeta|, startTagLen := |strMeta|, endTagLen := 0)];
      } else {
        var strValue;
        if f.cdata {
          strValue := CData.EncodeCDATASection(pValue);
        } else {
          strValue := Escaping.EscapeText(pValue, f.quotes, f.refs);
        }
        strMeta := "<" + pName + ">" + strValue;
        strMeta := strMeta + ("</" + pName + ">");
        elem := elem[id := elem[id].(nLength := |pName| * 2 + |strValue| + 5, endTagLen := |pName| + 3, startTagLen := |pName| + 2)];
      }
    }

    /** The part of `x_AddElem` up to `x_LinkElem`: the element is in the text and in the list below
        `parent`, and the records are those of the old text. */
    method EnterElem(parent: nat, rel: nat, id: nat, pName: string, pValue: string, f: NodeFlags) returns (nShift: int, ghost a: Elems)
      requires Represents(doc, elem, iPosFree, tree) && IsParent(tree, parent) && (rel != 0 ==> rel in Top(Below(tree, parent)))
      requires id != 0 && id !in Ids(tree) && id < |elem|
      modifies this`doc, this`elem
      ensures var w := WhereFor(tree, parent, rel, f.insert);
              && Represents(old(doc), a, iPosFree, tree)
              && CanAdd(tree, parent, w, id, StagOf(pName, pValue, f), KidsOf(pValue, f), EtagOf(pName, pValue))
              && Entered(a, elem, tree, parent, w, id, StagOf(pName, pValue, f), KidsOf(pValue, f), EtagOf(pName, pValue))
              && doc == NewText(tree, parent, w, StagOf(pName, pValue, f) + Render(KidsOf(pValue, f)) + EtagOf(pName, pValue))
              && nShift == |doc| - |old(doc)| && |elem| == |old(elem)| == |a|
      ensures forall i :: 0 <= i < |a| && i != id ==> a[i] == old(elem)[i]
    {
      hide Represents, StagOf, KidsOf, EtagOf, PlaceOf, Opening, InsertOffset, Relinked, ListOk, NewText, Top, Below, Linked, Distinct, Shape, WithTags, Ids;
      hide Entered, Written, NewRecord, LinkedRecord, Render, Started, CanLink;
      ghost var w := WhereFor(tree, parent, rel, f.insert);
      ghost var s, n, e := StagOf(pName, pValue, f), KidsOf(pValue, f), EtagOf(pName, pValue);
      AddPlaced(doc, elem, iPosFree, tree, parent, rel, f.insert, id, pName, pValue, f);
      RepresentsParts(doc, elem, iPosFree, tree);
      var strMeta := BuildElem(id, pName, pValue, f);
      RepresentsGrows(doc, old(elem), elem, iPosFree, iPosFree, tree);
      RepresentsParts(doc, elem, iPosFree, tree);
      a := elem;
      var nReplace, before, nStart;
      nReplace, before, nStart, strMeta := InsertNew(parent, rel, f.insert, strMeta);
      ParentFacts(old(doc), a, iPosFree, tree, parent);
      elem := elem[id := Started(elem[id], nStart)];
      WrittenIs(a, tree, parent, id, s, n, e, nStart);
      ghost var m := elem;
      ReadyToLink(a, m, tree, parent, id, PlaceOf(Below(tree, parent), w));
      LinkElem(parent, before, id, TopSeq(Below(tree, parent)), PlaceOf(Below(tree, parent), w));
      assert LinkedRecord(m[id], elem[id], parent, m[parent].level) by { LinkedRecordIs(m[id], elem[id], parent, m[parent].level); }
      EnteredBy(old(doc), a, m, elem, iPosFree, tree, parent, w, id, s, n, e);
      nShift := |strMeta| - nReplace;
    }

    /** `x_AddElem` of an element whose name and text are given. */
    method AddElemOf(pName: string, pValue: string, f: NodeFlags) returns (ok: bool)
      requires Valid()
      modifies this`doc, this`elem, this`iPosFree, this`iPosParent, this`iPos, this`iPosChild, this`tree
      ensures Valid() && ok == !(f.child && old(iPos) == 0)
      ensures View() == Apply(old(View()), Add(pName, pValue, f))
    {
      hide Represents, Added, StagOf, KidsOf, EtagOf, Entered, Adjusted, NewText, CanAdd, Render, Chain, InRange, Ids, Distinct, Linked, Shape, Top, Below, Marked;
      if f.child && iPos == 0 {
        return false;
      }
      RepresentsParts(doc, elem, iPosFree, tree);
      CursorParent(tree, iPosParent, iPos, iPosChild);
      var parent, before := iPosParent, iPos;
      if f.child {
        parent, before := iPos, iPosChild;
      }
      FreeFacts(doc, elem, iPosFree, tree);
      var id := GetFreePos();
      RepresentsGrows(doc, old(elem), elem, id, iPosFree, tree);
      ghost var s, n, e, w := StagOf(pName, pValue, f), KidsOf(pValue, f), EtagOf(pName, pValue), WhereFor(tree, parent, before, f.insert);
      var nShift;
      ghost var a;
      nShift, a := EnterElem(parent, before, id, pName, pValue, f);
      AddedText(tree, parent, w, id, s, n, e);
      AddedRepresents(old(doc), a, elem, iPosFree, tree, parent, w, id, s, n, e, nShift);
      CursorAdded(tree, iPosParent, iPos, iPosChild, f.child, w, id, s, n, e);
      AddedMarks(old(elem), a, elem, tree, parent, w, id, s, n, e, nShift);
      tree := Added(tree, parent, w, id, s, n, e);
      Adjust(id, nShift, false, tree);
      if f.child {
        iPosParent, iPos, iPosChild := iPosParent, parent, id;
      } else {
        iPosParent, iPos, iPosChild := parent, id, 0;
      }
      ok := true;
    }

    /** `AddElem`, `InsertElem`, `AddChildElem` and `InsertChildElem`: the new element goes beside the current one, or is
        the new current child beside the one before. */
    method AddElem(pName: string, pValue: string, f: NodeFlags) returns (ok: bool)
      requires Valid() && Saving()
      modifies this`doc, this`elem, this`iPosFree, this`iPosParent, this`iPos, this`iPosChild, this`tree
      ensures Valid() && ok == !(f.child && old(iPos) == 0)
      ensures View() == Apply(old(View()), Add(pName, pValue, f))
      ensures Saving() && savedPos.saved == old(savedPos.saved)
      ensures ok ==>
                var p, rel, t := if f.child then old(iPos) else old(iPosParent), if f.child then old(iPosChild) else old(iPos), if f.child then iPosChild else iPos;
                NewIn(old(tree), tree, p, rel, f.insert, t, StagOf(pName, pValue, f), KidsOf(pValue, f), EtagOf(pName, pValue))
      ensures ok ==>
                var p, rel := if f.child then old(iPos) else old(iPosParent), if f.child then old(iPosChild) else old(iPos);
                NewTexts.TextWith(old(tree), p, rel, f.insert, StagOf(pName, pValue, f) + Render(KidsOf(pValue, f)) + EtagOf(pName, pValue), doc)
      ensures iPosParent == old(iPosParent) && (ok && !f.child ==> iPosChild == 0) && (f.child ==> iPos == old(iPos))
      ensures !ok ==> tree == old(tree) && iPos == old(iPos) && iPosChild == old(iPosChild)
    {
      hide Valid, Saving, NewIn, StagOf, KidsOf, EtagOf, Apply, NewTexts.TextWith, Render, Represents;
      ViewOk();
      TextOk();
      if !(f.child && iPos == 0) {
        NewTexts.TextIs(doc, elem, iPosFree, View(), pName, pValue, f);
      }
      ok := AddElemOf(pName, pValue, f);
      TextOk();
      if ok {
        AddIs(old(View()), pName, pValue, f);
        AddKeepsIds(old(View()), pName, pValue, f);
      } else {
        NoAdd(old(View()), pName, pValue, f);
      }
      StillSaving();
    }

    // ---- x_SetData ----

    /** `x_InsertNew` with MNF_WITHNOLINES and MNF_REPLACE: puts text in the place of the content. */
    method InsertData(p: nat, strText: string) returns (nReplace: nat, strMeta: string)
      requires Represents(doc, elem, iPosFree, tree) && p in Ids(tree) && p != 0
      modifies this`elem, this`doc
      ensures doc == DataText(tree, p, strText) && |strMeta| - nReplace == |doc| - |old(doc)|
      ensures elem == WithTags(old(elem), tree, p)
    {
      hide Represents, WordOf, NameFrom, Before, Opened, Closed, Opening, Ahead, Subtree, DataText, WithTags, SpliceAt;
      ParentFacts(doc, elem, iPosFree, tree, p);
      DataTextIs(doc, elem, iPosFree, tree, p, strText);
      var bEmptyParentTag := elem[p].IsEmptyElement();
      strMeta := strText;
      nReplace := 0;
      var nInsertAt;
      if bEmptyParentTag {
        strMeta, nInsertAt, nReplace := SplitParent(p, strMeta, true);
      } else {
        nInsertAt := elem[p].StartContent();
        nReplace := elem[p].ContentLen();
      }
      SpliceLen(doc, nInsertAt, nReplace, strMeta);
      DocChange(nInsertAt, nReplace, strMeta);
    }

    /** `x_SetData` of an element: SetData and SetChildData. */
    method SetDataOf(p: nat, szData: string, f: NodeFlags) returns (ok: bool)
      requires Valid() && IsParent(tree, p)
      modifies this`doc, this`elem, this`tree
      ensures Valid()
      ensures ok == (p != 0 && Ids(Below(old(tree), p)) == {})
      ensures tree == if ok then Filled(old(tree), p, DataOf(szData, f)) else old(tree)
      ensures !ok ==> doc == old(doc) && elem == old(elem)
      ensures Ids(tree) == Ids(old(tree))
    {
      hide Represents, DataOf, Filled, Adjusted, Render, Chain, InRange, Distinct, Linked, Shape, WithTags, DataText, CData.Sections, Escaping.Escape, Marked;
      RepresentsParts(doc, elem, iPosFree, tree);
      if p == 0 {
        return false;
      }
      NoChildren(elem, tree, p);
      if elem[p].child != 0 {
        return false;
      }
      var strInsert;
      if f.cdata {
        strInsert := CData.EncodeCDATASection(szData);
      } else {
        strInsert := Escaping.EscapeText(szData, f.quotes, f.refs);
      }
      ghost var k := DataOf(szData, f);
      DataShape(szData, f);
      assert strInsert == Render(k) by { DataRender(szData, f); }
      FilledDoc(tree, p, k);
      CursorFilled(tree, p, k, iPosParent, iPos, iPosChild);
      var nReplace, strMeta := InsertData(p, strInsert);
      var nAdjust := |strMeta| - nReplace;
      FilledRepresents(old(doc), old(elem), iPosFree, tree, p, k, nAdjust);
      FilledSlots(tree, p, k);
      tree := Filled(tree, p, k);
      Adjust(p, nAdjust, false, tree);
      elem := AddLength(elem, p, nAdjust);
      RepresentsParts(doc, elem, iPosFree, tree);
      ghost var e := elem;
      if elem[p].illData {
        elem := elem[p := elem[p].(illData := false)];
        IllDataAlone(doc, e, elem, iPosFree, tree, p);
      }
      FilledMarks(old(elem), elem, iPosFree, old(tree), p, k, nAdjust);
      ok := true;
    }

    /** SetData and SetChildData. */
    method SetData(below: bool, szData: string, f: NodeFlags) returns (ok: bool)
      requires Valid() && Saving()
      modifies this`doc, this`elem, this`tree
      ensures Valid() && View() == Apply(old(View()), SetText(below, szData, f))
      ensures ok == (Target(old(View()), below) != 0 && Ids(Below(old(tree), Target(old(View()), below))) == {})
      ensures var t := if below then iPosChild else iPos; if ok then t in Ids(tree) && Below(tree, t) == DataOf(szData, f) else tree == old(tree)
      ensures ok ==> NewTexts.TextFilled(old(tree), if below then iPosChild else iPos, Render(DataOf(szData, f)), doc)
      ensures iPosParent == old(iPosParent) && iPos == old(iPos) && iPosChild == old(iPosChild)
      ensures Saving() && savedPos.saved == old(savedPos.saved)
    {
      hide Saving, NewTexts.TextFilled;
      hide Represents, Filled, DataOf, Shape, Distinct, Linked, Render;
      RepresentsParts(doc, elem, iPosFree, tree);
      TargetParent(tree, iPosParent, iPos, iPosChild);
      ViewOk();
      if Target(View(), below) != 0 && Ids(Below(tree, Target(View(), below))) == {} {
        TextIs(View(), below, szData, f);
        NewTexts.TextOfData(View(), below, szData, f);
      }
      ok := SetDataOf(if below then iPosChild else iPos, szData, f);
      TextOk();
      StillSaving();
    }

    // ---- x_RemoveElem ----

    /** `x_RemoveElem` of a child `t` of `p`. */
    method RemoveElemAt(t: nat, ghost p: nat) returns (iPosPrev: nat)
      requires Represents(doc, elem, iPosFree, tree) && Marked(elem, iPosFree, tree) && IsParent(tree, p) && t in Top(Below(tree, p))
      requires Saving()
      modifies this`doc, this`elem, this`iPosDeleted, this`tree, savedPos`saved, savedPos.Buckets()
      ensures tree == Removed(old(tree), p, t) && Represents(doc, elem, iPosFree, tree) && Marked(elem, iPosFree, tree) && |elem| == |old(elem)|
      ensures var s, j := TopSeq(Below(old(tree), p)), IndexOf(TopSeq(Below(old(tree), p)), t);
              j < |s| && iPosPrev == if j == 0 then 0 else s[j - 1]
      ensures Saving() && savedPos.saved == SavedPositions.SavedIn(old(savedPos.saved), tree)
    {
      hide Represents, Marked, Removed, Top, Below, IndexOf, SlotsBelow;
      hide SavedPositions.Alive, SavedPositions.SavedIn, SavedPositions.Survivors, SavedPositions.Stores;
      FreeFacts(doc, elem, iPosFree, tree);
      iPosPrev := CutElem(t, p);
      SavedPositions.SurvivorsIn(doc, elem, iPosFree, tree, savedPos.saved, old(tree));
      savedPos.CheckSavedPos(elem);
    }

    /** The part of `x_RemoveElem` up to `x_CheckSavedPos`. */
    method CutElem(t: nat, ghost p: nat) returns (iPosPrev: nat)
      requires Represents(doc, elem, iPosFree, tree) && Marked(elem, iPosFree, tree) && IsParent(tree, p) && t in Top(Below(tree, p))
      modifies this`doc, this`elem, this`iPosDeleted, this`tree
      ensures tree == Removed(old(tree), p, t) && Represents(doc, elem, iPosFree, tree) && Marked(elem, iPosFree, tree) && |elem| == |old(elem)|
      ensures var s, j := TopSeq(Below(old(tree), p)), IndexOf(TopSeq(Below(old(tree), p)), t);
              j < |s| && iPosPrev == if j == 0 then 0 else s[j - 1]
    {
      hide Represents, Adjusted, Linked, Distinct, Shape, Removed, RemovedLen, TagAfter, Top, Below, Unlinked, IndexOf, Render, ListOk, DistinctSlots, Ids, Chain, InRange, Relinked, ReleaseNode, Marked;
      RepresentsParts(doc, elem, iPosFree, tree);
      RemovedSpan(doc, elem, iPosFree, tree, p, t);
      RemovedText(tree, p, t);
      LinkedInRange(elem, tree);
      var token := new TokenPos(doc);
      var nAfterEnd := token.WhitespaceToTag(elem[t].StartAfter());
      var nLen := nAfterEnd - elem[t].nStart;
      DocChange(elem[t].nStart, nLen, "");
      Adjust(t, -nLen, true, tree);
      AdjustKeepsLinked(old(elem), tree, t, -nLen, true);
      ReadyToUnlink(elem, tree, p, t);
      ghost var e, q, k := elem, iPosDeleted, Below(tree, p);
      ghost var mid;
      iPosPrev, mid := UnlinkElem(t, p, TopSeq(k), IndexOf(TopSeq(k), t), Subtree(k, t));
      UnlinkedBy(e, mid, elem, tree, p, t, q, iPosDeleted);
      UnlinkedLen(e, mid, elem, tree, p, t);
      RemovedRepresents(old(doc), old(elem), mid, elem, iPosFree, tree, p, t, -nLen);
      RemovedMarks(old(elem), e, mid, elem, iPosFree, tree, p, t, -nLen);
      tree := Removed(tree, p, t);
    }

    /** `RemoveElem`. */
    method RemoveElem() returns (ok: bool)
      requires Valid() && Saving()
      modifies this`doc, this`elem, this`iPosDeleted, this`tree, this`iPosParent, this`iPos, this`iPosChild, savedPos`saved, savedPos.Buckets()
      ensures Valid() && ok == (old(iPos) != 0) && View() == Apply(old(View()), Remove(false))
      ensures ok ==> NoLongerIn(old(tree), tree, iPosParent, old(iPos), iPos) && iPosChild == 0
      ensures ok ==> NewTexts.TextWithout(old(tree), old(iPos), doc)
      ensures iPosParent == old(iPosParent) && (!ok ==> tree == old(tree) && iPos == 0 && iPosChild == old(iPosChild))
      ensures Saving() && savedPos.saved == SavedRuns.SavedStep(old(savedPos.saved), old(View()), Remove(false))
    {
      hide SavedPositions.Alive, SavedPositions.SavedIn, SavedPositions.Stores, Marked, RootOk;
      hide Represents, Removed, Distinct, Shape, Top, Below, IndexOf, Linked, Render;
      hide NoLongerIn, NewTexts.TextWithout;
      ViewOk();
      if iPos != 0 {
        RemoveIs(View(), false);
        RepresentsParts(doc, elem, iPosFree, tree);
        CursorRemoved(tree, iPosParent, iPos, iPosChild, false);
        NewTexts.TextOfRemove(doc, elem, iPosFree, tree, iPosParent, iPos);
        var i := RemoveElemAt(iPos, iPosParent);
        iPosParent, iPos, iPosChild := iPosParent, i, 0;
        RepresentsParts(doc, elem, iPosFree, tree);
        return true;
      }
      return false;
    }

    /** `RemoveChildElem`. */
    method RemoveChildElem() returns (ok: bool)
      requires Valid() && Saving()
      modifies this`doc, this`elem, this`iPosDeleted, this`tree, this`iPosParent, this`iPos, this`iPosChild, savedPos`saved, savedPos.Buckets()
      ensures Valid() && ok == (old(iPosChild) != 0) && View() == Apply(old(View()), Remove(true))
      ensures ok ==> NoLongerIn(old(tree), tree, iPos, old(iPosChild), iPosChild)
      ensures ok ==> NewTexts.TextWithout(old(tree), old(iPosChild), doc)
      ensures iPosParent == old(iPosParent) && iPos == old(iPos) && (!ok ==> tree == old(tree) && iPosChild == 0)
      ensures Saving() && savedPos.saved == SavedRuns.SavedStep(old(savedPos.saved), old(View()), Remove(true))
    {
      hide SavedPositions.Alive, SavedPositions.SavedIn, SavedPositions.Stores, Marked, RootOk;
      hide Represents, Removed, Distinct, Shape, Top, Below, IndexOf, Linked, Render;
      hide NoLongerIn, NewTexts.TextWithout;
      ViewOk();
      if iPosChild != 0 {
        RemoveIs(View(), true);
        RepresentsParts(doc, elem, iPosFree, tree);
        CursorParent(tree, iPosParent, iPos, iPosChild);
        CursorRemoved(tree, iPosParent, iPos, iPosChild, true);
        NewTexts.TextOfRemove(doc, elem, iPosFree, tree, iPos, iPosChild);
        var i := RemoveElemAt(iPosChild, iPos);
        iPosParent, iPos, iPosChild := iPosParent, iPos, i;
        RepresentsParts(doc, elem, iPosFree, tree);
        return true;
      }
      return false;
    }

    // ---- x_ParseDoc ----

    /** A new element behind the last child of its parent. */
    method AppendBehind(p: nat, x: nat, ghost last: nat)
      requires p < |elem| && x < |elem| && elem[p].child < |elem| && elem[p].child != x && p != x && last != x && last < |elem|
      requires elem[p].child != p && last != p && elem[elem[p].child].prev == last && elem[last].next == 0
      modifies this`elem
      ensures |elem| == |old(elem)|
      ensures forall i :: 0 <= i < |elem| ==> elem[i] == LinkedAfter(Unmarked(old(elem), x), p, last, x, i)
    {
      elem := elem[x := elem[x].(parent := p, next := 0)];
      var iPosFirst := elem[p].child;
      var iPosLast := elem[iPosFirst].prev;
      elem := elem[iPosLast := elem[iPosLast].(next := x)];
      elem := elem[x := elem[x].(prev := iPosLast)];
      elem := elem[iPosFirst := elem[iPosFirst].(prev := x)];
      elem := elem[x := elem[x].(first := false, illFormed := false, illData := false, nonEnded := false, deleted := false, level := 0)];
    }

    /** A new element as the only child of its parent. */
    method AppendFirst(p: nat, x: nat)
      requires p < |elem| && x < |elem| && elem[p].child == 0 && p != x
      modifies this`elem
      ensures |elem| == |old(elem)|
      ensures forall i :: 0 <= i < |elem| ==> elem[i] == LinkedFirst(Unmarked(old(elem), x), p, x, i)
    {
      elem := elem[x := elem[x].(parent := p, next := 0)];
      elem := elem[p := elem[p].(child := x)];
      elem := elem[x := elem[x].(prev := x)];
      elem := elem[x := elem[x].(first := true, illFormed := false, illData := false, nonEnded := false, deleted := false, level := 0)];
    }

    /** The part of `x_ParseElem` that links a new element in at the end of its list. */
    method AppendElem(p: nat, x: nat, ghost s: seq<nat>)
      requires CanLink(elem, p, s, |s|, x)
      modifies this`elem
      ensures |elem| == |old(elem)| && x < |elem| && ListOk(elem, p, s + [x]) && Relinked(old(elem), elem, p, s, x)
      ensures elem[x].level == 0 && !elem[x].nonEnded && !elem[x].deleted
    {
      hide ListOk, CanLink, DistinctSlots, Relinked, LinkedAfter, LinkedFirst, Unmarked;
      LinkReady(elem, p, s, |s|, x);
      LastLink(elem, p, s, x);
      ghost var a := Unmarked(elem, x);
      UnmarkedIs(elem, x, p, s);
      if elem[p].child != 0 {
        AppendBehind(p, x, s[|s| - 1]);
        LinkAfterOk(a, elem, p, s, |s|, x);
        LinkAfterNew(a, p, s[|s| - 1], x);
      } else {
        AppendFirst(p, x);
        LinkFirstOk(a, elem, p, s, x);
        LinkFirstNew(a, p, x);
      }
      InsertEnd(s, x);
      UnmarkedRelinked(old(elem), a, elem, p, s, x);
    }

    /** The inner loop of the repair: the children of `x` move up behind it. */
    method Adopt(x: nat, q: nat, iPosFirst: nat, ghost left: Content)
      requires x < |elem| && Distinct(left) && x !in Ids(left) && Chain(elem, left, x) && Rings(elem, left, Tail(left, 0), true)
      requires iPosFirst == FirstId(left) && elem[x].next == 0
      modifies this`elem
      ensures Adopted(old(elem), elem, x, q, left)
    {
      hide Chain, Rings, Tail, Distinct, Ids, Top, Adopting;
      var iPos, iPosChild := x, iPosFirst;
      ghost var r := Skip(left);
      AdoptStart(elem, x, q, left);
      assert 0 !in Top(left) by { NoZero(left); TopSeqFacts(left); }
      while iPosChild != 0
        invariant |elem| == |old(elem)| && Adopting(old(elem), elem, x, q, left, r, iPos, iPosChild)
        decreases Weight(r)
      {
        AdoptStep(old(elem), elem, x, q, left, r, iPos, iPosChild);
        ghost var r' := Skip(r.rest);
        elem := elem[iPosChild := elem[iPosChild].(parent := q, prev := iPos)];
        elem := elem[iPos := elem[iPos].(next := iPosChild)];
        iPos := iPosChild;
        iPosChild := elem[iPosChild].next;
        r := r';
      }
      AdoptEnd(old(elem), elem, x, q, left, r, iPos);
    }

    /** The repair of the innermost open element, which has no end tag. */
    method EndUnended(iPos: nat, ghost st: Stack, ghost left: Content) returns (iPosParent: nat)
      requires Repairing(elem, iPosFree, st, left) && st.Push? && iPos == st.id
      modifies this`elem
      ensures Unended(old(elem), elem, st, left) && iPosParent == TopId(st.below)
    {
      hide Repairing, Unended, Adopted, Chain, Rings, Tail, Distinct, Ids, Top;
      OpenTop(elem, iPosFree, st, left);
      RepairKin(elem, iPosFree, st, left);
      TopSeqFacts(left);
      var iPosChild := elem[iPos].child;
      iPosParent := elem[iPos].parent;
      elem := elem[iPos := elem[iPos].(endTagLen := 0, nonEnded := true, child := 0, nLength := elem[iPos].startTagLen)];
      if elem[iPos].illData {
        elem := elem[iPos := elem[iPos].(illData := false)];
        elem := elem[iPosParent := elem[iPosParent].(illData := true)];
      }
      ghost var m := elem;
      ChainFrame2(old(elem), elem, left, iPos);
      RingsFrame(old(elem), elem, left, Tail(left, 0), true);
      Adopt(iPos, iPosParent, iPosChild, left);
      UnendedBy(old(elem), m, elem, st, left);
    }

    /** The part of the branch of `x_ParseElem` for a start tag that gets a slot and links it in. */
    method NewElem(iPosParent: nat, ghost st: Stack, ghost left: Content, ghost p: nat, ghost q: nat, ghost ill: bool) returns (iPos: nat, ghost a: Elems)
      requires Reading(doc, elem, iPosFree, st, left, p, q, ill) && 8 <= |elem| && iPosParent == TopId(st)
      modifies this`elem, this`iPosFree
      ensures iPos == old(iPosFree) && iPosFree == iPos + 1 && 8 <= |elem| == |a| && 0 < iPos < |elem|
      ensures Reading(doc, a, iPos, st, left, p, q, ill) && Appended(a, elem, st, left, iPos) && iPos !in TopSeq(left) && TopId(st) != iPos
      ensures elem[0] == old(elem)[0].(child := if old(elem)[0].child == 0 then iPos else old(elem)[0].child)
      ensures elem[iPos].level == 0 && !elem[iPos].nonEnded && !elem[iPos].deleted
    {
      hide Reading, Parsing, OpenOk, NodeIn, Alike, CanLink, Relinked, ListOk;
      ReadParts(doc, elem, iPosFree, st, left, p, q, ill);
      iPos := GetFreePos();
      SameAlike(old(elem), elem);
      assert elem[..|old(elem)|][0] == elem[0];
      ReadGrows(doc, old(elem), elem, iPos, st, left, p, q, ill);
      ReadParts(doc, elem, iPos, st, left, p, q, ill);
      ReadyToAppend(elem, iPos, st, left);
      a := elem;
      AppendElem(iPosParent, iPos, TopSeq(left));
      VirtualAppended(a, elem, iPos, st, left);
    }

    /** The branch of `x_ParseElem` for a start tag. */
    method StartElem(nStart: nat, nLength: nat, empty: bool, iPosParent: nat, level: nat,
                     ghost st: Stack, ghost left: Content, ghost p: nat, ghost ill: bool) returns (iPos: nat)
      requires Reading(doc, elem, iPosFree, st, left, p, nStart, ill) && nStart < |doc| && 8 <= |elem|
      requires NodeIn(doc, nStart).typ == ELEMENT && NodeIn(doc, nStart).empty == empty && NodeIn(doc, nStart).len == nLength
      requires iPosParent == TopId(st) && level == OpenCount(st)
      modifies this`elem, this`iPosFree
      ensures iPos == old(iPosFree) && iPosFree == iPos + 1 && 8 <= |elem| && 0 < iPos
      ensures p <= nStart < NextNode(doc, nStart) <= |doc|
      ensures var e, x, t := NextNode(doc, nStart), doc[p..nStart], doc[nStart..NextNode(doc, nStart)];
              if empty then Reading(doc, elem, iPosFree, st, Graft(left, Single(x, iPos, t)), e, e, ill)
              else Reading(doc, elem, iPosFree, Push(st, left, x, iPos, t), End(""), e, e, ill)
      ensures elem[0] == old(elem)[0].(child := if old(elem)[0].child == 0 then iPos else old(elem)[0].child)
    {
      hide Reading, Appended, NodeIn, Graft, Single;
      ghost var a;
      iPos, a := NewElem(iPosParent, st, left, p, nStart, ill);
      ghost var m := elem;
      elem := elem[iPos := elem[iPos].(level := level, child := 0, nStart := nStart, startTagLen := nLength)];
      if empty {
        elem := elem[iPos := elem[iPos].(endTagLen := 0, nLength := nLength)];
      }
      AppendedStill(a, m, elem, st, left, iPos);
      ReadParts(doc, a, iPos, st, left, p, nStart, ill);
      if empty {
        ReadEmpty(doc, a, elem, iPos, st, left, p, nStart, ill);
      } else {
        ReadOpen(doc, a, elem, iPos, st, left, p, nStart, ill);
      }
    }

    /** The search of `x_ParseElem` for the innermost open element that an end tag closes. */
    method FindMatch(token: TokenPos, iPos: nat, stack: seq<string>, ghost st: Stack) returns (nMatchLevel: nat, iPosMatch: nat)
      requires OpenOk(elem, st) && stack == Names(st) && iPos == TopId(st)
      ensures nMatchLevel <= |stack| && iPosMatch == TopId(Level(st, nMatchLevel))
      ensures nMatchLevel > 0 ==> token.Matches(stack[nMatchLevel - 1])
      ensures forall j :: nMatchLevel <= j < |stack| ==> !token.Matches(stack[j])
    {
      hide OpenOk, Level, Names, NameOf;
      LevelSame(st, |stack|);
      iPosMatch := iPos;
      nMatchLevel := |stack|;
      while nMatchLevel != 0 && !token.Matches(stack[nMatchLevel - 1])
        invariant nMatchLevel <= |stack| && iPosMatch == TopId(Level(st, nMatchLevel))
        invariant forall j :: nMatchLevel <= j < |stack| ==> !token.Matches(stack[j])
      {
        LevelParent(elem, st, nMatchLevel);
        nMatchLevel := nMatchLevel - 1;
        iPosMatch := elem[iPosMatch].parent;
      }
    }

    /** The loop of `x_ParseElem` over the open elements above level `n`, none of which has an end tag. */
    method MendTo(n: nat, iPos: nat, stack: seq<string>, ghost st: Stack, ghost left: Content, ghost p: nat)
      returns (i: nat, s: seq<string>, ghost st': Stack, ghost left': Content)
      requires Mending(doc, elem, iPosFree, st, left, p) && stack == Names(st) && iPos == TopId(st) && n <= |stack|
      modifies this`elem
      ensures Mending(doc, elem, iPosFree, st', left', p) && st' == Level(st, n) && s == Names(st') && i == TopId(st')
      ensures |elem| == |old(elem)| && i < |elem| && 0 < |elem|
      ensures elem[0] == old(elem)[0].(illData := elem[0].illData) && elem[i] == old(elem)[i].(illData := elem[i].illData)
      ensures n == |stack| ==> left' == left && elem == old(elem)
      ensures left' == Mended(st, left, n)
    {
      hide Mending, Unended, Repairing, OpenOk, Graft, Flattened, NameOf, Level, Names;
      i, s, st', left' := iPos, stack, st, left;
      MendFacts(doc, elem, iPosFree, st, left, p);
      LevelId(elem, st, n);
      ghost var m := TopId(Level(st, n));
      while |s| > n
        invariant Mending(doc, elem, iPosFree, st', left', p) && s == Names(st') && i == TopId(st') && n <= |s|
        invariant Level(st', n) == Level(st, n) && |elem| == |old(elem)| && 0 < |elem| && m < |elem|
        invariant elem[0] == old(elem)[0].(illData := elem[0].illData) && elem[m] == old(elem)[m].(illData := elem[m].illData)
        invariant |s| == |stack| ==> left' == left && elem == old(elem)
        invariant |s| <= |stack| && Mended(st', left', n) == Mended(st, left, n)
        decreases |s|
      {
        MendFacts(doc, elem, iPosFree, st', left', p);
        LevelId(elem, st', n);
        LevelLevel(st', n);
        ghost var a := elem;
        i := EndUnended(i, st', left');
        UnendedAbove(a, elem, iPosFree, st', left', m);
        UnendedAbove(a, elem, iPosFree, st', left', 0);
        MendTop(doc, a, elem, iPosFree, st', left', p);
        NamesTop(st');
        st', left' := st'.below, Graft(st'.left, Flattened(st', left'));
        s := s[..|s| - 1];
      }
      LevelSame(st', n);
      MendFacts(doc, elem, iPosFree, st', left', p);
    }

    /** What the end tag of the open element at level `n` stores before the elements above are repaired. */
    method StoreEnd(nStart: nat, nLength: nat, n: nat, iPosMatch: nat, count: nat, ghost st: Stack, ghost left: Content, ghost p: nat, ghost ill: bool)
      requires Reading(doc, elem, iPosFree, st, left, p, nStart, ill)
      requires 0 < n <= count == OpenCount(st) && iPosMatch == TopId(Level(st, n)) && Virtual(elem[0]) && elem[0].illFormed == ill
      modifies this`elem
      ensures |elem| == |old(elem)| && 0 < iPosMatch < |elem| && Mending(doc, elem, iPosFree, st, left, p)
      ensures elem[iPosMatch] == old(elem)[iPosMatch].(nLength := nStart - old(elem)[iPosMatch].nStart + nLength, endTagLen := nLength)
      ensures n == count ==> elem == old(elem)[iPosMatch := elem[iPosMatch]]
      ensures Virtual(elem[0]) && elem[0].illFormed == (ill || n < count) && elem[0].child == old(elem)[0].child
    {
      hide Reading, Mending, OpenOk, Level, Parsing, NoLt;
      ReadParts(doc, elem, iPosFree, st, left, p, nStart, ill);
      LevelId(elem, st, n);
      StoreMending(doc, elem, elem[iPosMatch := elem[iPosMatch].(nLength := nStart - elem[iPosMatch].nStart + nLength, endTagLen := nLength)],
                   iPosFree, st, left, p, nStart, ill, n, nStart - elem[iPosMatch].nStart + nLength, nLength);
      elem := elem[iPosMatch := elem[iPosMatch].(nLength := nStart - elem[iPosMatch].nStart + nLength, endTagLen := nLength)];
      if count > n {
        elem := elem[0 := elem[0].(illFormed := true)];
      }
    }

    /** The branch of `x_ParseElem` for an end tag that closes the open element at level `n`. */
    method EndElem(nStart: nat, nLength: nat, n: nat, iPosMatch: nat, iPos: nat, stack: seq<string>,
                   ghost st: Stack, ghost left: Content, ghost p: nat, ghost ill: bool)
      returns (iPosParent: nat, s: seq<string>, ghost st': Stack, ghost left': Content)
      requires Reading(doc, elem, iPosFree, st, left, p, nStart, ill) && nStart < |doc|
      requires NodeIn(doc, nStart).typ == END_TAG && NodeIn(doc, nStart).len == nLength && NextNode(doc, nStart) <= |doc|
      requires stack == Names(st) && 0 < n <= |stack| && iPos == TopId(st) && iPosMatch == TopId(Level(st, n))
      requires Match(NameOf(doc[nStart..NextNode(doc, nStart)]), stack[n - 1])
      requires forall j :: n <= j < |stack| ==> !Match(NameOf(doc[nStart..NextNode(doc, nStart)]), stack[j])
      requires 0 < |elem| && Virtual(elem[0]) && elem[0].illFormed == ill
      modifies this`elem
      ensures |elem| == |old(elem)| && Reading(doc, elem, iPosFree, st', left', NextNode(doc, nStart), NextNode(doc, nStart), ill || n < |stack|)
      ensures iPosParent == TopId(st') && s == Names(st')
      ensures var top, e := Level(st, n), NextNode(doc, nStart);
              top.Push? && st' == top.below && left' == Graft(top.left, Closing(top, Mended(st, left, n), doc[p..nStart], doc[nStart..e]))
      ensures Virtual(elem[0]) && elem[0].illFormed == (ill || n < |stack|) && elem[0].child == old(elem)[0].child
    {
      hide Reading, Mending, NodeIn, Match, NameOf, Graft, Closing, OpenOk, Repairing, Level, Names, Mended, Parsing, Virtual, NoLt, OpenCount;
      ghost var q, e := nStart, NextNode(doc, nStart);
      ReadParts(doc, elem, iPosFree, st, left, p, q, ill);
      StoreEnd(nStart, nLength, n, iPosMatch, |stack|, st, left, p, ill);
      ghost var m := elem;
      var i;
      i, s, st', left' := MendTo(n, iPos, stack, st, left, p);
      VirtualMarked(m[0], elem[0]);
      LevelName(st, n);
      MendFacts(doc, elem, iPosFree, st', left', p);
      OpenTop(elem, iPosFree, st', left');
      EndRead(doc, old(elem), m, elem, iPosFree, st, left, p, q, ill, n, left');
      iPosParent := elem[i].parent;
      s := s[..|s| - 1];
      NamesBelow(st');
      st', left' := st'.below, Graft(st'.left, Closing(st', left', doc[p..q], doc[q..e]));
    }

    /** The branch of `x_ParseElem` for a bad node or for an end tag that closes nothing: the document
        is marked as ill-formed, and the element around as having bad data. */
    method WrongNode(iPos: nat, ghost st: Stack, ghost left: Content, ghost p: nat, ghost q: nat, ghost ill: bool)
      requires Reading(doc, elem, iPosFree, st, left, p, q, ill) && q < |doc| && iPos == TopId(st)
      requires NodeIn(doc, q).typ == BAD || (NodeIn(doc, q).typ == END_TAG && NextNode(doc, q) <= |doc| &&
                                             (st.Push? ==> !Match(NameOf(doc[q..NextNode(doc, q)]), NameOf(st.stag))))
      requires Virtual(elem[0])
      modifies this`elem
      ensures |elem| == |old(elem)| && p <= q < NextNode(doc, q) <= |doc|
      ensures var e := NextNode(doc, q); Reading(doc, elem, iPosFree, st, Graft(left, Mark(doc[p..q], doc[q..e], End(""))), e, e, true)
      ensures Virtual(elem[0]) && elem[0].illFormed && elem[0].child == old(elem)[0].child
    {
      hide Reading, NodeIn, Match, NameOf, Graft, Alike, OpenOk;
      ReadParts(doc, elem, iPosFree, st, left, p, q, ill);
      NodeLonger(doc, p, q);
      ghost var a := elem;
      elem := elem[0 := elem[0].(illFormed := true)];
      elem := elem[iPos := elem[iPos].(illData := true)];
      OnlyMarks(a, elem);
      ReadGrows(doc, a, elem, iPosFree, st, left, p, q, ill);
      ReadWrong(doc, elem, iPosFree, st, left, p, q, ill);
    }

    /** The branch of `x_ParseElem` for an end tag. */
    method EndTag(token: TokenPos, nStart: nat, nLength: nat, iPos: nat, stack: seq<string>,
                  ghost st: Stack, ghost left: Content, ghost p: nat, ghost ill: bool)
      returns (iPosParent: nat, s: seq<string>, ghost st': Stack, ghost left': Content, ghost ill': bool)
      requires Reading(doc, elem, iPosFree, st, left, p, nStart, ill) && nStart < |doc|
      requires NodeIn(doc, nStart).typ == END_TAG && NodeIn(doc, nStart).len == nLength && token.TokenText() == NameIn(doc, nStart)
      requires iPos == TopId(st) && stack == Names(st) && 0 < |elem| && Virtual(elem[0]) && elem[0].illFormed == ill
      modifies this`elem
      ensures |elem| == |old(elem)| && nStart < NextNode(doc, nStart) <= |doc|
      ensures Reading(doc, elem, iPosFree, st', left', NextNode(doc, nStart), NextNode(doc, nStart), ill')
      ensures iPosParent == TopId(st') && s == Names(st')
      ensures p <= nStart && Open(st', left') == AfterEndTag(st, left, doc[p..nStart], doc[nStart..NextNode(doc, nStart)])
      ensures var n := MatchLevel(NameOf(doc[nStart..NextNode(doc, nStart)]), st); ill' <==> ill || n == 0 || n < OpenCount(st)
      ensures Virtual(elem[0]) && elem[0].illFormed == ill' && elem[0].child == old(elem)[0].child
    {
      hide Reading, NodeIn, NameIn, Match, NameOf, Graft, OpenOk, Level, Names, OpenCount, TextType, NoLt, AtNode, Virtual, BLANK, Mended, Closing, MatchLevel, AfterEndTag;
      ghost var q := nStart;
      EndTagReady(doc, elem, iPosFree, st, left, p, q, ill);
      ghost var name := NameOf(doc[q..NextNode(doc, q)]);
      assert token.TokenText() == name;
      var nMatchLevel, iPosMatch := FindMatch(token, iPos, stack, st);
      MatchIs(name, st, nMatchLevel);
      AfterEndTagIs(st, left, doc[p..q], doc[q..NextNode(doc, q)]);
      if nMatchLevel == 0 {
        WrongNode(iPos, st, left, p, q, ill);
        iPosParent, s, st', left', ill' := iPos, stack, st, Graft(left, Mark(doc[p..q], doc[q..NextNode(doc, q)], End(""))), true;
      } else {
        iPosParent, s, st', left' := EndElem(nStart, nLength, nMatchLevel, iPosMatch, iPos, stack, st, left, p, ill);
        ill' := ill || nMatchLevel < |stack|;
      }
    }

    /** `x_ParseElem`, called for a whole document. */
    method ParseElem() returns (iPosRoot: nat, ghost c: Content)
      requires 8 <= |elem| && iPosFree == 1 && elem[0] == BLANK
      modifies this`elem, this`iPosFree
      ensures c == Repaired(doc) && Indexed(doc, elem, iPosFree, c) && 8 <= |elem| && Virtual(elem[0]) && iPosRoot == elem[0].child
      ensures elem[0].illFormed <==> ParseDoc(doc) == Fail
      ensures !elem[0].illFormed ==> Linked(elem, c) && Offsets(elem, c, 0, 0) && ParseDoc(doc) == Done(Erase(c), |doc|)
    {
      hide Reading, Indexed, NodeIn, NameIn, NameOf, Graft, Single, ParseDoc, Virtual, Names, Parsing, OpenOk, NoLt, OpenCount, FirstId, Repair, AfterEndTag, MatchLevel, Mended, Repaired, Linked, Offsets;
      iPosRoot := 0;
      var iPos, iPosParent := 0, 0;
      var stack: seq<string> := [];
      var token := new TokenPos(doc);
      ghost var st, left, ill := Bottom, End(""), false;
      ghost var p: nat := 0;
      ReadStart(doc, elem);
      RepairBegin(doc);
      assert Virtual(elem[0]) && stack == Names(st) by { BlankVirtual(); }
      while true
        invariant token.text == doc && token.nNext <= |doc| && 8 <= |elem|
        invariant Reading(doc, elem, iPosFree, st, left, p, token.nNext, ill)
        invariant p <= token.nNext && Repaired(doc) == Repair(doc, st, left, p, token.nNext, iPosFree)
        invariant iPos == iPosParent == TopId(st) && stack == Names(st)
        invariant Virtual(elem[0]) && elem[0].illFormed == ill && elem[0].child == iPosRoot
        decreases |doc| - token.nNext
      {
        ghost var q: nat, e0 := token.nNext, elem[0];
        ReadParts(doc, elem, iPosFree, st, left, p, q, ill);
        NodeTypes(doc, p, q);
        var nTypeFound, node := token.ParseNode();
        if nTypeFound == ELEMENT {
          RepairStart(doc, st, left, p, q, iPosFree);
          iPos := StartElem(node.nStart, node.nLength, node.empty, iPosParent, |stack|, st, left, p, ill);
          VirtualKept(e0, elem[0]);
          if iPosRoot == 0 {
            iPosRoot := iPos;
          }
          if node.empty {
            left := Graft(left, Single(doc[p..q], iPos, doc[q..token.nNext]));
            iPos := iPosParent;
          } else {
            TagToken(doc, q);
            NamesPush(st, left, doc[p..q], iPos, doc[q..token.nNext]);
            st, left := Push(st, left, doc[p..q], iPos, doc[q..token.nNext]), End("");
            iPosParent := iPos;
            stack := stack + [token.TokenText()];
          }
          p := token.nNext;
        } else if nTypeFound == END_TAG {
          RepairEndTag(doc, st, left, p, q, iPosFree);
          iPosParent, stack, st, left, ill := EndTag(token, node.nStart, node.nLength, iPos, stack, st, left, p, ill);
          iPos := iPosParent;
          p := token.nNext;
        } else if nTypeFound == BAD {
          RepairMark(doc, st, left, p, q, iPosFree);
          WrongNode(iPos, st, left, p, q, ill);
          left, ill := Graft(left, Mark(doc[p..q], doc[q..token.nNext], End(""))), true;
          p := token.nNext;
        } else if nTypeFound == END_OF_DOCUMENT {
          break;
        } else if TextType(nTypeFound) {
          ReadText(doc, elem, iPosFree, st, left, p, q, ill);
          RepairText(doc, st, left, p, q, iPosFree);
        } else {
          ReadMark(doc, elem, iPosFree, st, left, p, q, ill);
          RepairMark(doc, st, left, p, q, iPosFree);
          left, p := Graft(left, Mark(doc[p..q], doc[q..token.nNext], End(""))), token.nNext;
        }
      }
      RepairEnd(doc, st, left, p, iPosFree);
      c := EndDocument(iPos, stack, st, left, p, ill);
      if !elem[0].illFormed { NotIllFormed(doc, elem, iPosFree, c); }
    }

    /** The end of the document: the elements that are still open have no end tag. */
    method EndDocument(iPos: nat, stack: seq<string>, ghost st: Stack, ghost left: Content, ghost p: nat, ghost ill: bool) returns (ghost c: Content)
      requires Reading(doc, elem, iPosFree, st, left, p, |doc|, ill) && p <= |doc| && iPos == TopId(st) && stack == Names(st)
      requires 8 <= |elem| && Virtual(elem[0]) && elem[0].illFormed == ill
      modifies this`elem
      ensures c == Graft(Mended(st, left, 0), End(doc[p..])) && Indexed(doc, elem, iPosFree, c)
      ensures |elem| == |old(elem)| && Virtual(elem[0]) && elem[0].child == old(elem)[0].child
      ensures elem[0].illFormed <==> ParseDoc(doc) == Fail
    {
      hide Reading, Indexed, Graft, ParseDoc, Mending, Alike, Mended;
      ReadEndFine(doc, elem, iPosFree, st, left, p, ill);
      ReadParts(doc, elem, iPosFree, st, left, p, |doc|, ill);
      ghost var a := elem;
      if |stack| > 0 {
        elem := elem[0 := elem[0].(illFormed := true)];
      }
      OnlyMarks(a, elem);
      ReadGrows(doc, a, elem, iPosFree, st, left, p, |doc|, ill);
      StartMending(doc, elem, iPosFree, st, left, p, |doc|, ill);
      var i, s;
      ghost var st', left';
      i, s, st', left' := MendTo(0, iPos, stack, st, left, p);
      LevelZero(st);
      ReadEnd(doc, elem, iPosFree, left', p);
      c := Graft(left', End(doc[p..]));
    }

    /** `x_ParseDoc`. */
    method ParseDocument() returns (ok: bool)
      modifies this
      ensures doc == old(doc) && iPosParent == 0 && iPos == 0 && iPosChild == 0
      ensures tree == Repaired(doc) && Indexed(doc, elem, iPosFree, tree) && 8 <= |elem|
      ensures elem[0].illFormed <==> ParseDoc(doc) == Fail
      ensures !elem[0].illFormed ==> Valid() && ParseDoc(doc) == Done(Erase(tree), |doc|)
      ensures ok <==> ParseDoc(doc).Done? && Roots(ParseDoc(doc).c) == 1
      ensures fresh(savedPos) && savedPos.Buckets() == {} && Saving() && savedPos.saved == map[]
    {
      hide Indexed, Represents, Marked, ParseDoc, SavedPositions.Stores;
      iPosParent, iPos, iPosChild := 0, 0, 0;
      ReleaseMaps();
      label Ready:
      ok := ReadDocument();
      assert savedPos == old@Ready(savedPos) && savedPos.pTable == old@Ready(savedPos.pTable);
      assert savedPos.Buckets() == old@Ready(savedPos.Buckets());
      assert savedPos.Valid();
    }

    /** The part of `x_ParseDoc` behind the release of the saved positions. */
    method ReadDocument() returns (ok: bool)
      modifies this`elem, this`iPosFree, this`iPosDeleted, this`iPosParent, this`iPos, this`iPosChild, this`tree
      ensures iPosParent == 0 && iPos == 0 && iPosChild == 0
      ensures tree == Repaired(doc) && Indexed(doc, elem, iPosFree, tree) && 8 <= |elem|
      ensures elem[0].illFormed <==> ParseDoc(doc) == Fail
      ensures !elem[0].illFormed ==> Valid() && ParseDoc(doc) == Done(Erase(tree), |doc|)
      ensures ok <==> ParseDoc(doc).Done? && Roots(ParseDoc(doc).c) == 1
    {
      hide Indexed, Represents, Marked, ParseDoc, AllocSize, CursorOk, WFDoc, Roots, Erase;
      iPosFree := 1;
      AllocMore(|elem|, iPosFree, |doc| / 64 + 8);
      AllocElemPos(|doc| / 64 + 8);
      iPosDeleted := 0;
      iPosParent, iPos, iPosChild := 0, 0, 0;
      IndexDocument();
      RootsErase(tree);
      ok := IsWellFormed();
    }

    /** `ReleaseMaps`: no position is saved; the new map has the size with which `GetMap` makes one. */
    method ReleaseMaps()
      modifies this`savedPos
      ensures fresh(savedPos) && fresh(savedPos.pTable) && savedPos.Buckets() == {} && savedPos.Valid() && savedPos.saved == map[]
    {
      hide SavedPositions.Stores;
      var pMap := new SavedPositions.SavedPosMap(7);
      label Made:
      savedPos := pMap;
      assert pMap.Buckets() == old@Made(pMap.Buckets());
    }

    /** The part of `x_ParseDoc` that reads the document into the index. */
    method IndexDocument()
      requires iPosFree == 1 && 8 <= |elem| && iPosParent == 0 && iPos == 0 && iPosChild == 0
      modifies this`elem, this`iPosFree, this`tree
      ensures tree == Repaired(doc) && Indexed(doc, elem, iPosFree, tree) && 8 <= |elem|
      ensures elem[0].illFormed <==> ParseDoc(doc) == Fail
      ensures !elem[0].illFormed ==> Valid() && ParseDoc(doc) == Done(Erase(tree), |doc|)
    {
      hide Indexed, Represents, Virtual, Linked, Offsets, ParseDoc, Marked;
      elem := elem[0 := BLANK];
      if |doc| > 0 {
        var i;
        i, tree := ParseElem();
        DocumentRead(doc, elem, iPosFree, tree);
        elem := elem[0 := elem[0].(nLength := |doc|)];
        ghost var e := elem;
        if i > 0 {
          elem := elem[0 := elem[0].(child := i)];
          assert elem == e;
        }
      } else {
        tree := End("");
        NothingRead(doc, elem);
      }
      if !elem[0].illFormed {
        NotIllFormed(doc, elem, iPosFree, tree);
        ReadMarks(doc, elem, iPosFree, tree);
      }
    }

    /** `IsWellFormed` of a document as it was read or as edits have left it. */
    method IsWellFormed() returns (r: bool)
      requires elem != [] ==> Valid() || Indexed(doc, elem, iPosFree, tree)
      ensures r <==> elem != [] && !elem[0].illFormed && Roots(tree) == 1
      ensures elem != [] && Valid() && WFDoc(tree) ==> (r <==> ParseDoc(doc).Done? && Roots(ParseDoc(doc).c) == 1)
    {
      hide Indexed, ParseDoc, Represents, WFDoc, Reached, Erase;
      if elem == [] {
        return false;
      }
      if Valid() {
        ReachedWhenEdited(doc, elem, iPosFree, tree);
        RepresentsParts(doc, elem, iPosFree, tree);
        ParsedIff(tree);
      } else {
        ReachedWhenRead(doc, elem, iPosFree, tree);
      }
      OneRoot(elem, tree);
      r := !elem[0].illFormed && elem[0].child != 0 && elem[elem[0].child].next == 0;
    }

    /** `SetDoc`: any text becomes the document. */
    method SetDoc(strDoc: string) returns (ok: bool)
      modifies this
      ensures doc == strDoc && iPosParent == 0 && iPos == 0 && iPosChild == 0
      ensures tree == Repaired(doc) && Indexed(doc, elem, iPosFree, tree) && 8 <= |elem|
      ensures elem[0].illFormed <==> ParseDoc(doc) == Fail
      ensures !elem[0].illFormed ==> Valid() && ParseDoc(doc) == Done(Erase(tree), |doc|)
      ensures ok <==> ParseDoc(doc).Done? && Roots(ParseDoc(doc).c) == 1
      ensures fresh(savedPos) && savedPos.Buckets() == {} && Saving() && savedPos.saved == map[]
    {
      hide Indexed, ParseDoc;
      doc := strDoc;
      ok := ParseDocument();
    }

    constructor (szDoc: string)
      ensures doc == szDoc && iPosParent == 0 && iPos == 0 && iPosChild == 0
      ensures tree == Repaired(doc) && Indexed(doc, elem, iPosFree, tree) && 8 <= |elem|
      ensures elem[0].illFormed <==> ParseDoc(doc) == Fail
      ensures !elem[0].illFormed ==> Valid() && ParseDoc(doc) == Done(Erase(tree), |doc|)
      ensures fresh(savedPos) && savedPos.Buckets() == {} && Saving() && savedPos.saved == map[]
    {
      elem, iPosFree, iPosDeleted := [], 0, 0;
      savedPos := new SavedPositions.SavedPosMap(7);
      doc, iPosParent, iPos, iPosChild := szDoc, 0, 0, 0;
      tree := End("");
      new;
      hide Indexed, ParseDoc;
      var _ := ParseDocument();
    }

    // ---- Attributes ----

    /** `x_GetAttrib` of an element. */
    method GetAttribOf(p: nat, szAttrib: string) returns (strValue: string)
      requires p < |elem| && (p != 0 ==> 0 <= elem[p].nStart < |doc|)
      ensures strValue ==
              if p == 0 || iPos == 0 then "" else
              match FindFrom(doc, elem[p].nStart + 1, szAttrib, Nothing, false, false)
              case Attrib(l, r, _) => if l <= r then Escaping.Unescape(Entities.PREDEF_ENTITY_TABLE, doc, l, r) else ""
              case NoAttrib(_) => ""
    {
      hide Escaping.Unescape, FindFrom;
      if p == 0 || iPos == 0 {
        return "";
      }
      var token := new TokenPos(doc);
      token.nNext := elem[p].nStart + 1;
      FoundOrder(doc, elem[p].nStart + 1, szAttrib, Nothing, false, false);
      var found := token.FindAttrib(szAttrib);
      if found {
        strValue := Escaping.UnescapeText(Entities.PREDEF_ENTITY_TABLE, doc, token.nL, token.nR - token.nL + 1);
      } else {
        strValue := "";
      }
    }

    /** The part of `x_SetAttrib` that builds the text to insert and finds its place. */
    method AttribText(p: nat, szAttrib: string, szValue: string, refs: bool) returns (nInsertAt: int, nReplace: int, strInsert: string)
      requires p < |elem| && 0 <= elem[p].nStart < |doc|
      ensures 0 <= nReplace
      ensures Write(nInsertAt, nReplace, strInsert) ==
              WriteFor(FindFrom(doc, elem[p].nStart + 1, szAttrib, Nothing, false, false), szAttrib, Escaping.Escape(szValue, true, refs))
    {
      hide Escaping.Escape, FindFrom;
      var token := new TokenPos(doc);
      token.nNext := elem[p].nStart + 1;
      FoundOrder(doc, elem[p].nStart + 1, szAttrib, Nothing, false, false);
      var strEscapedValue := Escaping.EscapeText(szValue, true, refs);
      var found := token.FindAttrib(szAttrib);
      if found {
        strInsert := "\"" + strEscapedValue + "\"";
        nInsertAt := token.nL - (if token.bQuoted then 1 else 0);
        nReplace := (token.nR - token.nL + 1) + (if token.bQuoted then 2 else 0);
      } else {
        strInsert := " " + szAttrib + "=" + ("\"" + strEscapedValue + "\"");
        nInsertAt := token.nNext;
        nReplace := 0;
      }
    }

    /** `x_SetAttrib` of an element.  When it does not stray, the index stays in step; in any case the text and the
        records are those that the write gives. */
    method SetAttribOf(p: nat, szAttrib: string, szValue: string, refs: bool) returns (ok: bool)
      requires Valid() && IsParent(tree, p)
      modifies this`doc, this`elem, this`tree
      ensures ok == (p != 0 && iPos != 0)
      ensures !ok ==> Valid() && tree == old(tree) && doc == old(doc) && elem == old(elem)
      ensures var w := WriteIn(old(tree), p, szAttrib, Escaping.Escape(szValue, true, refs));
              ok ==>
              && doc == SpliceAt(old(doc), w.at, w.replace, w.insert)
              && elem == AfterSet(old(elem), Edited(old(tree), p, w), p, |w.insert| - w.replace)
              && (!Strays(old(tree), p, w) ==> Valid() && tree == Edited(old(tree), p, w))
      ensures Ids(tree) == Ids(old(tree))
    {
      hide Represents, Adjusted, Render, Chain, InRange, Distinct, Restarted, Escaping.Escape, Ids, Stretched, CursorOk, SpliceAt, Linked, Shape, Marked;
      hide Strays, NewTag, Within, WriteIn, FindFrom, WriteFor;
      if p == 0 || iPos == 0 {
        return false;
      }
      ghost var w := WriteIn(tree, p, szAttrib, Escaping.Escape(szValue, true, refs));
      RepresentsParts(doc, elem, iPosFree, tree);
      WriteFacts(doc, elem, iPosFree, tree, p, szAttrib, Escaping.Escape(szValue, true, refs));
      AttribReady(doc, elem, iPosFree, tree, p, w);
      SetMarks(elem, iPosFree, tree, p, w, |w.insert| - w.replace);
      CursorEdited(tree, p, w, iPosParent, iPos, iPosChild);
      var nInsertAt, nReplace, strInsert := AttribText(p, szAttrib, szValue, refs);
      var nAdjust := |strInsert| - nReplace;
      DocChange(nInsertAt, nReplace, strInsert);
      elem := elem[p := elem[p].(startTagLen := elem[p].startTagLen + nAdjust)];
      elem := elem[p := elem[p].(nLength := elem[p].nLength + nAdjust)];
      StretchedIs(old(elem), p, nAdjust);
      EditedSlots(tree, p, w);
      tree := Edited(tree, p, w);
      if elem[p].startTagLen != 0 {
        Adjust(p, nAdjust, false, tree);
      }
      ok := true;
    }

    /** SetAttrib and SetChildAttrib. */
    method SetAttrib(below: bool, szAttrib: string, szValue: string, refs: bool) returns (ok: bool)
      requires Valid() && Saving()
      modifies this`doc, this`elem, this`tree
      ensures ok == (Target(old(View()), below) != 0 && iPos != 0)
      ensures !Apply(old(View()), Runs.SetAttr(below, szAttrib, szValue, refs)).strayed ==>
                Valid() && View() == Apply(old(View()), Runs.SetAttr(below, szAttrib, szValue, refs))
      ensures iPosParent == old(iPosParent) && iPos == old(iPos) && iPosChild == old(iPosChild)
      ensures Saving() && savedPos.saved == old(savedPos.saved)
    {
      hide Saving;
      hide Represents, Restarted, Shape, Distinct, Linked, Strays, WriteIn, Edited;
      RepresentsParts(doc, elem, iPosFree, tree);
      TargetParent(tree, iPosParent, iPos, iPosChild);
      ok := SetAttribOf(if below then iPosChild else iPos, szAttrib, szValue, refs);
      StillSaving();
    }

    // ---- x_GetData ----

    /** `x_GetData` of an element. */
    method GetDataOf(p: nat) returns (r: Fetched)
      requires p < |elem|
      requires p != 0 && !elem[p].IsEmptyElement() && elem[p].child == 0 ==>
                 0 <= elem[p].StartContent() && 0 <= elem[p].ContentLen() && elem[p].StartContent() + elem[p].ContentLen() <= |doc|
      ensures r == if p == 0 || elem[p].IsEmptyElement() || elem[p].child != 0 then Fetched("")
                   else RangeData(Entities.PREDEF_ENTITY_TABLE, doc, elem[p].StartContent(), elem[p].StartContent() + elem[p].ContentLen())
    {
      hide RangeData;
      if p == 0 || elem[p].IsEmptyElement() || elem[p].child != 0 {
        return Fetched("");
      }
      r := RangeText(elem[p].StartContent(), elem[p].StartContent() + elem[p].ContentLen());
    }

    /** The scan of `x_GetData` between two tags. */
    method RangeText(nStartContent: nat, end: nat) returns (r: Fetched)
      requires nStartContent <= end <= |doc|
      ensures r == RangeData(Entities.PREDEF_ENTITY_TABLE, doc, nStartContent, end)
    {
      hide Escaping.Unescape, NodesData, NodeIn, NameIn, NodeData, Append, Mid;
      if TextEnd(doc, nStartContent) >= end {
        var s := Escaping.UnescapeText(Entities.PREDEF_ENTITY_TABLE, doc, nStartContent, end - nStartContent);
        return Fetched(s);
      }
      ghost var goal := NodesData(Entities.PREDEF_ENTITY_TABLE, doc, nStartContent, end);
      var strData := "";
      var token := new TokenPos(doc);
      token.nNext := nStartContent;
      AppendNothing(goal);
      while token.nNext < end
        invariant token.text == doc && token.nNext <= |doc|
        invariant goal == Append(strData, NodesData(Entities.PREDEF_ENTITY_TABLE, doc, token.nNext, end))
        decreases end - token.nNext
      {
        DataStep(Entities.PREDEF_ENTITY_TABLE, doc, token.nNext, end, strData);
        var nNodeType, node := token.ParseNode();
        if nNodeType == TEXT {
          var s := Escaping.UnescapeText(Entities.PREDEF_ENTITY_TABLE, doc, node.nStart, node.nLength);
          strData := strData + s;
        } else if nNodeType == CDATA {
          var mid := Mid(doc, node.nStart + 9, node.nLength - 12);
          if mid.Thrown? {
            return Thrown;
          }
          strData := strData + mid.data;
        }
      }
      NodesDone(Entities.PREDEF_ENTITY_TABLE, doc, token.nNext, end);
      AppendEnd(strData);
      r := Fetched(strData);
    }

    // ---- Moving the cursor ----

    /** `ResetPos`. */
    method ResetPos()
      requires Valid() && Saving()
      modifies this`iPosParent, this`iPos, this`iPosChild
      ensures Valid() && View() == Apply(old(View()), Move(0, 0, 0))
      ensures Saving() && savedPos.saved == old(savedPos.saved)
    {
      hide Saving;
      hide Represents;
      iPosParent, iPos, iPosChild := 0, 0, 0;
      StillSaving();
    }

    /** `IntoElem`. */
    method IntoElem() returns (ok: bool)
      requires Valid() && Saving()
      modifies this`iPosParent, this`iPos, this`iPosChild
      ensures Valid() && ok == (old(iPos) != 0)
      ensures View() == if ok then Apply(old(View()), Move(old(iPos), old(iPosChild), 0)) else old(View())
      ensures if ok then iPosParent == old(iPos) && iPos == old(iPosChild) && iPosChild == 0 else iPosParent == old(iPosParent) && iPos == 0 && iPosChild == old(iPosChild)
      ensures Saving() && savedPos.saved == old(savedPos.saved)
    {
      hide Saving;
      hide Represents, Distinct, Linked, Shape;
      if iPos != 0 {
        RepresentsParts(doc, elem, iPosFree, tree);
        CursorParent(tree, iPosParent, iPos, iPosChild);
        iPosParent, iPos, iPosChild := iPos, iPosChild, 0;
        StillSaving();
        return true;
      }
      StillSaving();
      return false;
    }

    /** `OutOfElem`. */
    method OutOfElem() returns (ok: bool)
      requires Valid() && Saving()
      modifies this`iPosParent, this`iPos, this`iPosChild
      ensures Valid() && ok == (old(iPosParent) != 0)
      ensures View() == if ok then Apply(old(View()), Move(iPosParent, old(iPosParent), old(iPos))) else old(View())
      ensures ok ==> old(iPosParent) in Top(Below(tree, iPosParent))
      ensures if ok then iPos == old(iPosParent) && iPosChild == old(iPos) else iPosParent == 0 && iPos == old(iPos) && iPosChild == old(iPosChild)
      ensures Saving() && savedPos.saved == old(savedPos.saved)
    {
      hide Saving;
      hide Represents, Distinct, Linked, Shape;
      if iPosParent != 0 {
        RepresentsParts(doc, elem, iPosFree, tree);
        ParentFound(elem, tree, iPosParent);
        iPosParent, iPos, iPosChild := elem[iPosParent].parent, iPosParent, iPos;
        StillSaving();
        return true;
      }
      StillSaving();
      return false;
    }

    /** `x_FindElem` with a name, or with none. */
    method FindSibling(p: nat, t: nat, szName: string) returns (i: nat)
      requires Represents(doc, elem, iPosFree, tree) && IsParent(tree, p) && (t != 0 ==> t in Top(Below(tree, p)))
      ensures i == FirstNamed(SiblingsAfter(tree, p, t), szName)
    {
      hide Represents, SiblingsAfter, FirstNamed, Searching, Match, NameFrom, WordOf, Distinct;
      SearchStart(doc, elem, iPosFree, tree, p, t, szName);
      ghost var r := Skip(SiblingsAfter(tree, p, t));
      if t != 0 {
        i := elem[t].next;
      } else {
        i := elem[p].child;
      }
      if szName == "" {
        FirstAny(r);
        return;
      }
      var token := new TokenPos(doc);
      while i != 0
        invariant Searching(doc, elem, r, p) && Distinct(r) && i == FirstId(r) && !r.Mark? && token.text == doc
        invariant FirstNamed(r, szName) == FirstNamed(SiblingsAfter(tree, p, t), szName)
        decreases Weight(r)
      {
        SearchStep(doc, elem, r, p, szName);
        token.nNext := elem[i].nStart + 1;
        var _ := token.FindName();
        if token.Matches(szName) {
          return;
        }
        i := elem[i].next;
        r := Skip(r.rest);
      }
      NoneLeft(doc, elem, r, p, szName);
    }

    /** `FindElem` with a name, or with none. */
    method FindElem(szName: string) returns (ok: bool)
      requires Valid() && Saving()
      modifies this`iPosParent, this`iPos, this`iPosChild
      ensures Valid()
      ensures var i := FirstNamed(SiblingsAfter(tree, old(iPosParent), old(iPos)), szName);
              && ok == (i != 0)
              && View() == if ok then Apply(old(View()), Move(old(iPosParent), i, 0)) else old(View())
      ensures var s := TopSeq(Below(tree, old(iPosParent)));
              Finds(tree, s, SearchFrom(s, old(iPos)), szName, if ok then iPos else 0)
      ensures iPosParent == old(iPosParent) && if ok then iPosChild == 0 else iPos == old(iPos) && iPosChild == old(iPosChild)
      ensures Saving() && savedPos.saved == old(savedPos.saved)
    {
      hide Saving;
      hide Finds, SearchFrom, Represents, FirstNamed, SiblingsAfter, Distinct, Linked, Shape, Top;
      RepresentsParts(doc, elem, iPosFree, tree);
      SearchIs(tree, iPosParent, iPos, szName);
      var i := FindSibling(iPosParent, iPos, szName);
      if i != 0 {
        FoundSibling(elem, tree, iPosParent, iPos, szName);
        iPosParent, iPos, iPosChild := elem[i].parent, i, 0;
        StillSaving();
        return true;
      }
      StillSaving();
      return false;
    }

    /** `FindChildElem` with a name, or with none: without a main position the first element is entered.
        When there is no such element, the search goes over the top of the document. */
    method FindChildElem(szName: string) returns (ok: bool)
      requires Valid() && Saving()
      modifies this`iPosParent, this`iPos, this`iPosChild
      ensures Valid()
      ensures var main := if old(iPos) != 0 then old(iPos) else FirstNamed(SiblingsAfter(tree, old(iPosParent), 0), "");
              var child := if old(iPos) != 0 || main == 0 then old(iPosChild) else 0;
              var i := FirstNamed(SiblingsAfter(tree, main, child), szName);
              && ok == (i != 0)
              && View() == Apply(old(View()), if ok then Move(if main == 0 then 0 else old(iPosParent), main, i) else Move(old(iPosParent), main, child))
      ensures old(iPos) != 0 ==>
                && iPosParent == old(iPosParent) && iPos == old(iPos) && (!ok ==> iPosChild == old(iPosChild))
                && var s := TopSeq(Below(tree, iPos)); Finds(tree, s, SearchFrom(s, old(iPosChild)), szName, if ok then iPosChild else 0)
      ensures Saving() && savedPos.saved == old(savedPos.saved)
    {
      hide Saving;
      hide Finds, SearchFrom, Represents, FirstNamed, SiblingsAfter, Distinct, Linked, Shape, Top;
      if iPos == 0 {
        var _ := FindElem("");
      }
      RepresentsParts(doc, elem, iPosFree, tree);
      CursorParent(tree, iPosParent, iPos, iPosChild);
      SearchIs(tree, iPos, iPosChild, szName);
      var i := FindSibling(iPos, iPosChild, szName);
      if i != 0 {
        FoundSibling(elem, tree, iPos, iPosChild, szName);
        var main := elem[i].parent;
        if main != 0 { FoundParent(elem, tree, iPosParent, main); }
        iPosParent, iPos, iPosChild := elem[main].parent, main, i;
        StillSaving();
        return true;
      }
      StillSaving();
      return false;
    }

    // ---- Saved positions ----

    /** `SavePos`. */
    method SavePos(szPosName: string)
      requires Valid() && Saving()
      modifies savedPos`saved, savedPos.pTable, savedPos.Buckets()
      ensures Valid() && Saving() && savedPos.saved == old(savedPos.saved)[szPosName := SavedPositions.ToSave(iPosParent, iPos, iPosChild)]
    {
      hide Represents, Marked, CursorOk, SavedPositions.Stores, SavedPositions.AliveAt, Linked, Shape, Distinct;
      RepresentsParts(doc, elem, iPosFree, tree);
      SavedPositions.SavedAlive(tree, iPosParent, iPos, iPosChild);
      savedPos.SavePos(szPosName, iPosParent, iPos, iPosChild);
    }

    /** `RestorePos`: the cursor moves to the positions that the name stands for, if it stands for any. */
    method RestorePos(szPosName: string) returns (ok: bool)
      requires Valid() && Saving()
      modifies this`iPosParent, this`iPos, this`iPosChild
      ensures Valid() && Saving() && ok == (szPosName in savedPos.saved)
      ensures ok ==> SavedPositions.InIndex(elem, savedPos.saved[szPosName])
      ensures View() == if !ok then old(View()) else
                        var (parent, main, child) := SavedPositions.Restored(elem, savedPos.saved[szPosName]);
                        Apply(old(View()), Move(parent, main, child))
    {
      hide Represents, Marked, CursorOk, SavedPositions.Stores, SavedPositions.AliveAt, SavedPositions.Restored, SavedPositions.InIndex;
      forall x | x in savedPos.saved ensures SavedPositions.InIndex(elem, savedPos.saved[x]) {
        SavedPositions.RestoredOk(doc, elem, iPosFree, tree, savedPos.saved[x]);
      }
      var parent, main, child;
      ok, parent, main, child := savedPos.RestorePos(szPosName, elem);
      if ok {
        SavedPositions.RestoredOk(doc, elem, iPosFree, tree, savedPos.saved[szPosName]);
        iPosParent, iPos, iPosChild := parent, main, child;
        assert savedPos.Buckets() == old(savedPos.Buckets());
      }
    }

    // ---- Reading the document again ----

    /** A second object that reads the document from scratch: its index is the one that the edits have
        maintained, up to the numbering of slots, exactly when the content is a well-formed document. */
    method Reparse() returns (fresh': CMarkup)
      requires Valid()
      ensures fresh(fresh') && fresh'.doc == doc && 8 <= |fresh'.elem|
      ensures !fresh'.elem[0].illFormed && SameIndex(elem, tree, fresh'.elem, fresh'.tree) <==> WFDoc(tree)
      ensures WFDoc(tree) ==> fresh'.Valid()
    {
      hide Represents, SameIndex, WFDoc, ParseDoc, Indexed, Erase, CursorOk;
      fresh' := new CMarkup(doc);
      InStepIff(doc, elem, iPosFree, tree, fresh'.elem, fresh'.iPosFree, fresh'.tree);
    }
  }
}
