/** `ElemPosTree` of Baselib/Markup.cpp: the element records in segments of equal size, of which only the last one
    used may be shorter, so that growing copies at most one segment.  Everywhere else the records are the flat
    sequence that `Get` reads. */
module ElemPosTrees {

  import opened Index

  /** The size of a whole segment. */
  const FULL: nat := 0x1_0000

  class ElemPosTree {
    var m_pSegs: array<array?<ElemPos>>
    var m_nSize: nat

    ghost predicate Valid()
      reads this, m_pSegs
    {
      && SegsUsed() <= m_pSegs.Length
      && forall n :: 0 <= n < SegsUsed() ==> m_pSegs[n] != null && m_pSegs[n].Length == SegSize(n)
    }

    /** `(m_nSize - 1 >> 16) + 1`. */
    function SegsUsed(): nat
      reads this
    {
      if m_nSize == 0 then 0 else (m_nSize - 1) / FULL + 1
    }

    ghost function SegSize(n: nat): int
      reads this
    {
      if n + 1 < SegsUsed() then FULL else m_nSize - n * FULL
    }

    /** The segments. */
    ghost function Segs(): set<object>
      reads this, m_pSegs
    {
      set n | 0 <= n < m_pSegs.Length && m_pSegs[n] != null :: m_pSegs[n]
    }

    lemma InSegment(i: nat)
      requires Valid() && i < m_nSize
      ensures i / FULL < SegsUsed() && m_pSegs[i / FULL] != null && i % FULL < m_pSegs[i / FULL].Length && m_pSegs[i / FULL] in Segs()
    {
    }

    /** `GetRefElemPosAt`, read. */
    ghost function Get(i: nat): ElemPos
      requires Valid() && i < m_nSize
      reads this, m_pSegs, Segs()
    {
      InSegment(i);
      m_pSegs[i / FULL][i % FULL]
    }

    /** The records, one after another. */
    ghost function Contents(): (s: Elems)
      requires Valid()
      reads this, m_pSegs, Segs()
      ensures |s| == m_nSize && forall i :: 0 <= i < m_nSize ==> s[i] == Get(i)
    {
      seq(m_nSize, i requires Valid() && 0 <= i < m_nSize reads this, m_pSegs, Segs() => Get(i))
    }

    constructor ()
      ensures Valid() && m_nSize == 0 && fresh(m_pSegs)
    {
      m_pSegs := new array?<ElemPos>[0];
      m_nSize := 0;
    }

    /** `x_AllocElemPos`: half as many again, or as many as asked for. */
    method AllocElemPos(iPosFree: nat, asked: nat)
      requires Valid()
      modifies this, m_pSegs
      ensures Valid() && GrownTo(old(Contents()), Contents(), AllocSize(old(m_nSize), iPosFree, asked))
    {
      var nNewSize := asked;
      if nNewSize == 0 {
        nNewSize := iPosFree + iPosFree / 2;
      }
      if m_nSize < nNewSize {
        GrowElemPosTree(nNewSize);
      }
    }

    /** `x_GetFreePos`: a slot that has not been given out, and that has a record, however little the tree could grow. */
    method GetFreePos(iPosFree: nat) returns (i: nat, next: nat)
      requires Valid() && 8 <= m_nSize && iPosFree <= m_nSize
      modifies this, m_pSegs
      ensures Valid() && i == iPosFree < m_nSize && next == iPosFree + 1 <= m_nSize
      ensures GrownTo(old(Contents()), Contents(), FreeSize(old(m_nSize), iPosFree))
    {
      AllocMore(m_nSize, iPosFree, 0);
      if iPosFree == m_nSize {
        AllocElemPos(iPosFree, 0);
      }
      return iPosFree, iPosFree + 1;
    }

    /** `GrowElemPosTree`: by at most one more whole segment.  The records that are there stay, and a segment that is
        whole is not copied. */
    method GrowElemPosTree(nNewSize: nat)
      requires Valid() && m_nSize < nNewSize
      modifies this, m_pSegs
      ensures Valid() && m_nSize == Capped(old(m_nSize), nNewSize) && old(m_nSize) < m_nSize <= nNewSize
      ensures forall i :: 0 <= i < old(m_nSize) ==> Get(i) == old(Get(i))
      ensures forall n :: 0 <= n < old(SegsUsed()) && old(m_pSegs[n].Length) == FULL ==> m_pSegs[n] == old(m_pSegs[n])
    {
      var nSeg := (if m_nSize > 0 then m_nSize - 1 else 0) / FULL;
      var nNewSeg := (nNewSize - 1) / FULL;
      var nSize := nNewSize;
      if nNewSeg > nSeg + 1 {
        nNewSeg := nSeg + 1;
        nSize := (nNewSeg + 1) * FULL;
      }
      MoreSegments(nNewSeg);
      var nSegSize := m_nSize - nSeg * FULL;
      var nNewSegSize := nSize - nNewSeg * FULL;
      if nSeg < nNewSeg && nSegSize < FULL {
        Replace(nSeg, FULL, nSegSize);
      }
      Replace(nNewSeg, nNewSegSize, if nNewSeg == nSeg then nSegSize else 0);
      m_nSize := nSize;
    }

    /** The part of `GrowElemPosTree` that makes room for pointers to segments up to `nNewSeg`. */
    method MoreSegments(nNewSeg: nat)
      requires Valid()
      modifies this`m_pSegs
      ensures m_pSegs == old(m_pSegs) || fresh(m_pSegs)
      ensures nNewSeg < m_pSegs.Length && SegsUsed() <= m_pSegs.Length
      ensures forall n :: 0 <= n < SegsUsed() ==> m_pSegs[n] == old(m_pSegs[n])
    {
      if m_pSegs.Length <= nNewSeg {
        var pNewSegments := new array?<ElemPos>[4 + nNewSeg * 2];
        forall n | 0 <= n < SegsUsed() { pNewSegments[n] := m_pSegs[n]; }
        m_pSegs := pNewSegments;
      }
    }

    /** Segment `n` becomes a new one of `size` records, the first `kept` of which are copied. */
    method Replace(n: nat, size: nat, kept: nat)
      requires n < m_pSegs.Length && kept <= size && (kept > 0 ==> m_pSegs[n] != null && kept <= m_pSegs[n].Length)
      modifies m_pSegs
      ensures m_pSegs[n] != null && fresh(m_pSegs[n]) && m_pSegs[n].Length == size
      ensures forall i :: 0 <= i < kept ==> m_pSegs[n][i] == old(m_pSegs[n][i])
      ensures forall k :: 0 <= k < m_pSegs.Length && k != n ==> m_pSegs[k] == old(m_pSegs[k])
    {
      var p := new ElemPos[size];
      forall i | 0 <= i < kept { p[i] := m_pSegs[n][i]; }
      m_pSegs[n] := p;
    }
  }

  /** The size that growing leads to. */
  function Capped(size: nat, asked: nat): nat {
    var most := ((if size > 0 then size - 1 else 0) / FULL + 2) * FULL;
    if asked > most then most else asked
  }

  /** The size behind `x_AllocElemPos`, where `free` is the next slot. */
  function AllocSize(size: nat, free: nat, asked: nat): nat {
    var n := if asked == 0 then free + free / 2 else asked;
    if size < n then Capped(size, n) else size
  }

  /** The size behind `x_GetFreePos`. */
  function FreeSize(size: nat, free: nat): nat {
    if free == size then AllocSize(size, free, 0) else size
  }

  lemma AllocMore(size: nat, free: nat, asked: nat)
    ensures size <= AllocSize(size, free, asked) && (8 <= asked ==> 8 <= AllocSize(size, free, asked))
    ensures asked == 0 && 8 <= free == size ==> size < AllocSize(size, free, asked)
  {
  }

  /** The records `a` have been lengthened to `n` records, and stay as they were. */
  predicate GrownTo(a: Elems, b: Elems, n: nat) {
    |b| == n >= |a| && b[..|a|] == a
  }
}
