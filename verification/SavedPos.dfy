/** The hash table of saved positions of Baselib/Markup.cpp: `SavePos`, `RestorePos` and `x_CheckSavedPos` on one
    `SavedPosMap`.  A bucket is an array whose last entry carries a mark; the entries in use come first. */
module SavedPositions {

  import opened Content
  import opened Index
  import opened Edit
  import opened Position
  import opened Represent
  import opened Navigate
  import Escaping

  /** `SavedPos`; each flag has its own field. */
  datatype SavedPos = SavedPos(name: string, iPos: nat, main: bool, child: bool, used: bool, last: bool)

  const UNUSED := SavedPos("", 0, false, false, false, false)

  /** What a name stands for: a child position, a main position, or a parent position. */
  datatype Saved = Saved(iPos: nat, main: bool, child: bool)

  function Value(e: SavedPos): Saved {
    Saved(e.iPos, e.main, e.child)
  }

  type Bucket = seq<SavedPos>

  /** The number of entries in use at the front. */
  function UsedLen(b: Bucket): (n: nat)
    ensures n <= |b| && (n < |b| ==> !b[n].used) && forall k :: 0 <= k < n ==> b[k].used
  {
    if b == [] || !b[0].used then 0 else
      var n := UsedLen(b[1..]);
      assert forall k :: 0 < k < n + 1 ==> b[k] == b[1..][k - 1];
      1 + n
  }

  lemma UsedLenIs(b: Bucket, n: nat)
    requires n <= |b| && (n < |b| ==> !b[n].used) && forall k :: 0 <= k < n ==> b[k].used
    ensures UsedLen(b) == n
  {
  }

  function Slot(name: string, size: nat): (n: nat)
    requires size > 0
    ensures n < size
  {
    Escaping.Hash(name) % size
  }

  /** The names in use are different and belong to slot `n`, no entry behind them is in use, and only the last
      entry carries the mark. */
  predicate BucketOk(b: Bucket, n: nat, size: nat)
    requires size > 0
  {
    var u := UsedLen(b);
    && (forall k :: 0 <= k < |b| ==> (b[k].last <==> k == |b| - 1) && (b[k].used <==> k < u))
    && (forall k :: 0 <= k < u ==> Slot(b[k].name, size) == n)
    && NamesApart(b, u)
  }

  predicate NamesApart(b: Bucket, u: nat)
    requires u <= |b|
  {
    forall j, k :: 0 <= j < k < u ==> b[j].name != b[k].name
  }

  /** Where the name is in the bucket, or how many entries are in use. */
  function IndexOf(b: Bucket, name: string): (k: nat)
    ensures k <= UsedLen(b) && (k < UsedLen(b) ==> b[k].name == name) && forall j :: 0 <= j < k ==> b[j].name != name
  {
    if b == [] || !b[0].used || b[0].name == name then 0 else
      var k := IndexOf(b[1..], name);
      assert forall j :: 0 < j < k + 1 ==> b[j] == b[1..][j - 1];
      1 + k
  }

  /** What the bucket says about a name. */
  predicate Says(b: Bucket, name: string, m: map<string, Saved>) {
    var k := IndexOf(b, name);
    (name in m <==> k < UsedLen(b)) && (k < UsedLen(b) ==> m[name] == Value(b[k]))
  }

  /** The bucket holds the part of the map that belongs to slot `n`. */
  ghost predicate Stores(b: Bucket, n: nat, size: nat, m: map<string, Saved>)
    requires size > 0
  {
    BucketOk(b, n, size) && forall name :: Slot(name, size) == n ==> Says(b, name, m)
  }

  lemma IndexOfIs(b: Bucket, name: string, k: nat)
    requires k <= UsedLen(b) && (k < UsedLen(b) ==> b[k].name == name) && forall j :: 0 <= j < k ==> b[j].name != name
    ensures IndexOf(b, name) == k
  {
  }

  // ---- SavePos ----

  /** The entry for a saved position, in place of one that had the mark or not. */
  function Entry(name: string, v: Saved, last: bool): SavedPos {
    SavedPos(name, v.iPos, v.main, v.child, true, last)
  }

  function Stored(b: Bucket, k: nat, name: string, v: Saved): Bucket
    requires k < |b|
  {
    b[k := Entry(name, v, b[k].last)]
  }

  /** Storing an entry where the name is, or behind the entries in use. */
  lemma PutOk(b: Bucket, n: nat, size: nat, k: nat, name: string, v: Saved)
    requires size > 0 && BucketOk(b, n, size) && Slot(name, size) == n && k < |b| && k == IndexOf(b, name)
    ensures BucketOk(Stored(b, k, name, v), n, size) && UsedLen(Stored(b, k, name, v)) == if k < UsedLen(b) then UsedLen(b) else UsedLen(b) + 1
  {
    hide Slot, IndexOf, UsedLen;
    var u := UsedLen(b);
    UsedLenIs(Stored(b, k, name, v), if k < u then u else u + 1);
  }

  lemma PutSays(b: Bucket, n: nat, size: nat, m: map<string, Saved>, k: nat, name: string, v: Saved, x: string)
    requires size > 0 && BucketOk(b, n, size) && Slot(name, size) == n && k < |b| && k == IndexOf(b, name) && Says(b, x, m)
    ensures Says(Stored(b, k, name, v), x, m[name := v])
  {
    hide Slot, IndexOf, UsedLen;
    PutOk(b, n, size, k, name, v);
    var b' := Stored(b, k, name, v);
    if x == name {
      IndexOfIs(b', x, k);
    } else {
      var i := IndexOf(b, x);
      IndexOfIs(b', x, if i < UsedLen(b) then i else UsedLen(b'));
    }
  }

  lemma PutKeeps(b: Bucket, n: nat, size: nat, m: map<string, Saved>, k: nat, name: string, v: Saved)
    requires size > 0 && Stores(b, n, size, m) && Slot(name, size) == n && k < |b| && k == IndexOf(b, name)
    ensures Stores(Stored(b, k, name, v), n, size, m[name := v])
  {
    hide Slot, IndexOf, BucketOk, Says, Stored;
    PutOk(b, n, size, k, name, v);
    forall x | Slot(x, size) == n ensures Says(Stored(b, k, name, v), x, m[name := v]) {
      PutSays(b, n, size, m, k, name, v, x);
    }
  }

  /** A bucket in use to the last entry, copied to a longer array. */
  function Grown(b: Bucket): Bucket
    requires b != []
  {
    var n := |b| - 1;
    b[..n] + [b[n].(last := false)] + seq((n + 6) * 2 - |b| - 1, _ => UNUSED) + [UNUSED.(last := true)]
  }

  lemma GrowOk(b: Bucket, n: nat, size: nat)
    requires size > 0 && b != [] && UsedLen(b) == |b| && BucketOk(b, n, size)
    ensures UsedLen(Grown(b)) == |b| && |Grown(b)| == (|b| + 5) * 2 && BucketOk(Grown(b), n, size)
  {
    hide Slot, UsedLen;
    UsedLenIs(Grown(b), |b|);
  }

  lemma GrowKeeps(b: Bucket, n: nat, size: nat, m: map<string, Saved>)
    requires size > 0 && b != [] && UsedLen(b) == |b| && Stores(b, n, size, m)
    ensures Stores(Grown(b), n, size, m)
  {
    hide Slot, BucketOk, UsedLen;
    GrowOk(b, n, size);
    forall x | Slot(x, size) == n ensures Says(Grown(b), x, m) {
      assert Says(b, x, m);
      GrowSame(b);
      IndexOfIs(Grown(b), x, IndexOf(b, x));
    }
  }

  lemma GrowSame(b: Bucket)
    requires b != []
    ensures |Grown(b)| > |b| && forall k :: 0 <= k < |b| ==> Grown(b)[k].name == b[k].name && Value(Grown(b)[k]) == Value(b[k])
  {
  }

  /** A map without names for the slot is stored by a bucket without entries. */
  lemma EmptyStores(b: Bucket, n: nat, size: nat, m: map<string, Saved>)
    requires size > 0 && BucketOk(b, n, size) && UsedLen(b) == 0 && Stores([], n, size, m)
    ensures Stores(b, n, size, m)
  {
    hide Slot;
    forall x | Slot(x, size) == n ensures Says(b, x, m) {
      assert Says([], x, m);
    }
  }

  /** A bucket of another slot is not touched by a new name. */
  lemma OtherSlot(b: Bucket, n: nat, size: nat, m: map<string, Saved>, name: string, v: Saved)
    requires size > 0 && Stores(b, n, size, m) && Slot(name, size) != n
    ensures Stores(b, n, size, m[name := v])
  {
    hide Slot, BucketOk, IndexOf;
    forall x | Slot(x, size) == n ensures Says(b, x, m[name := v]) {
      assert Says(b, x, m);
    }
  }

  // ---- x_CheckSavedPos ----

  /** The entry is in use and its element has not been deleted. */
  predicate Live(e: SavedPos, elem: Elems) {
    e.used && e.iPos < |elem| && !elem[e.iPos].deleted
  }

  /** The live ones of the first `n` entries. */
  function Kept(b: Bucket, elem: Elems, n: nat): (s: Bucket)
    requires n <= |b|
    ensures |s| <= n
  {
    if n == 0 then [] else Kept(b, elem, n - 1) + if Live(b[n - 1], elem) then [b[n - 1]] else []
  }

  /** The part of the map whose elements have not been deleted. */
  function Survivors(m: map<string, Saved>, elem: Elems): map<string, Saved> {
    map x | x in m && m[x].iPos < |elem| && !elem[m[x].iPos].deleted :: m[x]
  }

  /** The live entries have moved to the front, in order, and the mark has stayed where it was. */
  predicate Compacted(b: Bucket, b': Bucket, elem: Elems) {
    var s := Kept(b, elem, |b|);
    && |b'| == |b|
    && (forall k :: 0 <= k < |s| ==> b'[k].name == s[k].name && Value(b'[k]) == Value(s[k]))
    && forall k :: 0 <= k < |b| ==> b'[k].last == b[k].last && (b'[k].used <==> k < |s|)
  }

  /** The entries of `s` are in use at the front of `b`, whatever their marks. */
  predicate Front(b: Bucket, s: Bucket) {
    |s| <= |b| && forall k :: 0 <= k < |s| ==> b[k].used && b[k].name == s[k].name && Value(b[k]) == Value(s[k])
  }

  lemma KeptNone(b: Bucket, elem: Elems)
    ensures Kept(b, elem, 0) == []
  {
  }

  lemma KeptNext(b: Bucket, elem: Elems, n: nat)
    requires n < |b|
    ensures Kept(b, elem, n + 1) == Kept(b, elem, n) + if Live(b[n], elem) then [b[n]] else []
  {
  }

  lemma {:induction false} KeptIs(b: Bucket, elem: Elems, n: nat, e: SavedPos)
    requires n <= |b|
    ensures e in Kept(b, elem, n) <==> exists j :: 0 <= j < n && b[j] == e && Live(e, elem)
  {
    if n > 0 {
      KeptIs(b, elem, n - 1, e);
      assert e in Kept(b, elem, n) <==> e in Kept(b, elem, n - 1) || (Live(b[n - 1], elem) && e == b[n - 1]);
    }
  }

  /** No name comes twice. */
  lemma {:induction false} KeptApart(b: Bucket, elem: Elems, n: nat, u: nat)
    requires n <= |b| && u <= |b| && (forall k :: 0 <= k < |b| ==> (b[k].used <==> k < u)) && NamesApart(b, u)
    ensures NamesApart(Kept(b, elem, n), |Kept(b, elem, n)|)
  {
    if n > 0 {
      KeptApart(b, elem, n - 1, u);
      var s, e := Kept(b, elem, n - 1), b[n - 1];
      if Live(e, elem) {
        forall j | 0 <= j < |s| ensures s[j].name != e.name {
          assert s[j] in s;
          KeptIs(b, elem, n - 1, s[j]);
        }
        assert Kept(b, elem, n) == s + [e];
      } else {
        assert Kept(b, elem, n) == s;
      }
    }
  }

  lemma CompactSays(b: Bucket, b': Bucket, n: nat, size: nat, m: map<string, Saved>, elem: Elems, x: string)
    requires size > 0 && BucketOk(b, n, size) && Compacted(b, b', elem) && Says(b, x, m) && UsedLen(b') == |Kept(b, elem, |b|)|
    ensures Says(b', x, Survivors(m, elem))
  {
    hide Slot, IndexOf, UsedLen, Kept;
    var s, k := Kept(b, elem, |b|), IndexOf(b, x);
    KeptApart(b, elem, |b|, UsedLen(b));
    if k < UsedLen(b) && Live(b[k], elem) {
      KeptIs(b, elem, |b|, b[k]);
      var i :| 0 <= i < |s| && s[i] == b[k];
      IndexOfIs(b', x, i);
    } else {
      forall j | 0 <= j < |s| ensures s[j].name != x {
        assert s[j] in s;
        KeptIs(b, elem, |b|, s[j]);
      }
      IndexOfIs(b', x, |s|);
    }
  }

  lemma CompactOk(b: Bucket, b': Bucket, n: nat, size: nat, elem: Elems)
    requires size > 0 && BucketOk(b, n, size) && Compacted(b, b', elem)
    ensures BucketOk(b', n, size) && UsedLen(b') == |Kept(b, elem, |b|)|
  {
    hide Slot, UsedLen, Kept;
    var s := Kept(b, elem, |b|);
    UsedLenIs(b', |s|);
    KeptApart(b, elem, |b|, UsedLen(b));
    forall k | 0 <= k < |s| ensures Slot(b'[k].name, size) == n {
      assert s[k] in s;
      KeptIs(b, elem, |b|, s[k]);
    }
    assert UsedLen(b') == |s|;
    forall j, k | 0 <= j < k < |s| ensures b'[j].name != b'[k].name {
      assert b'[j].name == s[j].name && b'[k].name == s[k].name;
    }
  }

  /** Exactly the entries of deleted elements vanish. */
  lemma CompactKeeps(b: Bucket, b': Bucket, n: nat, size: nat, m: map<string, Saved>, elem: Elems)
    requires size > 0 && Stores(b, n, size, m) && Compacted(b, b', elem)
    ensures Stores(b', n, size, Survivors(m, elem))
  {
    hide Slot, UsedLen, Says, Kept, BucketOk, Compacted, Survivors;
    CompactOk(b, b', n, size, elem);
    forall x | Slot(x, size) == n ensures Says(b', x, Survivors(m, elem)) {
      CompactSays(b, b', n, size, m, elem, x);
    }
  }

  /** An entry in use is what the map says of its name. */
  lemma UsedStored(b: Bucket, n: nat, size: nat, m: map<string, Saved>, k: nat)
    requires size > 0 && Stores(b, n, size, m) && k < |b| && b[k].used
    ensures b[k].name in m && m[b[k].name] == Value(b[k])
  {
    hide Slot, UsedLen, IndexOf;
    IndexOfIs(b, b[k].name, k);
    assert Says(b, b[k].name, m);
  }

  /** What `SavePos` stores for the current positions. */
  function ToSave(parent: nat, main: nat, child: nat): Saved {
    if child != 0 then Saved(child, false, true) else if main != 0 then Saved(main, true, false) else Saved(parent, false, false)
  }

  class SavedPosMap {
    const nMapSize: nat
    const pTable: array<array?<SavedPos>>
    /** The map that the table stands for. */
    ghost var saved: map<string, Saved>

    ghost function Buckets(): set<object>
      reads pTable
    {
      set n | 0 <= n < pTable.Length && pTable[n] != null :: pTable[n]
    }

    ghost function BucketAt(n: nat): Bucket
      requires n < pTable.Length
      reads pTable, Buckets()
    {
      if pTable[n] == null then [] else assert pTable[n] in Buckets(); pTable[n][..]
    }

    ghost predicate Apart()
      reads pTable
    {
      && (forall n :: 0 <= n < pTable.Length && pTable[n] != null ==> pTable[n].Length > 0)
      && forall m, n :: 0 <= m < n < pTable.Length && pTable[m] != null ==> pTable[m] != pTable[n]
    }

    ghost predicate Valid()
      reads this, pTable, Buckets()
    {
      && 0 < nMapSize == pTable.Length && Apart()
      && forall n :: 0 <= n < nMapSize ==> Stores(BucketAt(n), n, nMapSize, saved)
    }

    constructor (nSize: nat)
      requires 0 < nSize
      ensures Valid() && saved == map[] && fresh(pTable) && Buckets() == {} && nMapSize == nSize
    {
      nMapSize := nSize;
      pTable := new array?<SavedPos>[nSize](_ => null);
      saved := map[];
    }

    /** `SavePos` at the given positions: the name now stands for them, and no other name is touched. */
    method SavePos(szPosName: string, parent: nat, main: nat, child: nat)
      requires Valid()
      modifies this`saved, pTable, Buckets()
      ensures Valid() && saved == old(saved)[szPosName := ToSave(parent, main, child)]
    {
      hide Stores, BucketOk, Slot, IndexOf;
      var savedpos := ToSave(parent, main, child);
      var nSlot := Slot(szPosName, nMapSize);
      if pTable[nSlot] == null {
        FirstBucket(nSlot);
      }
      var nOffset := FindOrGrow(nSlot, szPosName);
      WriteEntry(nSlot, nOffset, szPosName, savedpos);
    }

    /** The entry is written, with the mark of the one that it replaces. */
    method WriteEntry(nSlot: nat, nOffset: nat, szPosName: string, savedpos: Saved)
      requires Valid() && nSlot == Slot(szPosName, nMapSize) && pTable[nSlot] != null
      requires nOffset == IndexOf(BucketAt(nSlot), szPosName) < pTable[nSlot].Length
      modifies this`saved, pTable[nSlot]
      ensures Valid() && saved == old(saved)[szPosName := savedpos]
    {
      hide Stores, BucketOk, Slot, IndexOf;
      ghost var b, m := BucketAt(nSlot), saved;
      PutKeeps(b, nSlot, nMapSize, m, nOffset, szPosName, savedpos);
      forall n | 0 <= n < nMapSize && n != nSlot ensures Stores(BucketAt(n), n, nMapSize, m[szPosName := savedpos]) {
        OtherSlot(BucketAt(n), n, nMapSize, m, szPosName, savedpos);
      }
      label Before:
      pTable[nSlot][nOffset] := Entry(szPosName, savedpos, pTable[nSlot][nOffset].last);
      saved := saved[szPosName := savedpos];
      assert BucketAt(nSlot) == Stored(b, nOffset, szPosName, savedpos);
      assert forall n :: 0 <= n < nMapSize && n != nSlot ==> BucketAt(n) == old@Before(BucketAt(n));
    }

    /** The part of `SavePos` for a bucket that is not there yet. */
    method FirstBucket(nSlot: nat)
      requires Valid() && nSlot < nMapSize && pTable[nSlot] == null
      modifies pTable
      ensures Valid() && pTable[nSlot] != null && fresh(pTable[nSlot])
      ensures forall n :: 0 <= n < nMapSize && n != nSlot ==> pTable[n] == old(pTable[n])
    {
      hide Stores, Slot, IndexOf;
      assert Stores(BucketAt(nSlot), nSlot, nMapSize, saved);
      var p := new SavedPos[2](_ => UNUSED);
      p[1] := UNUSED.(last := true);
      UsedLenIs(p[..], 0);
      EmptyStores(p[..], nSlot, nMapSize, saved);
      pTable[nSlot] := p;
      assert forall n :: 0 <= n < nMapSize && n != nSlot ==> BucketAt(n) == old(BucketAt(n));
    }

    /** The part of `SavePos` that finds the entry to write to: the one that has the name, or the first that is not in
        use, for which the bucket grows if it is full. */
    method FindOrGrow(nSlot: nat, szPosName: string) returns (nOffset: nat)
      requires Valid() && nSlot < nMapSize && pTable[nSlot] != null
      modifies pTable
      ensures Valid() && pTable[nSlot] != null && (pTable[nSlot] == old(pTable[nSlot]) || fresh(pTable[nSlot]))
      ensures forall n :: 0 <= n < nMapSize && n != nSlot ==> pTable[n] == old(pTable[n])
      ensures nOffset == IndexOf(BucketAt(nSlot), szPosName) < pTable[nSlot].Length
    {
      hide Slot, IndexOf, UsedLen;
      var p := pTable[nSlot];
      ghost var b := p[..];
      assert b == BucketAt(nSlot) && Stores(b, nSlot, nMapSize, saved);
      nOffset := 0;
      while p[nOffset].used
        invariant nOffset < p.Length && nOffset <= UsedLen(b)
        invariant forall j :: 0 <= j < nOffset ==> b[j].name != szPosName
        decreases p.Length - nOffset
      {
        if p[nOffset].name == szPosName {
          break;
        }
        if p[nOffset].last {
          UsedLenIs(b, |b|);
          Grow(nSlot);
          nOffset := nOffset + 1;
          IndexOfIs(BucketAt(nSlot), szPosName, nOffset);
          return;
        }
        nOffset := nOffset + 1;
      }
      IndexOfIs(b, szPosName, nOffset);
    }

    /** The part of `SavePos` that copies a full bucket to a longer one. */
    method Grow(nSlot: nat)
      requires Valid() && nSlot < nMapSize && pTable[nSlot] != null && UsedLen(BucketAt(nSlot)) == pTable[nSlot].Length
      modifies pTable
      ensures Valid() && pTable[nSlot] != null && fresh(pTable[nSlot])
      ensures forall n :: 0 <= n < nMapSize && n != nSlot ==> pTable[n] == old(pTable[n])
      ensures BucketAt(nSlot) == Grown(old(BucketAt(nSlot)))
    {
      hide Stores, Slot, UsedLen;
      var p := pTable[nSlot];
      ghost var b := p[..];
      assert b == BucketAt(nSlot) && Stores(b, nSlot, nMapSize, saved);
      GrowKeeps(b, nSlot, nMapSize, saved);
      var nOffset := p.Length - 1;
      var nNewSize := (nOffset + 6) * 2;
      var q := new SavedPos[nNewSize](_ => UNUSED);
      forall k | 0 <= k <= nOffset { q[k] := p[k]; }
      q[nOffset] := q[nOffset].(last := false);
      q[nNewSize - 1] := UNUSED.(last := true);
      assert q[..] == Grown(b);
      pTable[nSlot] := q;
      assert forall n :: 0 <= n < nMapSize && n != nSlot ==> BucketAt(n) == old(BucketAt(n));
    }

    /** `RestorePos`: the positions that the name stands for, in an index in which its element has not been deleted. */
    method RestorePos(szPosName: string, elem: Elems) returns (ok: bool, parent: nat, main: nat, child: nat)
      requires Valid() && forall x :: x in saved ==> InIndex(elem, saved[x])
      ensures ok == (szPosName in saved)
      ensures ok ==> (parent, main, child) == Restored(elem, saved[szPosName])
    {
      hide Slot, IndexOf, UsedLen;
      var nSlot := Slot(szPosName, nMapSize);
      var p := pTable[nSlot];
      ghost var b := BucketAt(nSlot);
      assert Stores(b, nSlot, nMapSize, saved) && Says(b, szPosName, saved);
      parent, main, child := 0, 0, 0;
      if p == null {
        NoEntries();
        return false, 0, 0, 0;
      }
      var nOffset := 0;
      while p[nOffset].used
        invariant nOffset < p.Length && nOffset <= UsedLen(b) && forall j :: 0 <= j < nOffset ==> b[j].name != szPosName
        decreases p.Length - nOffset
      {
        if p[nOffset].name == szPosName {
          IndexOfIs(b, szPosName, nOffset);
          var i := p[nOffset].iPos;
          ok := true;
          if p[nOffset].child {
            parent, main, child := elem[elem[i].parent].parent, elem[i].parent, i;
          } else if p[nOffset].main {
            parent, main := elem[i].parent, i;
          } else {
            parent := i;
          }
          return;
        }
        if p[nOffset].last {
          nOffset := nOffset + 1;
          break;
        }
        nOffset := nOffset + 1;
      }
      IndexOfIs(b, szPosName, nOffset);
      return false, 0, 0, 0;
    }

    /** `x_CheckSavedPos`: exactly the names of deleted elements vanish. */
    method CheckSavedPos(elem: Elems)
      requires Valid() && forall x :: x in saved ==> saved[x].iPos < |elem|
      modifies this`saved, Buckets()
      ensures Valid() && saved == Survivors(old(saved), elem)
    {
      hide Stores, Survivors;
      ghost var m := Survivors(saved, elem);
      for nSlot := 0 to nMapSize
        invariant Apart() && Buckets() == old(Buckets()) && saved == old(saved)
        invariant forall n :: 0 <= n < nSlot ==> Stores(BucketAt(n), n, nMapSize, m)
        invariant forall n :: nSlot <= n < nMapSize ==> Stores(BucketAt(n), n, nMapSize, old(saved))
      {
        label Turn:
        ghost var b := BucketAt(nSlot);
        if pTable[nSlot] != null {
          forall k | 0 <= k < |b| && b[k].used ensures b[k].iPos < |elem| { UsedStored(b, nSlot, nMapSize, saved, k); }
          Compact(pTable[nSlot], elem, nSlot, nMapSize, saved);
          assert forall n :: 0 <= n < nMapSize && n != nSlot ==> BucketAt(n) == old@Turn(BucketAt(n));
        } else {
          EmptySurvives(nSlot, nMapSize, saved, elem);
        }
      }
      saved := m;
    }

    /** The part of `x_CheckSavedPos` for one bucket, in place. */
    static method Compact(p: array<SavedPos>, elem: Elems, ghost n: nat, ghost size: nat, ghost m: map<string, Saved>)
      requires size > 0 && Stores(p[..], n, size, m) && p.Length > 0
      requires forall k :: 0 <= k < p.Length && p[k].used ==> p[k].iPos < |elem|
      modifies p
      ensures Stores(p[..], n, size, Survivors(m, elem))
    {
      hide Slot, IndexOf, UsedLen, Says, Survivors, Kept, NamesApart;
      ghost var b := p[..];
      var nOffset, nSavedPosCount := 0, 0;
      KeptNone(b, elem);
      while true
        invariant 0 <= nSavedPosCount <= nOffset < p.Length && nSavedPosCount == |Kept(b, elem, nOffset)|
        invariant Front(p[..], Kept(b, elem, nOffset))
        invariant forall k :: 0 <= k < p.Length ==> p[k].last == b[k].last
        invariant forall k :: nOffset <= k < p.Length ==> p[k] == b[k]
        decreases p.Length - nOffset
      {
        KeptNext(b, elem, nOffset);
        if p[nOffset].used {
          var iPos := p[nOffset].iPos;
          if !elem[iPos].deleted {
            if nSavedPosCount < nOffset {
              p[nSavedPosCount] := p[nOffset];
              p[nSavedPosCount] := p[nSavedPosCount].(last := false);
            }
            nSavedPosCount := nSavedPosCount + 1;
          }
        }
        assert Front(p[..], Kept(b, elem, nOffset + 1));
        if p[nOffset].last {
          break;
        }
        nOffset := nOffset + 1;
      }
      ClearFrom(p, nSavedPosCount);
      CompactKeeps(b, p[..], n, size, m, elem);
    }

    /** The inner loop of `x_CheckSavedPos`: no entry from `from` on is in use. */
    static method ClearFrom(p: array<SavedPos>, from: nat)
      requires from <= p.Length
      modifies p
      ensures forall k :: 0 <= k < p.Length ==> p[k] == if k < from then old(p[k]) else old(p[k]).(used := false)
    {
      var n := from;
      while n < p.Length
        invariant from <= n <= p.Length
        invariant forall k :: 0 <= k < p.Length ==> p[k] == if from <= k < n then old(p[k]).(used := false) else old(p[k])
      {
        p[n] := p[n].(used := false);
        n := n + 1;
      }
    }
  }

  lemma NoEntries()
    ensures UsedLen([]) == 0
  {
  }

  lemma EmptySurvives(n: nat, size: nat, m: map<string, Saved>, elem: Elems)
    requires size > 0 && Stores([], n, size, m)
    ensures Stores([], n, size, Survivors(m, elem))
  {
    hide Slot;
    forall x | Slot(x, size) == n ensures Says([], x, Survivors(m, elem)) { assert Says([], x, m); }
  }

  // ---- What is restored ----

  /** The element of a saved position, and those around it, are in the index. */
  predicate InIndex(elem: Elems, v: Saved) {
    && v.iPos < |elem|
    && (v.main || v.child ==> elem[v.iPos].parent < |elem|)
  }

  function Restored(elem: Elems, v: Saved): (nat, nat, nat)
    requires InIndex(elem, v)
  {
    if v.child then (elem[elem[v.iPos].parent].parent, elem[v.iPos].parent, v.iPos)
    else if v.main then (elem[v.iPos].parent, v.iPos, 0)
    else (v.iPos, 0, 0)
  }

  /** Every saved element is in the document; slot 0 stands for the document. */
  predicate Alive(m: map<string, Saved>, c: Content) {
    forall x :: x in m ==> AliveAt(m[x], c)
  }

  predicate AliveAt(v: Saved, c: Content) {
    if v.iPos == 0 then !v.main && !v.child else v.iPos in Ids(c)
  }

  /** The names whose elements are in the document. */
  function SavedIn(m: map<string, Saved>, c: Content): map<string, Saved> {
    map x | x in m && (m[x].iPos == 0 || m[x].iPos in Ids(c)) :: m[x]
  }

  /** When the marks in the records are right, the names that survive are those whose elements are in the document;
      `c0` is the document when the positions were saved. */
  lemma SurvivorsIn(doc: string, elem: Elems, free: nat, c: Content, m: map<string, Saved>, c0: Content)
    requires Represents(doc, elem, free, c) && Marked(elem, free, c) && Alive(m, c0) && SlotsBelow(c0, free)
    ensures Survivors(m, elem) == SavedIn(m, c) && Alive(SavedIn(m, c), c) && forall x :: x in m ==> m[x].iPos < |elem|
  {
    hide Represents;
    RepresentsParts(doc, elem, free, c);
    forall x | x in m ensures m[x].iPos < |elem| && (elem[m[x].iPos].deleted <==> m[x].iPos != 0 && m[x].iPos !in Ids(c)) {
      assert AliveAt(m[x], c0);
      if m[x].iPos in Ids(c) { ElementAt(doc, elem, free, c, m[x].iPos); }
    }
  }

  lemma SavedAlive(c: Content, parent: nat, main: nat, child: nat)
    requires CursorOk(c, parent, main, child) && Distinct(c)
    ensures AliveAt(ToSave(parent, main, child), c)
  {
    hide Distinct;
    TargetParent(c, parent, main, child);
  }

  /** The positions that a saved position stands for are positions in the document. */
  lemma RestoredOk(doc: string, elem: Elems, free: nat, c: Content, v: Saved)
    requires Represents(doc, elem, free, c) && AliveAt(v, c)
    ensures InIndex(elem, v) && var (parent, main, child) := Restored(elem, v); CursorOk(c, parent, main, child)
  {
    hide Offsets, Linked, Shape, Distinct;
    if v.iPos != 0 {
      ParentFound(elem, c, v.iPos);
      ParentIndexed(doc, elem, free, c, elem[v.iPos].parent);
      if v.child && elem[v.iPos].parent != 0 { ParentFound(elem, c, elem[v.iPos].parent); }
    }
  }

  lemma ParentIndexed(doc: string, elem: Elems, free: nat, c: Content, q: nat)
    requires Represents(doc, elem, free, c) && IsParent(c, q)
    ensures q < |elem| && (q == 0 ==> elem[q].parent == 0)
  {
    hide Offsets, Linked, Shape, Distinct;
  }
}
