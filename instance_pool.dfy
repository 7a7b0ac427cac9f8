/**
 * The draw group: a fixed pool of instance slots, each holding a matrix, a
 * used flag and a visible flag, plus a root matrix applied to every instance
 * and a cached draw list rebuilt only after something changed.
 *
 * `Pool` is the abstract value of a group; the `After…` functions say what
 * each operation does to it, and `DrawGroup` implements them over arrays.
 */
module InstancePool {
  import opened Transforms

  /** A group's contents: root matrix, per-slot matrix/used/visible, and the search cursor. */
  datatype Pool = Pool(root: Matrix, matrices: seq<Matrix>, used: seq<bool>, visible: seq<bool>, cursor: int)

  /** The three slot arrays have one length and the cursor is a slot (or 0 for an empty pool). */
  predicate PoolValid(p: Pool)
  {
    && |p.matrices| == |p.used| == |p.visible|
    && 0 <= p.cursor
    && (p.cursor == 0 || p.cursor < |p.used|)
  }

  /** A new group of `n` slots, none in use. */
  function EmptyPool(n: nat): (p: Pool)
    ensures PoolValid(p) && |p.used| == n
    ensures forall h :: 0 <= h < n ==> !p.used[h] && !p.visible[h]
  {
    Pool(Identity, seq(n, _ => Identity), seq(n, _ => false), seq(n, _ => false), 0)
  }

  // ---------------------------------------------------------------------------
  // Finding a free slot

  /** The first unused slot in [lo, hi), or -1. */
  function FirstFree(used: seq<bool>, lo: int, hi: int): (r: int)
    requires 0 <= lo <= hi <= |used|
    ensures r == -1 || (lo <= r < hi && !used[r])
    ensures r == -1 ==> forall h :: lo <= h < hi ==> used[h]
    ensures r != -1 ==> forall h :: lo <= h < r ==> used[h]
    decreases hi - lo
  {
    if lo == hi then -1
    else if !used[lo] then lo
    else FirstFree(used, lo + 1, hi)
  }

  /**
   * The slot `Add` takes: the first free slot at or after the cursor, else the
   * first free slot before it; -1 exactly when every slot is in use.
   */
  function FreeSlot(p: Pool): (r: int)
    requires PoolValid(p)
    ensures r == -1 <==> forall h :: 0 <= h < |p.used| ==> p.used[h]
    ensures r != -1 ==> 0 <= r < |p.used| && !p.used[r]
    ensures r >= p.cursor ==> forall h :: p.cursor <= h < r ==> p.used[h]
    ensures 0 <= r < p.cursor ==>
              (forall h :: p.cursor <= h < |p.used| ==> p.used[h]) && (forall h :: 0 <= h < r ==> p.used[h])
  {
    var later := FirstFree(p.used, p.cursor, |p.used|);
    if later >= 0 then later else FirstFree(p.used, 0, p.cursor)
  }

  // ---------------------------------------------------------------------------
  // The operations on the abstract value

  function AfterClear(p: Pool): (q: Pool)
    requires PoolValid(p)
    ensures PoolValid(q)
  {
    p.(used := seq(|p.used|, _ => false), cursor := 0)
  }

  function AfterSetRoot(p: Pool, mtx: Matrix): Pool
  {
    p.(root := mtx)
  }

  /** Takes the free slot (if any) for `mtx` and moves the cursor just past it, wrapping around. */
  function AfterAdd(p: Pool, mtx: Matrix, visible: bool): (q: Pool)
    requires PoolValid(p)
    ensures PoolValid(q)
  {
    var r := FreeSlot(p);
    if r < 0 then p
    else Pool(p.root, p.matrices[r := mtx], p.used[r := true], p.visible[r := visible], (r + 1) % |p.used|)
  }

  /** The slot is a valid index in use: the guard of GetMatrix, Update and SetVisible. */
  predicate InUse(p: Pool, index: int)
    requires PoolValid(p)
  {
    0 <= index < |p.used| && p.used[index]
  }

  function MatrixAt(p: Pool, index: int): Matrix
    requires PoolValid(p)
  {
    if InUse(p, index) then p.matrices[index] else Identity
  }

  function AfterUpdate(p: Pool, index: int, mtx: Matrix): (q: Pool)
    requires PoolValid(p)
    ensures PoolValid(q)
  {
    if InUse(p, index) then p.(matrices := p.matrices[index := mtx]) else p
  }

  function AfterSetVisible(p: Pool, index: int, visible: bool): (q: Pool)
    requires PoolValid(p)
    ensures PoolValid(q)
  {
    if InUse(p, index) then p.(visible := p.visible[index := visible]) else p
  }

  /** Frees any valid slot, whether or not it was in use. */
  function AfterRemove(p: Pool, index: int): (q: Pool)
    requires PoolValid(p)
    ensures PoolValid(q)
  {
    if 0 <= index < |p.used| then p.(used := p.used[index := false]) else p
  }

  // ---------------------------------------------------------------------------
  // Draw lists

  /** The rooted matrices of the used, visible slots below `limit`, in slot order. */
  function DrawListUpTo(root: Matrix, matrices: seq<Matrix>, used: seq<bool>, visible: seq<bool>, limit: nat): seq<Matrix>
    requires limit <= |matrices| == |used| == |visible|
  {
    if limit == 0 then []
    else
      var pre := DrawListUpTo(root, matrices, used, visible, limit - 1);
      if used[limit - 1] && visible[limit - 1] then pre + [Mul(root, matrices[limit - 1])] else pre
  }

  /** The slots a draw list below `limit` shows: exactly the used, visible ones, ascending. */
  function Shown(used: seq<bool>, visible: seq<bool>, limit: nat): (r: seq<int>)
    requires limit <= |used| == |visible|
    ensures forall k :: 0 <= k < |r| ==> 0 <= r[k] < limit
    ensures forall k, l :: 0 <= k < l < |r| ==> r[k] < r[l]
    ensures forall h :: h in r <==> 0 <= h < limit && used[h] && visible[h]
  {
    if limit == 0 then []
    else
      var pre := Shown(used, visible, limit - 1);
      if used[limit - 1] && visible[limit - 1] then pre + [limit - 1] else pre
  }

  /** Entry `k` of a draw list is the rooted matrix of the `k`-th shown slot. */
  lemma {:induction false} DrawListUpToShown(root: Matrix, matrices: seq<Matrix>, used: seq<bool>, visible: seq<bool>,
                                             limit: nat)
    requires limit <= |matrices| == |used| == |visible|
    ensures var s := Shown(used, visible, limit);
      && |DrawListUpTo(root, matrices, used, visible, limit)| == |s|
      && forall k :: 0 <= k < |s| ==> DrawListUpTo(root, matrices, used, visible, limit)[k] == Mul(root, matrices[s[k]])
  {
    if limit > 0 {
      DrawListUpToShown(root, matrices, used, visible, limit - 1);
      var pre := DrawListUpTo(root, matrices, used, visible, limit - 1);
      var ps := Shown(used, visible, limit - 1);
      if used[limit - 1] && visible[limit - 1] {
        var d := DrawListUpTo(root, matrices, used, visible, limit);
        var s := Shown(used, visible, limit);
        assert d == pre + [Mul(root, matrices[limit - 1])];
        assert s == ps + [limit - 1];
        forall k | 0 <= k < |s|
          ensures d[k] == Mul(root, matrices[s[k]])
        {
          if k < |ps| {
            assert d[k] == pre[k] && s[k] == ps[k];
          }
        }
      }
    }
  }

  /** What the group draws as written: only the slots below the search cursor. */
  function DrawList(p: Pool): seq<Matrix>
    requires PoolValid(p)
  {
    DrawListUpTo(p.root, p.matrices, p.used, p.visible, p.cursor)
  }

  /** A draw list below `limit` has at most `limit` entries. */
  lemma {:induction false} DrawListUpToLength(root: Matrix, matrices: seq<Matrix>, used: seq<bool>, visible: seq<bool>,
                                              limit: nat)
    requires limit <= |matrices| == |used| == |visible|
    ensures |DrawListUpTo(root, matrices, used, visible, limit)| <= limit
  {
    if limit > 0 {
      DrawListUpToLength(root, matrices, used, visible, limit - 1);
    }
  }

  /** What the group evidently means to draw: every used, visible slot. */
  function IntendedDrawList(p: Pool): seq<Matrix>
    requires PoolValid(p)
  {
    DrawListUpTo(p.root, p.matrices, p.used, p.visible, |p.used|)
  }

  // ---------------------------------------------------------------------------
  // Properties of the operations

  /** A successful add reads back the stored matrix, and no other slot reads differently. */
  lemma AddThenGet(p: Pool, mtx: Matrix, visible: bool)
    requires PoolValid(p) && FreeSlot(p) >= 0
    ensures MatrixAt(AfterAdd(p, mtx, visible), FreeSlot(p)) == mtx
    ensures forall i :: i != FreeSlot(p) ==> MatrixAt(AfterAdd(p, mtx, visible), i) == MatrixAt(p, i)
  {
  }

  /** A full pool rejects the add and stays as it was. */
  lemma AddToFullPool(p: Pool, mtx: Matrix, visible: bool)
    requires PoolValid(p) && forall h :: 0 <= h < |p.used| ==> p.used[h]
    ensures FreeSlot(p) == -1 && AfterAdd(p, mtx, visible) == p
  {
  }

  /** Update overwrites what a slot in use reads back; a free or invalid slot stays at the identity. */
  lemma UpdateThenGet(p: Pool, index: int, mtx: Matrix)
    requires PoolValid(p)
    ensures MatrixAt(AfterUpdate(p, index, mtx), index) == if InUse(p, index) then mtx else Identity
    ensures forall i :: i != index ==> MatrixAt(AfterUpdate(p, index, mtx), i) == MatrixAt(p, i)
  {
  }

  /**
   * A slot index out of range or not in use reads as the identity and is
   * ignored by Update and SetVisible; Remove ignores only an index out of range.
   */
  lemma UnusedIndexChangesNothing(p: Pool, index: int, mtx: Matrix, visible: bool)
    requires PoolValid(p) && !InUse(p, index)
    ensures MatrixAt(p, index) == Identity
    ensures AfterUpdate(p, index, mtx) == p && AfterSetVisible(p, index, visible) == p
    ensures !(0 <= index < |p.used|) ==> AfterRemove(p, index) == p
  {
  }

  /**
   * Clear frees every slot but keeps the stored matrices and visibility
   * flags, and the next add takes slot 0.
   */
  lemma ClearThenAdd(p: Pool)
    requires PoolValid(p)
    ensures var q := AfterClear(p);
      && q.matrices == p.matrices && q.visible == p.visible && q.root == p.root
      && (forall h :: 0 <= h < |q.used| ==> !q.used[h])
      && (|p.used| > 0 ==> FreeSlot(q) == 0)
  {
  }

  /** A removed slot reads as the identity and is the next candidate for its own position. */
  lemma RemoveThenGet(p: Pool, index: int)
    requires PoolValid(p) && 0 <= index < |p.used|
    ensures MatrixAt(AfterRemove(p, index), index) == Identity
    ensures FreeSlot(AfterRemove(p, index)) != -1
  {
  }

  /**
   * Setting a slot to the visibility it already has changes no draw list:
   * this is why the cache is only marked stale when the flag flips.
   */
  lemma SameVisibilityKeepsDrawList(p: Pool, index: int, visible: bool)
    requires PoolValid(p)
    requires InUse(p, index) ==> p.visible[index] == visible
    ensures AfterSetVisible(p, index, visible) == p
  {
    if InUse(p, index) {
      assert p.visible[index := visible] == p.visible;
    }
  }

  /** The intended draw list holds exactly the rooted matrices of the used, visible slots, in slot order. */
  lemma IntendedDrawListComplete(p: Pool)
    requires PoolValid(p)
    ensures var s := Shown(p.used, p.visible, |p.used|);
      && (forall h :: h in s <==> 0 <= h < |p.used| && p.used[h] && p.visible[h])
      && |IntendedDrawList(p)| == |s|
      && forall k :: 0 <= k < |s| ==> IntendedDrawList(p)[k] == Mul(p.root, p.matrices[s[k]])
  {
    DrawListUpToShown(p.root, p.matrices, p.used, p.visible, |p.used|);
  }

  /** Under the intended draw list an instance added visible is drawn. */
  lemma AddedInstanceIsDrawn(p: Pool, mtx: Matrix)
    requires PoolValid(p) && FreeSlot(p) >= 0
    ensures Mul(p.root, mtx) in IntendedDrawList(AfterAdd(p, mtx, true))
  {
    var q := AfterAdd(p, mtx, true);
    var r := FreeSlot(p);
    IntendedDrawListComplete(q);
    var s := Shown(q.used, q.visible, |q.used|);
    assert r in s;
    var k :| 0 <= k < |s| && s[k] == r;
    assert IntendedDrawList(q)[k] == Mul(p.root, mtx);
  }

  /**
   * As written, filling the last slot wraps the cursor to 0, and the draw
   * list, which only scans below the cursor, becomes empty.
   */
  lemma LastSlotHidesAll(p: Pool, mtx: Matrix, visible: bool)
    requires PoolValid(p) && |p.used| > 0 && FreeSlot(p) == |p.used| - 1
    ensures DrawList(AfterAdd(p, mtx, visible)) == []
  {
    var n := |p.used|;
    assert (n - 1 + 1) % n == 0;
    assert AfterAdd(p, mtx, visible).cursor == 0;
  }

  /** Two visible instances added to a new group of two slots: neither is drawn as written. */
  lemma TwoAddsDrawNothing(a: Matrix, b: Matrix)
    ensures var p := AfterAdd(AfterAdd(EmptyPool(2), a, true), b, true);
      DrawList(p) == [] && IntendedDrawList(p) == [a, b]
  {
    var p0 := EmptyPool(2);
    assert FreeSlot(p0) == 0;
    var p1 := AfterAdd(p0, a, true);
    assert p1.used == [true, false] && p1.visible == [true, false] && p1.cursor == 1;
    assert FreeSlot(p1) == 1;
    var p2 := AfterAdd(p1, b, true);
    assert p2.used == [true, true] && p2.visible == [true, true] && p2.cursor == 0;
    assert p2.matrices[0] == a && p2.matrices[1] == b;
    assert Mul(Identity, a) == a && Mul(Identity, b) == b;
    assert DrawListUpTo(p2.root, p2.matrices, p2.used, p2.visible, 0) == [];
    assert DrawListUpTo(p2.root, p2.matrices, p2.used, p2.visible, 1) == [a];
  }

  // ---------------------------------------------------------------------------
  // The group over arrays

  /** Collects the rooted matrices of the used, visible slots below `limit` into a new array. */
  method CollectDrawList(root: Matrix, matrices: array<Matrix>, used: array<bool>, visible: array<bool>, limit: nat)
    returns (r: array<Matrix>)
    requires limit <= matrices.Length == used.Length == visible.Length
    ensures fresh(r)
    ensures r[..] == DrawListUpTo(root, matrices[..], used[..], visible[..], limit)
  {
    var tmps: seq<Matrix> := [];
    for h := 0 to limit
      invariant tmps == DrawListUpTo(root, matrices[..], used[..], visible[..], h)
    {
      if !used[h] || !visible[h] {
        continue;
      }
      tmps := tmps + [Mul(root, matrices[h])];
    }
    r := new Matrix[|tmps|](i requires 0 <= i < |tmps| => tmps[i]);
  }

  class DrawGroup {
    var rootMatrix: Matrix
    const instanceMax: nat
    const matrices: array<Matrix>
    const useFlags: array<bool>
    const visibleFlags: array<bool>
    var searchIndex: int
    var dirtyFlag: bool
    var drawMatrices: array?<Matrix>

    /** The abstract value of the group. */
    ghost function State(): Pool
      reads this, matrices, useFlags, visibleFlags
    {
      Pool(rootMatrix, matrices[..], useFlags[..], visibleFlags[..], searchIndex)
    }

    /** The arrays fit the pool size, and a clean cache holds the current draw list. */
    ghost predicate Valid()
      reads this, matrices, useFlags, visibleFlags, drawMatrices
    {
      && matrices.Length == instanceMax && useFlags.Length == instanceMax && visibleFlags.Length == instanceMax
      && useFlags != visibleFlags
      && drawMatrices != matrices
      && PoolValid(State())
      && (!dirtyFlag && drawMatrices != null ==> drawMatrices[..] == DrawList(State()))
    }

    constructor (instanceMax: nat)
      ensures Valid() && this.instanceMax == instanceMax
      ensures State() == EmptyPool(instanceMax)
      ensures dirtyFlag && drawMatrices == null
      ensures fresh(matrices) && fresh(useFlags) && fresh(visibleFlags)
    {
      this.instanceMax := instanceMax;
      rootMatrix := Identity;
      matrices := new Matrix[instanceMax](_ => Identity);
      useFlags := new bool[instanceMax](_ => false);
      visibleFlags := new bool[instanceMax](_ => false);
      searchIndex := 0;
      drawMatrices := null;
      dirtyFlag := true;
    }

    method Clear()
      requires Valid()
      modifies this`searchIndex, this`dirtyFlag, useFlags
      ensures Valid() && State() == AfterClear(old(State()))
      ensures dirtyFlag
    {
      for h := 0 to instanceMax
        invariant forall k :: 0 <= k < h ==> !useFlags[k]
      {
        useFlags[h] := false;
      }
      searchIndex := 0;
      dirtyFlag := true;
    }

    method SetRootMatrix(mtx: Matrix)
      requires Valid()
      modifies this`rootMatrix, this`dirtyFlag
      ensures Valid() && State() == AfterSetRoot(old(State()), mtx)
      ensures dirtyFlag
    {
      rootMatrix := mtx;
      dirtyFlag := true;
    }

    /**
     * Stores `mtx` in a free slot and returns the slot, or -1 when the pool is
     * full. The C# default `visible = true` is an explicit argument here.
     */
    method Add(mtx: Matrix, visible: bool) returns (index: int)
      requires Valid()
      modifies this`searchIndex, this`dirtyFlag, matrices, useFlags, visibleFlags
      ensures Valid() && index == FreeSlot(old(State()))
      ensures State() == AfterAdd(old(State()), mtx, visible)
      ensures dirtyFlag == (old(dirtyFlag) || index >= 0)
    {
      index := -1;
      for h := searchIndex to instanceMax
        invariant forall k :: searchIndex <= k < h ==> useFlags[k]
      {
        if !useFlags[h] {
          index := h;
          break;
        }
      }
      if index < 0 {
        for h := 0 to searchIndex
          invariant forall k :: 0 <= k < h ==> useFlags[k]
        {
          if !useFlags[h] {
            index := h;
            break;
          }
        }
      }
      if index < 0 {
        return;
      }
      searchIndex := (index + 1) % instanceMax;
      dirtyFlag := true;
      matrices[index] := mtx;
      useFlags[index] := true;
      visibleFlags[index] := visible;
    }

    /** The matrix of a slot in use, or the identity. */
    method GetMatrix(index: int) returns (mtx: Matrix)
      requires Valid()
      ensures mtx == MatrixAt(State(), index)
    {
      if index < 0 || index >= instanceMax {
        return Identity;
      }
      if !useFlags[index] {
        return Identity;
      }
      return matrices[index];
    }

    method Update(index: int, mtx: Matrix)
      requires Valid()
      modifies this`dirtyFlag, matrices
      ensures Valid() && State() == AfterUpdate(old(State()), index, mtx)
      ensures dirtyFlag == (old(dirtyFlag) || InUse(old(State()), index))
    {
      if index < 0 || index >= instanceMax {
        return;
      }
      if !useFlags[index] {
        return;
      }
      matrices[index] := mtx;
      dirtyFlag := true;
    }

    /** Shows or hides a slot in use; the cache goes stale only when the flag flips. */
    method SetVisible(index: int, visible: bool)
      requires Valid()
      modifies this`dirtyFlag, visibleFlags
      ensures Valid() && State() == AfterSetVisible(old(State()), index, visible)
      ensures dirtyFlag == (old(dirtyFlag) || (InUse(old(State()), index) && old(visibleFlags[index]) != visible))
    {
      if index < 0 || index >= instanceMax {
        return;
      }
      if !useFlags[index] {
        return;
      }
      dirtyFlag := dirtyFlag || (!visibleFlags[index] && visible);
      dirtyFlag := dirtyFlag || (visibleFlags[index] && !visible);
      SameVisibilityKeepsDrawList(State(), index, visibleFlags[index]);
      visibleFlags[index] := visible;
    }

    method Remove(index: int)
      requires Valid()
      modifies this`dirtyFlag, useFlags
      ensures Valid() && State() == AfterRemove(old(State()), index)
      ensures dirtyFlag == (old(dirtyFlag) || 0 <= index < instanceMax)
    {
      if index < 0 || index >= instanceMax {
        return;
      }
      useFlags[index] := false;
      dirtyFlag := true;
    }

    /**
     * The draw list: the cached array when nothing changed since it was
     * built, otherwise a new array, which becomes the cache.
     */
    method GetDrawMatrices() returns (r: array<Matrix>)
      requires Valid()
      modifies this`dirtyFlag, this`drawMatrices
      ensures Valid() && State() == old(State())
      ensures r == drawMatrices && !dirtyFlag
      ensures r[..] == DrawList(State()) && r.Length <= searchIndex
      ensures old(!dirtyFlag && drawMatrices != null) ==> r == old(drawMatrices)
      ensures !old(!dirtyFlag && drawMatrices != null) ==> fresh(r)
    {
      DrawListUpToLength(rootMatrix, matrices[..], useFlags[..], visibleFlags[..], searchIndex);
      if !dirtyFlag && drawMatrices != null {
        return drawMatrices;
      }
      r := CollectDrawList(rootMatrix, matrices, useFlags, visibleFlags, searchIndex);
      dirtyFlag := false;
      drawMatrices := r;
    }

    /** The draw list over every slot, as the group evidently intends; it leaves the cache alone. */
    method GetAllDrawMatrices() returns (r: array<Matrix>)
      requires Valid()
      ensures fresh(r)
      ensures r[..] == IntendedDrawList(State())
    {
      r := CollectDrawList(rootMatrix, matrices, useFlags, visibleFlags, instanceMax);
    }
  }
}
