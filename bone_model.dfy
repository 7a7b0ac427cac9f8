/**
 * The bone hierarchy of a skinned model: the per-bone record, the walk up
 * the parent chain that resolves a bone's world matrix (with the optional
 * scale-compensation mode), and the flattening of a transform tree into the
 * index-addressed bone list the baker consumes.
 */
module BoneModel {
  import opened Transforms

  /** One bone of the hierarchy, addressed by its position in the bone list. */
  datatype BoneData = BoneData(
    name: string,
    fullPath: string,      // names from below the root down to this bone, joined with '/'
    parentIndex: int,      // position of the parent in the bone list; negative for a root
    boneIndex: int,        // position in the skin's bone table; -1 when no vertex uses it
    localPosition: Vector3,
    localRotation: Quaternion,
    localScale: Vector3,
    bindPose: Matrix)

  /** A field-by-field copy of a bone. */
  function Clone(b: BoneData): (c: BoneData)
    ensures c.name == b.name && c.fullPath == b.fullPath
    ensures c.parentIndex == b.parentIndex && c.boneIndex == b.boneIndex
    ensures c.localPosition == b.localPosition && c.localRotation == b.localRotation
    ensures c.localScale == b.localScale && c.bindPose == b.bindPose
  {
    BoneData(b.name, b.fullPath, b.parentIndex, b.boneIndex,
             b.localPosition, b.localRotation, b.localScale, b.bindPose)
  }

  /** Every parent link points strictly backwards (or is a root marker). */
  ghost predicate ParentsPrecede(datas: seq<BoneData>)
  {
    forall j :: 0 <= j < |datas| ==> datas[j].parentIndex < j
  }

  /**
   * The matrix one level of the chain contributes. With scale compensation a
   * bone that has a parent undoes the parent's scale before its own rotation;
   * a root, or any bone without compensation, contributes plain TRS.
   */
  function LocalMatrix(b: BoneData, datas: seq<BoneData>, ssc: bool): Matrix
    requires b.parentIndex < |datas|
  {
    if ssc && b.parentIndex >= 0 then
      Mul(Mul(Mul([Translate(b.localPosition)], [ScaleReciprocal(datas[b.parentIndex].localScale)]),
              [Rotate(b.localRotation)]),
          [Scale(b.localScale)])
    else
      TRS(b.localPosition, b.localRotation, b.localScale)
  }

  /** World matrix of the bone at position `p` of `datas`; the identity for a negative `p`. */
  function ChainWorld(datas: seq<BoneData>, p: int, ssc: bool): Matrix
    requires ParentsPrecede(datas) && p < |datas|
    decreases p
  {
    if p < 0 then Identity
    else Mul(ChainWorld(datas, datas[p].parentIndex, ssc), LocalMatrix(datas[p], datas, ssc))
  }

  /** World matrix of `self`, whose parent (if any) lives in `datas`. */
  function WorldMatrix(self: BoneData, datas: seq<BoneData>, ssc: bool): Matrix
    requires ParentsPrecede(datas) && self.parentIndex < |datas|
  {
    Mul(ChainWorld(datas, self.parentIndex, ssc), LocalMatrix(self, datas, ssc))
  }

  /**
   * Walks from `self` up to its root, accumulating `local * acc` at every
   * level. `datas` is only read.
   */
  method GetWorldMatrix(self: BoneData, datas: array<BoneData>, ssc: bool) returns (mtx: Matrix)
    requires ParentsPrecede(datas[..]) && self.parentIndex < datas.Length
    ensures mtx == WorldMatrix(self, datas[..], ssc)
  {
    var data := self;
    mtx := Identity;
    while true
      invariant data.parentIndex < datas.Length
      invariant WorldMatrix(self, datas[..], ssc) == Mul(WorldMatrix(data, datas[..], ssc), mtx)
      decreases if data.parentIndex < 0 then 0 else data.parentIndex + 1
    {
      var localMtx := LocalMatrixOf(data, datas, ssc);
      if data.parentIndex < 0 {
        mtx := Mul(localMtx, mtx);
        break;
      }
      ChainStep(datas[..], data, mtx, ssc);
      mtx := Mul(localMtx, mtx);
      data := datas[data.parentIndex];
    }
  }

  /** One level's matrix, built factor by factor. */
  method LocalMatrixOf(data: BoneData, datas: array<BoneData>, ssc: bool) returns (localMtx: Matrix)
    requires data.parentIndex < datas.Length
    ensures localMtx == LocalMatrix(data, datas[..], ssc)
  {
    if ssc && data.parentIndex >= 0 {
      localMtx := [Translate(data.localPosition)];
      localMtx := Mul(localMtx, [ScaleReciprocal(datas[data.parentIndex].localScale)]);
      localMtx := Mul(localMtx, [Rotate(data.localRotation)]);
      localMtx := Mul(localMtx, [Scale(data.localScale)]);
    } else {
      localMtx := TRS(data.localPosition, data.localRotation, data.localScale);
    }
  }

  /** Moving one level up the chain moves that level's matrix into the accumulated product. */
  lemma ChainStep(datas: seq<BoneData>, data: BoneData, acc: Matrix, ssc: bool)
    requires ParentsPrecede(datas) && 0 <= data.parentIndex < |datas|
    ensures Mul(WorldMatrix(data, datas, ssc), acc)
         == Mul(WorldMatrix(datas[data.parentIndex], datas, ssc), Mul(LocalMatrix(data, datas, ssc), acc))
  {
    var parent := datas[data.parentIndex];
    assert ChainWorld(datas, data.parentIndex, ssc)
        == Mul(ChainWorld(datas, parent.parentIndex, ssc), LocalMatrix(parent, datas, ssc));
  }

  /** Positions of the ancestors of position `p`, root first, ending with `p` itself. */
  function Ancestry(datas: seq<BoneData>, p: int): seq<nat>
    requires ParentsPrecede(datas) && p < |datas|
    decreases p
  {
    if p < 0 then [] else Ancestry(datas, datas[p].parentIndex) + [p]
  }

  /** The product of the local matrices of the bones at `path`, left to right. */
  function LocalsProduct(datas: seq<BoneData>, path: seq<nat>, ssc: bool): Matrix
    requires forall i :: 0 <= i < |path| ==> path[i] < |datas| && datas[path[i]].parentIndex < |datas|
  {
    if path == [] then Identity
    else Mul(LocalsProduct(datas, path[..|path| - 1], ssc), LocalMatrix(datas[path[|path| - 1]], datas, ssc))
  }

  /**
   * The ancestry of a bone is a genuine parent chain: it starts at a root,
   * every link is a parent link, it ends at the bone, and the chain walk's
   * result is L(root) * ... * L(parent) * L(bone).
   */
  lemma {:induction false} AncestryIsParentChain(datas: seq<BoneData>, p: nat, ssc: bool)
    requires ParentsPrecede(datas) && p < |datas|
    ensures var a := Ancestry(datas, p);
      && |a| >= 1 && a[|a| - 1] == p
      && (forall i :: 0 <= i < |a| ==> a[i] < |datas|)
      && datas[a[0]].parentIndex < 0
      && (forall i :: 0 < i < |a| ==> datas[a[i]].parentIndex == a[i - 1])
      && ChainWorld(datas, p, ssc) == LocalsProduct(datas, a, ssc)
  {
    var q := datas[p].parentIndex;
    if q >= 0 {
      AncestryIsParentChain(datas, q, ssc);
      var a := Ancestry(datas, p);
      assert a == Ancestry(datas, q) + [p];
      assert a[..|a| - 1] == Ancestry(datas, q);
    } else {
      assert Ancestry(datas, p) == [p];
      assert Ancestry(datas, p)[..0] == [];
    }
  }

  /** A bone's world matrix is its parent's world matrix times its own local matrix. */
  lemma WorldComposesWithParent(self: BoneData, datas: seq<BoneData>, ssc: bool)
    requires ParentsPrecede(datas) && 0 <= self.parentIndex < |datas|
    ensures WorldMatrix(self, datas, ssc)
         == Mul(WorldMatrix(datas[self.parentIndex], datas, ssc), LocalMatrix(self, datas, ssc))
  {
  }

  /** A root contributes plain TRS whether or not scale compensation is on. */
  lemma RootWorldIsTRS(self: BoneData, datas: seq<BoneData>, ssc: bool)
    requires ParentsPrecede(datas) && self.parentIndex < 0
    ensures WorldMatrix(self, datas, ssc) == TRS(self.localPosition, self.localRotation, self.localScale)
  {
  }

  /**
   * The two composition modes differ exactly at non-root levels: with scale
   * compensation the reciprocal of the parent's scale is inserted between
   * the translation and the rotation.
   */
  lemma CompensatedLevel(b: BoneData, datas: seq<BoneData>)
    requires 0 <= b.parentIndex < |datas|
    ensures LocalMatrix(b, datas, true)
         == [Translate(b.localPosition), ScaleReciprocal(datas[b.parentIndex].localScale),
             Rotate(b.localRotation), Scale(b.localScale)]
    ensures LocalMatrix(b, datas, false) == TRS(b.localPosition, b.localRotation, b.localScale)
  {
  }

  // ---------------------------------------------------------------------------
  // Flattening a transform tree into the bone list

  /** A node of the scene hierarchy; `id` stands for the node's object identity. */
  datatype Transform = Transform(
    id: nat,
    name: string,
    hasRenderer: bool,
    localPosition: Vector3,
    localRotation: Quaternion,
    localScale: Vector3,
    worldToLocalMatrix: Matrix,
    localToWorldMatrix: Matrix,
    children: seq<Transform>)

  /** Position of the first occurrence of `id` in `list`, or -1. */
  function IndexOf(list: seq<nat>, id: nat): (r: int)
    ensures -1 <= r < |list|
    ensures r >= 0 ==> list[r] == id && forall k :: 0 <= k < r ==> list[k] != id
    ensures r < 0 ==> id !in list
  {
    if list == [] then -1
    else if list[0] == id then 0
    else
      var r := IndexOf(list[1..], id);
      assert forall k :: 0 < k < |list| ==> list[k] == list[1..][k - 1];
      if r < 0 then -1 else r + 1
  }

  function Names(path: seq<Transform>): (names: seq<string>)
    ensures |names| == |path|
  {
    seq(|path|, i requires 0 <= i < |path| => path[i].name)
  }

  /**
   * The name the parent walk builds from the names below the root, root-most
   * first: each name is prefixed with a '/' separator unless the path built
   * so far is still empty.
   */
  function JoinPath(names: seq<string>): string
  {
    if names == [] then ""
    else
      var rest := JoinPath(names[1..]);
      if rest != "" then names[0] + "/" + rest else names[0]
  }

  /** With non-empty names, extending the path by one name appends "/name". */
  lemma {:induction false} JoinPathSnoc(names: seq<string>, n: string)
    requires names != [] && n != ""
    requires forall i :: 0 <= i < |names| ==> names[i] != ""
    ensures JoinPath(names + [n]) == JoinPath(names) + "/" + n
  {
    var ext := names + [n];
    assert ext[1..] == names[1..] + [n];
    if |names| == 1 {
      assert ext[1..] == [n];
      assert [n][1..] == [];
    } else {
      JoinPathSnoc(names[1..], n);
      JoinPathNonEmpty(names[1..]);
    }
  }

  lemma {:induction false} JoinPathNonEmpty(names: seq<string>)
    requires names != []
    requires forall i :: 0 <= i < |names| ==> names[i] != ""
    ensures JoinPath(names) != ""
  {
    var rest := JoinPath(names[1..]);
    if rest == "" {
      assert JoinPath(names) == names[0];
    } else {
      assert |JoinPath(names)| == |names[0]| + 1 + |rest|;
    }
  }

  /** The `while ( rootTrans != boneTmp )` walk from the bone up to the root. */
  method FullPathOf(path: seq<Transform>) returns (fullPath: string)
    ensures fullPath == JoinPath(Names(path))
  {
    var names := Names(path);
    var k := |path|;
    fullPath := "";
    while k > 0
      invariant 0 <= k <= |path|
      invariant fullPath == JoinPath(names[k..])
    {
      k := k - 1;
      var name := path[k].name;
      assert names[k..][1..] == names[k + 1..];
      if fullPath != "" {
        fullPath := name + "/" + fullPath;
      } else {
        fullPath := name;
      }
    }
  }

  /**
   * The record made for the node `t` reached along `path` (the nodes below
   * the root down to and including `t`).
   */
  function MakeBone(t: Transform, rootTrans: Transform, path: seq<Transform>, parentIndex: int,
                    boneList: seq<nat>): BoneData
  {
    BoneData(t.name, JoinPath(Names(path)), parentIndex, IndexOf(boneList, t.id),
             t.localPosition, t.localRotation, t.localScale,
             Mul(t.worldToLocalMatrix, rootTrans.localToWorldMatrix))
  }

  /**
   * The records the pre-order walk appends for the subtree at `t` when the
   * list already holds `base` records: nothing for a node with a Renderer (nor
   * for anything below it), no record for the root itself (empty `path`).
   */
  function Flatten(t: Transform, rootTrans: Transform, path: seq<Transform>, base: nat,
                   parentIndex: int, boneList: seq<nat>): seq<BoneData>
    decreases t
  {
    if t.hasRenderer then []
    else
      var own := if path == [] then [] else [MakeBone(t, rootTrans, path, parentIndex, boneList)];
      own + FlattenChildren(t.children, rootTrans, path, base + |own|, base + |own| - 1, boneList)
  }

  /** The records appended for the children `cs`, in order, of the node at `parentPath`. */
  function FlattenChildren(cs: seq<Transform>, rootTrans: Transform, parentPath: seq<Transform>,
                           base: nat, parentIndex: int, boneList: seq<nat>): seq<BoneData>
    decreases cs
  {
    if cs == [] then []
    else
      var pre := FlattenChildren(cs[..|cs| - 1], rootTrans, parentPath, base, parentIndex, boneList);
      var c := cs[|cs| - 1];
      pre + Flatten(c, rootTrans, parentPath + [c], base + |pre|, parentIndex, boneList)
  }

  /**
   * Appends the records of the subtree at `boneTrans` to `datas`, reached
   * along `path` from `rootTrans`, whose record sits at `parentIndex`.
   */
  method SetDataSub(datas: seq<BoneData>, boneTrans: Transform, rootTrans: Transform,
                    path: seq<Transform>, parentIndex: int, boneList: seq<nat>)
    returns (result: seq<BoneData>)
    ensures result == datas + Flatten(boneTrans, rootTrans, path, |datas|, parentIndex, boneList)
    ensures boneTrans.hasRenderer ==> result == datas
    decreases boneTrans, 1
  {
    result := datas;
    if boneTrans.hasRenderer {
      return;
    }
    var fullPath := FullPathOf(path);
    var data := BoneData(boneTrans.name, fullPath, parentIndex, IndexOf(boneList, boneTrans.id),
                         boneTrans.localPosition, boneTrans.localRotation, boneTrans.localScale,
                         Mul(boneTrans.worldToLocalMatrix, rootTrans.localToWorldMatrix));
    assert data == MakeBone(boneTrans, rootTrans, path, parentIndex, boneList);
    if path != [] {
      result := result + [data];
    }
    var currentIndex := |result| - 1;
    result := SetDataChildren(result, boneTrans, rootTrans, path, currentIndex, boneList);
  }

  /** The recursion of `SetDataSub` over the children of `boneTrans`, in order. */
  method SetDataChildren(datas: seq<BoneData>, boneTrans: Transform, rootTrans: Transform,
                         path: seq<Transform>, currentIndex: int, boneList: seq<nat>)
    returns (result: seq<BoneData>)
    ensures result == datas + FlattenChildren(boneTrans.children, rootTrans, path, |datas|, currentIndex, boneList)
    decreases boneTrans, 0
  {
    var children := boneTrans.children;
    result := datas;
    var h := 0;
    while h < |children|
      invariant 0 <= h <= |children|
      invariant result == datas + FlattenChildren(children[..h], rootTrans, path, |datas|, currentIndex, boneList)
    {
      var child := children[h];
      FlattenChildrenStep(children, h, rootTrans, path, |datas|, currentIndex, boneList);
      result := SetDataSub(result, child, rootTrans, path + [child], currentIndex, boneList);
      h := h + 1;
    }
    assert children[..|children|] == children;
  }

  /** The children's records grow by one child's subtree at a time. */
  lemma FlattenChildrenStep(cs: seq<Transform>, h: nat, rootTrans: Transform, parentPath: seq<Transform>,
                            base: nat, parentIndex: int, boneList: seq<nat>)
    requires h < |cs|
    ensures var done := FlattenChildren(cs[..h], rootTrans, parentPath, base, parentIndex, boneList);
            FlattenChildren(cs[..h + 1], rootTrans, parentPath, base, parentIndex, boneList)
            == done + Flatten(cs[h], rootTrans, parentPath + [cs[h]], base + |done|, parentIndex, boneList)
  {
    assert cs[..h + 1][..h] == cs[..h];
  }

  /** Every node of the subtree carries a non-empty name. */
  ghost predicate NamesNonEmpty(t: Transform)
    decreases t
  {
    t.name != "" && forall i :: 0 <= i < |t.children| ==> NamesNonEmpty(t.children[i])
  }

  /**
   * The shape the bone list has after the walk: parents precede children (or
   * are -1), each full path extends its parent's by "/name" (a top-level
   * bone's is its own name), and skin indices stay below `boneIndexNum`.
   */
  ghost predicate HierarchyConsistent(bones: seq<BoneData>)
  {
    forall j :: 0 <= j < |bones| ==> ConsistentAt(bones, j)
  }

  /** The record at `j` links to an earlier parent and extends its full path by "/name". */
  ghost predicate ConsistentAt(bones: seq<BoneData>, j: nat)
    requires j < |bones|
  {
    && -1 <= bones[j].parentIndex < j
    && bones[j].fullPath == (if bones[j].parentIndex < 0 then bones[j].name
                             else bones[bones[j].parentIndex].fullPath + "/" + bones[j].name)
  }

  ghost predicate BoneIndicesBelow(bones: seq<BoneData>, boneIndexNum: int)
  {
    forall j :: 0 <= j < |bones| ==> bones[j].boneIndex < boneIndexNum
  }

  /** The record at `parentIndex` is that of the node above the last one of `path`. */
  ghost predicate ParentLink(pre: seq<BoneData>, parentIndex: int, path: seq<Transform>)
  {
    || (parentIndex == -1 && |path| == 1)
    || (0 <= parentIndex < |pre| && |path| >= 2
        && pre[parentIndex].fullPath == JoinPath(Names(path[..|path| - 1])))
  }

  /**
   * Records appended at position `base` onwards point to earlier parents (or
   * -1) and carry skin indices below `boneIndexNum`.
   */
  ghost predicate ShapedFrom(r: seq<BoneData>, base: int, boneIndexNum: int)
  {
    forall j :: 0 <= j < |r| ==> -1 <= r[j].parentIndex < base + j && r[j].boneIndex < boneIndexNum
  }

  lemma {:induction false} FlattenShape(t: Transform, rootTrans: Transform, path: seq<Transform>,
                                        base: nat, parentIndex: int, boneList: seq<nat>)
    requires -1 <= parentIndex < base
    ensures ShapedFrom(Flatten(t, rootTrans, path, base, parentIndex, boneList), base, |boneList|)
    decreases t
  {
    if !t.hasRenderer {
      var own := if path == [] then [] else [MakeBone(t, rootTrans, path, parentIndex, boneList)];
      var rc := FlattenChildren(t.children, rootTrans, path, base + |own|, base + |own| - 1, boneList);
      FlattenChildrenShape(t.children, rootTrans, path, base + |own|, base + |own| - 1, boneList);
      var r := own + rc;
      forall j | 0 <= j < |r|
        ensures -1 <= r[j].parentIndex < base + j && r[j].boneIndex < |boneList|
      {
        if j >= |own| {
          assert r[j] == rc[j - |own|];
        }
      }
    }
  }

  lemma {:induction false} FlattenChildrenShape(cs: seq<Transform>, rootTrans: Transform, parentPath: seq<Transform>,
                                                base: nat, parentIndex: int, boneList: seq<nat>)
    requires -1 <= parentIndex < base
    ensures ShapedFrom(FlattenChildren(cs, rootTrans, parentPath, base, parentIndex, boneList), base, |boneList|)
    decreases cs
  {
    if cs != [] {
      var pre := FlattenChildren(cs[..|cs| - 1], rootTrans, parentPath, base, parentIndex, boneList);
      var c := cs[|cs| - 1];
      var last := Flatten(c, rootTrans, parentPath + [c], base + |pre|, parentIndex, boneList);
      FlattenChildrenShape(cs[..|cs| - 1], rootTrans, parentPath, base, parentIndex, boneList);
      FlattenShape(c, rootTrans, parentPath + [c], base + |pre|, parentIndex, boneList);
      var r := pre + last;
      forall j | 0 <= j < |r|
        ensures -1 <= r[j].parentIndex < base + j && r[j].boneIndex < |boneList|
      {
        if j >= |pre| {
          assert r[j] == last[j - |pre|];
        }
      }
    }
  }

  /** Appending a record whose parent link and full path agree with `pre` keeps the list consistent. */
  lemma AppendKeepsConsistent(pre: seq<BoneData>, me: BoneData)
    requires HierarchyConsistent(pre)
    requires -1 <= me.parentIndex < |pre|
    requires me.fullPath == (if me.parentIndex < 0 then me.name
                             else pre[me.parentIndex].fullPath + "/" + me.name)
    ensures HierarchyConsistent(pre + [me])
  {
    var mid := pre + [me];
    forall j | 0 <= j < |mid|
      ensures ConsistentAt(mid, j)
    {
      if j < |pre| {
        assert ConsistentAt(pre, j);
        assert mid[j] == pre[j];
        if pre[j].parentIndex >= 0 {
          assert mid[pre[j].parentIndex] == pre[pre[j].parentIndex];
        }
      } else {
        assert mid[j] == me;
        if me.parentIndex >= 0 {
          assert mid[me.parentIndex] == pre[me.parentIndex];
        }
      }
    }
  }

  /** The record made for a node extends its parent's full path by "/name". */
  lemma MakeBonePath(pre: seq<BoneData>, t: Transform, rootTrans: Transform,
                     path: seq<Transform>, parentIndex: int, boneList: seq<nat>)
    requires t.name != "" && forall k :: 0 <= k < |path| ==> path[k].name != ""
    requires path != [] && path[|path| - 1] == t && ParentLink(pre, parentIndex, path)
    ensures var me := MakeBone(t, rootTrans, path, parentIndex, boneList);
            me.fullPath == (if parentIndex < 0 then t.name else pre[parentIndex].fullPath + "/" + t.name)
  {
    if parentIndex >= 0 {
      var up := path[..|path| - 1];
      assert Names(path) == Names(up) + [t.name];
      assert forall i :: 0 <= i < |Names(up)| ==> Names(up)[i] == path[i].name;
      JoinPathSnoc(Names(up), t.name);
    } else {
      assert Names(path) == [t.name];
      assert [t.name][1..] == [];
      assert JoinPath([t.name]) == t.name;
    }
  }

  lemma {:induction false} FlattenPaths(pre: seq<BoneData>, t: Transform, rootTrans: Transform,
                                        path: seq<Transform>, parentIndex: int, boneList: seq<nat>)
    requires HierarchyConsistent(pre)
    requires NamesNonEmpty(t) && forall k :: 0 <= k < |path| ==> path[k].name != ""
    requires path == [] ==> pre == []
    requires path != [] ==> path[|path| - 1] == t && ParentLink(pre, parentIndex, path)
    ensures HierarchyConsistent(pre + Flatten(t, rootTrans, path, |pre|, parentIndex, boneList))
    decreases t
  {
    var r := Flatten(t, rootTrans, path, |pre|, parentIndex, boneList);
    if t.hasRenderer {
      assert r == [];
      assert pre + r == pre;
      return;
    }
    forall i | 0 <= i < |t.children| ensures NamesNonEmpty(t.children[i]) { }
    if path == [] {
      var kids := FlattenChildren(t.children, rootTrans, path, |pre|, |pre| - 1, boneList);
      assert HierarchyConsistent(pre + kids) by {
        FlattenChildrenPaths(pre, t.children, rootTrans, path, -1, boneList);
      }
      assert r == kids by {
        assert r == [] + kids;
      }
    } else {
      var me := MakeBone(t, rootTrans, path, parentIndex, boneList);
      var mid := pre + [me];
      var kids := FlattenChildren(t.children, rootTrans, path, |mid|, |pre|, boneList);
      assert HierarchyConsistent(mid + kids) by {
        MakeBonePath(pre, t, rootTrans, path, parentIndex, boneList);
        AppendKeepsConsistent(pre, me);
        assert mid[|pre|] == me;
        FlattenChildrenPaths(mid, t.children, rootTrans, path, |pre|, boneList);
      }
      assert pre + r == mid + kids by {
        assert r == [me] + kids;
      }
    }
  }

  lemma {:induction false} FlattenChildrenPaths(pre: seq<BoneData>, cs: seq<Transform>, rootTrans: Transform,
                                                parentPath: seq<Transform>, parentIndex: int, boneList: seq<nat>)
    requires HierarchyConsistent(pre)
    requires forall i :: 0 <= i < |cs| ==> NamesNonEmpty(cs[i])
    requires forall k :: 0 <= k < |parentPath| ==> parentPath[k].name != ""
    requires || (parentPath == [] && parentIndex == -1)
             || (parentPath != [] && 0 <= parentIndex < |pre|
                 && pre[parentIndex].fullPath == JoinPath(Names(parentPath)))
    ensures HierarchyConsistent(pre + FlattenChildren(cs, rootTrans, parentPath, |pre|, parentIndex, boneList))
    decreases cs
  {
    if cs == [] {
      assert pre + [] == pre;
      return;
    }
    var init := cs[..|cs| - 1];
    var c := cs[|cs| - 1];
    var done := FlattenChildren(init, rootTrans, parentPath, |pre|, parentIndex, boneList);
    var mid := pre + done;
    var cpath := parentPath + [c];
    var last := Flatten(c, rootTrans, cpath, |mid|, parentIndex, boneList);
    assert HierarchyConsistent(mid + last) by {
      FlattenChildrenPaths(pre, init, rootTrans, parentPath, parentIndex, boneList);
      ChildLink(pre, done, parentPath, c, parentIndex);
      assert forall k :: 0 <= k < |cpath| ==> cpath[k].name != "";
      FlattenPaths(mid, c, rootTrans, cpath, parentIndex, boneList);
    }
    assert FlattenChildren(cs, rootTrans, parentPath, |pre|, parentIndex, boneList) == done + last by {
      FlattenChildrenLast(cs, rootTrans, parentPath, |pre|, parentIndex, boneList);
    }
    ConsistentRegroup(pre, FlattenChildren(cs, rootTrans, parentPath, |pre|, parentIndex, boneList), done, last);
  }

  /** The children's records are the earlier children's, then the last child's subtree. */
  lemma FlattenChildrenLast(cs: seq<Transform>, rootTrans: Transform, parentPath: seq<Transform>,
                            base: nat, parentIndex: int, boneList: seq<nat>)
    requires cs != []
    ensures var done := FlattenChildren(cs[..|cs| - 1], rootTrans, parentPath, base, parentIndex, boneList);
      FlattenChildren(cs, rootTrans, parentPath, base, parentIndex, boneList)
      == done + Flatten(cs[|cs| - 1], rootTrans, parentPath + [cs[|cs| - 1]], base + |done|, parentIndex, boneList)
  {
  }

  lemma ConsistentRegroup(pre: seq<BoneData>, whole: seq<BoneData>, done: seq<BoneData>, last: seq<BoneData>)
    requires whole == done + last
    requires HierarchyConsistent((pre + done) + last)
    ensures HierarchyConsistent(pre + whole)
  {
    assert pre + whole == (pre + done) + last;
  }

  /** A child's record links to the record of the node its path passes through last. */
  lemma ChildLink(pre: seq<BoneData>, done: seq<BoneData>, parentPath: seq<Transform>, c: Transform, parentIndex: int)
    requires || (parentPath == [] && parentIndex == -1)
             || (parentPath != [] && 0 <= parentIndex < |pre|
                 && pre[parentIndex].fullPath == JoinPath(Names(parentPath)))
    ensures ParentLink(pre + done, parentIndex, parentPath + [c])
  {
    var cpath := parentPath + [c];
    assert cpath[..|cpath| - 1] == parentPath;
    if parentIndex >= 0 {
      assert (pre + done)[parentIndex] == pre[parentIndex];
    }
  }

  /** The bone list of a model and the size of its skin's bone table. */
  class ModelData {
    var boneIndexNum: int
    var boneDatas: seq<BoneData>

    constructor ()
      ensures boneIndexNum == 0 && boneDatas == []
    {
      boneIndexNum := 0;
      boneDatas := [];
    }

    /**
     * Flattens the hierarchy under `root` (excluding `root` itself) and
     * records the number of skin bones. Mesh preparation is not modelled.
     */
    method SetData(root: Transform, bones: seq<nat>)
      modifies this
      ensures boneDatas == Flatten(root, root, [], 0, -1, bones)
      ensures boneIndexNum == |bones|
    {
      var boneDatasTmp := SetDataSub([], root, root, [], -1, bones);
      boneDatas := boneDatasTmp;
      boneIndexNum := |bones|;
    }
  }

  /**
   * The bone list the walk builds from a root meets what the chain walk and
   * the baker need: parents precede children and skin indices are in range;
   * with non-empty names, full paths follow the parent links.
   */
  lemma HierarchyOfRoot(root: Transform, bones: seq<nat>)
    ensures ParentsPrecede(Flatten(root, root, [], 0, -1, bones))
    ensures BoneIndicesBelow(Flatten(root, root, [], 0, -1, bones), |bones|)
    ensures NamesNonEmpty(root) ==> HierarchyConsistent(Flatten(root, root, [], 0, -1, bones))
  {
    FlattenShape(root, root, [], 0, -1, bones);
    if NamesNonEmpty(root) {
      FlattenPaths([], root, root, [], -1, bones);
      assert [] + Flatten(root, root, [], 0, -1, bones) == Flatten(root, root, [], 0, -1, bones);
    }
  }
}
