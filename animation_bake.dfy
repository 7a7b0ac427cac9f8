/**
 * Baking an animation clip into a bone-matrix texture. Every column is one
 * sampled frame; every skin bone owns three consecutive rows holding the
 * upper three rows of its skinning matrix (world matrix times bind pose).
 * Rows no bone writes keep the identity basis.
 */
module AnimationBake {
  import opened Transforms
  import opened BoneModel
  import opened CurveSampling

  /** The pixel array of the baked texture, `width` columns by `height` rows. */
  datatype Texture = Texture(width: int, height: int, pixels: seq<Color>)

  // ---------------------------------------------------------------------------
  // Texture layout

  /**
   * `a` rows of `b` pixels: the product `a * b`, spelled as repeated addition
   * so that reasoning about raster positions stays linear.
   */
  function Times(a: nat, b: nat): nat
  {
    if a == 0 then 0 else Times(a - 1, b) + b
  }

  lemma {:induction false} TimesIsProduct(a: nat, b: nat)
    ensures Times(a, b) == a * b
  {
    if a > 0 {
      TimesIsProduct(a - 1, b);
    }
  }

  lemma {:induction false} TimesMonotone(a: nat, c: nat, b: nat)
    requires a <= c
    ensures Times(a, b) <= Times(c, b)
    decreases c - a
  {
    if a < c {
      TimesMonotone(a, c - 1, b);
    }
  }

  /**
   * Position of row `r` of bone slot `y` at column `x` in a row-major raster
   * `width` wide with `n` slots of three rows: always inside the raster.
   */
  function PixelIndex(width: int, n: int, y: int, r: int, x: int): (p: int)
    requires 0 <= y < n && 0 <= r < 3 && 0 <= x < width
    ensures 0 <= p < Times(n * 3, width)
  {
    TimesMonotone(y * 3 + r + 1, n * 3, width);
    Times(y * 3 + r, width) + x
  }

  /** Distinct coordinates address distinct pixels. */
  lemma PixelIndexDistinct(width: int, n: int, y1: int, r1: int, x1: int, y2: int, r2: int, x2: int)
    requires 0 <= y1 < n && 0 <= r1 < 3 && 0 <= x1 < width
    requires 0 <= y2 < n && 0 <= r2 < 3 && 0 <= x2 < width
    requires y1 != y2 || r1 != r2 || x1 != x2
    ensures PixelIndex(width, n, y1, r1, x1) != PixelIndex(width, n, y2, r2, x2)
  {
    var a1, a2 := y1 * 3 + r1, y2 * 3 + r2;
    if a1 < a2 {
      TimesMonotone(a1 + 1, a2, width);
    } else if a2 < a1 {
      TimesMonotone(a2 + 1, a1, width);
    }
  }

  /** Every pixel of the raster is addressed by some coordinate. */
  lemma PixelIndexCovers(width: int, n: int, p: int)
    requires width > 0 && n >= 0 && 0 <= p < Times(n * 3, width)
    ensures 0 <= p / width / 3 < n && 0 <= p / width % 3 < 3 && 0 <= p % width < width
    ensures p == PixelIndex(width, n, p / width / 3, p / width % 3, p % width)
  {
    var row := p / width;
    assert row >= 0;
    TimesIsProduct(row, width);
    assert p == Times(row, width) + p % width;
    if row >= n * 3 {
      TimesMonotone(n * 3, row, width);
      assert false;
    }
    assert row == row / 3 * 3 + row % 3;
  }

  // ---------------------------------------------------------------------------
  // Matching bones to curves

  /**
   * Suffix test on the bone's full path, character by character. The .NET
   * one-argument `EndsWith` compares under the current culture instead, so
   * ignorable or differently composed characters are not modelled.
   */
  predicate EndsWith(s: string, suffix: string)
  {
    |suffix| <= |s| && s[|s| - |suffix|..] == suffix
  }

  /** The first curve at or after `i` whose bind path ends `path`, or -1. */
  function FirstSuffixMatch(path: string, curves: seq<CurveData>, i: nat): (r: int)
    ensures r == -1 || (i <= r < |curves| && EndsWith(path, curves[r].bindPath))
    ensures r >= 0 ==> forall k :: i <= k < r ==> !EndsWith(path, curves[k].bindPath)
    ensures r == -1 <==> forall k :: i <= k < |curves| ==> !EndsWith(path, curves[k].bindPath)
    decreases |curves| - i
  {
    if i >= |curves| then -1
    else if EndsWith(path, curves[i].bindPath) then i
    else FirstSuffixMatch(path, curves, i + 1)
  }

  /** The curve that drives `bone`: none for a bone outside the skin. */
  function MatchCurve(bone: BoneData, curves: seq<CurveData>): int
  {
    if bone.boneIndex < 0 then -1 else FirstSuffixMatch(bone.fullPath, curves, 0)
  }

  /**
   * A bone outside the skin is never driven; a skin bone is driven by the
   * first curve whose bind path ends its full path, and by none exactly when
   * no bind path does.
   */
  lemma MatchCurveMeaning(bone: BoneData, curves: seq<CurveData>)
    ensures bone.boneIndex < 0 ==> MatchCurve(bone, curves) == -1
    ensures bone.boneIndex >= 0 && MatchCurve(bone, curves) >= 0 ==>
      var i := MatchCurve(bone, curves);
      && i < |curves| && EndsWith(bone.fullPath, curves[i].bindPath)
      && forall k :: 0 <= k < i ==> !EndsWith(bone.fullPath, curves[k].bindPath)
    ensures bone.boneIndex >= 0 ==>
      (MatchCurve(bone, curves) == -1 <==> forall k :: 0 <= k < |curves| ==> !EndsWith(bone.fullPath, curves[k].bindPath))
  {
  }

  /** Every curve some bone is driven by can be sampled. */
  ghost predicate CurvesReady(bones: seq<BoneData>, curves: seq<CurveData>, timeLength: real)
  {
    forall h :: 0 <= h < |bones| && MatchCurve(bones[h], curves) >= 0 ==>
      Readable(curves[MatchCurve(bones[h], curves)], timeLength)
  }

  // ---------------------------------------------------------------------------
  // Frames

  /** Frames per second actually used: a negative request falls back to the clip's rate. */
  function EffectiveFps(fps: real, frameRate: real): real
  {
    if fps < 0.0 then frameRate else fps
  }

  // Real-arithmetic helpers for `KeyCountMeaning`. These are proof steps only
  // and model nothing of the baker.

  /** Multiplying by a non-zero factor and dividing back is the identity. */
  lemma ScaleCancel(fps: real, timeLength: real)
    requires fps != 0.0
    ensures fps * timeLength / fps == timeLength
  {
  }

  /** A frame number within the clip's frame count has a time within the clip. */
  lemma FrameTimeBounds(x: real, frames: real, fps: real)
    requires fps > 0.0 && 0.0 <= x <= frames
    ensures 0.0 <= x / fps <= frames / fps
  {
    DivMonotone(0.0, x, fps);
    DivMonotone(x, frames, fps);
  }

  // Frame count and frame times

  /** Number of sampled frames: the truncated frame count of the clip, plus one. */
  function KeyCount(fps: real, timeLength: real): int
  {
    Truncate(fps * timeLength) + 1
  }

  /**
   * With a positive rate and a non-negative length there is at least one
   * frame, exactly one for an empty clip, every frame time lies within the
   * clip, and one more frame would fall past its end.
   */
  lemma KeyCountMeaning(fps: real, timeLength: real)
    requires fps > 0.0 && timeLength >= 0.0
    ensures KeyCount(fps, timeLength) >= 1
    ensures timeLength == 0.0 ==> KeyCount(fps, timeLength) == 1
    ensures forall x :: 0 <= x < KeyCount(fps, timeLength) ==> 0.0 <= FrameTime(x, fps) <= timeLength
    ensures timeLength < FrameTime(KeyCount(fps, timeLength), fps)
  {
    var frames := fps * timeLength;
    MulMonotone(0.0, timeLength, fps);
    ScaleCancel(fps, timeLength);
    var n := KeyCount(fps, timeLength);
    assert n == frames.Floor + 1;
    forall x | 0 <= x < n
      ensures 0.0 <= FrameTime(x, fps) <= timeLength
    {
      FrameTimeBounds(x as real, frames, fps);
    }
    DivMonotone(frames, n as real, fps);
  }

  /** Clip time of column `x`. */
  function FrameTime(x: int, fps: real): real
    requires fps != 0.0
  {
    x as real / fps
  }

  /**
   * The bones as posed at `time`: every bone driven by a curve gets that
   * curve's rotation at `time`; every other bone keeps its own.
   */
  function FramePose(bones: seq<BoneData>, curves: seq<CurveData>, time: real, timeLength: real): seq<BoneData>
    requires CurvesReady(bones, curves, timeLength)
  {
    seq(|bones|, h requires 0 <= h < |bones| =>
      var c := MatchCurve(bones[h], curves);
      if c < 0 then bones[h] else bones[h].(localRotation := SampleRotation(curves[c], time, timeLength)))
  }

  /** Posing changes rotations only, so links, paths, skin slots and matches stay. */
  lemma FramePoseShape(bones: seq<BoneData>, curves: seq<CurveData>, time: real, timeLength: real)
    requires CurvesReady(bones, curves, timeLength)
    ensures var pose := FramePose(bones, curves, time, timeLength);
      && |pose| == |bones|
      && (forall h :: 0 <= h < |bones| ==> pose[h] == bones[h].(localRotation := pose[h].localRotation))
      && (forall h :: 0 <= h < |bones| ==> MatchCurve(pose[h], curves) == MatchCurve(bones[h], curves))
      && CurvesReady(pose, curves, timeLength)
      && (ParentsPrecede(bones) ==> ParentsPrecede(pose))
      && (forall n :: BoneIndicesBelow(bones, n) ==> BoneIndicesBelow(pose, n))
  {
  }

  /**
   * Each frame overwrites every driven rotation, so posing an already posed
   * skeleton gives the same result as posing the original.
   */
  lemma FramePoseOverwrites(bones: seq<BoneData>, curves: seq<CurveData>, t1: real, t2: real, timeLength: real)
    requires CurvesReady(bones, curves, timeLength)
    ensures CurvesReady(FramePose(bones, curves, t1, timeLength), curves, timeLength)
    ensures FramePose(FramePose(bones, curves, t1, timeLength), curves, t2, timeLength)
            == FramePose(bones, curves, t2, timeLength)
  {
    FramePoseShape(bones, curves, t1, timeLength);
  }

  /** Skinning matrix of bone `h` of a pose: its world matrix times its bind pose. */
  function Skin(pose: seq<BoneData>, h: int, ssc: bool): Matrix
    requires ParentsPrecede(pose) && 0 <= h < |pose|
  {
    Mul(WorldMatrix(pose[h], pose, ssc), pose[h].bindPose)
  }

  /** The last of the first `n` bones that occupies skin slot `y`, or -1. */
  function LastBoneFor(bones: seq<BoneData>, y: int, n: int): (r: int)
    requires 0 <= n <= |bones|
    ensures r == -1 || (0 <= r < n && bones[r].boneIndex == y)
    ensures r >= 0 ==> forall k :: r < k < n ==> bones[k].boneIndex != y
    ensures r == -1 <==> forall k :: 0 <= k < n ==> bones[k].boneIndex != y
  {
    if n == 0 then -1
    else if bones[n - 1].boneIndex == y then n - 1
    else LastBoneFor(bones, y, n - 1)
  }

  /**
   * Row `r` of slot `y` in a column after the first `n` bones have been
   * written: the row of the last of them in that slot, or the basis row.
   */
  function ColumnColor(pose: seq<BoneData>, y: int, r: int, n: int, ssc: bool): Color
    requires ParentsPrecede(pose) && 0 <= n <= |pose| && 0 <= r < 3
  {
    var h := LastBoneFor(pose, y, n);
    if h < 0 then Basis(r) else MatrixRow(Skin(pose, h, ssc), r)
  }

  /** The colour the bake leaves at row `r` of slot `y` in column `x`. */
  function BakedPixel(bones: seq<BoneData>, curves: seq<CurveData>, fps: real, timeLength: real, ssc: bool,
                      y: int, r: int, x: int): Color
    requires CurvesReady(bones, curves, timeLength) && ParentsPrecede(bones) && fps != 0.0 && 0 <= r < 3
  {
    var pose := FramePose(bones, curves, FrameTime(x, fps), timeLength);
    FramePoseShape(bones, curves, FrameTime(x, fps), timeLength);
    ColumnColor(pose, y, r, |pose|, ssc)
  }

  /**
   * What a baked pixel holds: row `r` of the skinning matrix of the last bone
   * in slot `y`, posed at the column's time; the basis row when no bone
   * occupies the slot.
   */
  lemma BakedPixelMeaning(bones: seq<BoneData>, curves: seq<CurveData>, fps: real, timeLength: real, ssc: bool,
                          y: int, r: int, x: int, h: int)
    requires CurvesReady(bones, curves, timeLength) && ParentsPrecede(bones) && fps != 0.0 && 0 <= r < 3
    requires (0 <= h < |bones| && bones[h].boneIndex == y
              && forall k :: h < k < |bones| ==> bones[k].boneIndex != y)
          || (h == -1 && forall k :: 0 <= k < |bones| ==> bones[k].boneIndex != y)
    ensures ParentsPrecede(FramePose(bones, curves, FrameTime(x, fps), timeLength))
    ensures var pose := FramePose(bones, curves, FrameTime(x, fps), timeLength);
      BakedPixel(bones, curves, fps, timeLength, ssc, y, r, x)
      == if h < 0 then Basis(r) else MatrixRow(Mul(WorldMatrix(pose[h], pose, ssc), bones[h].bindPose), r)
  {
    var pose := FramePose(bones, curves, FrameTime(x, fps), timeLength);
    FramePoseShape(bones, curves, FrameTime(x, fps), timeLength);
    if h >= 0 {
      assert pose[h].boneIndex == y;
    }
  }

  /**
   * When the frame count divides the clip exactly, the last column samples
   * the end of the clip, which wraps to its start: it repeats column 0.
   */
  lemma LastFrameRepeatsFirst(bones: seq<BoneData>, curves: seq<CurveData>, fps: real, timeLength: real,
                              ssc: bool, y: int, r: int)
    requires CurvesReady(bones, curves, timeLength) && ParentsPrecede(bones) && fps > 0.0 && 0 <= r < 3
    requires timeLength > 0.0 && FrameTime(KeyCount(fps, timeLength) - 1, fps) == timeLength
    ensures BakedPixel(bones, curves, fps, timeLength, ssc, y, r, KeyCount(fps, timeLength) - 1)
         == BakedPixel(bones, curves, fps, timeLength, ssc, y, r, 0)
  {
    var last := FrameTime(KeyCount(fps, timeLength) - 1, fps);
    assert FrameTime(0, fps) == 0.0;
    var p1, p0 := FramePose(bones, curves, last, timeLength), FramePose(bones, curves, 0.0, timeLength);
    forall h | 0 <= h < |bones|
      ensures p1[h] == p0[h]
    {
      var c := MatchCurve(bones[h], curves);
      if c >= 0 {
        SampleRotationPeriodic(curves[c], 0.0, timeLength, 1);
      }
    }
    assert p1 == p0;
  }

  // ---------------------------------------------------------------------------
  // The baker

  /** A bone-by-bone copy of the model's bone list. */
  method CloneBones(src: seq<BoneData>) returns (a: array<BoneData>)
    ensures fresh(a) && a[..] == src
  {
    a := new BoneData[|src|](h requires 0 <= h < |src| => Clone(src[h]));
  }

  /**
   * Overwrites the identity basis into every row triple of a `width`-wide
   * raster of `height` rows.
   */
  method FillBasis(pixels: array<Color>, width: int, height: int)
    requires 0 <= width && 0 <= height && height % 3 == 0 && pixels.Length == Times(height, width)
    modifies pixels
    ensures forall y, r, x :: 0 <= y < height / 3 && 0 <= r < 3 && 0 <= x < width ==>
              pixels[PixelIndex(width, height / 3, y, r, x)] == Basis(r)
  {
    var y := 0;
    while y < height
      invariant 0 <= y <= height && y % 3 == 0
      invariant forall yy, r, xx :: 0 <= yy < y / 3 && 0 <= r < 3 && 0 <= xx < width ==>
                  pixels[PixelIndex(width, height / 3, yy, r, xx)] == Basis(r)
    {
      var x := 0;
      while x < width
        invariant 0 <= x <= width
        invariant forall yy, r, xx :: 0 <= yy < y / 3 && 0 <= r < 3 && 0 <= xx < width ==>
                    pixels[PixelIndex(width, height / 3, yy, r, xx)] == Basis(r)
        invariant forall r, xx :: 0 <= r < 3 && 0 <= xx < x ==>
                    pixels[PixelIndex(width, height / 3, y / 3, r, xx)] == Basis(r)
      {
        WriteSlot(pixels, width, height / 3, y / 3, x, [Basis(0), Basis(1), Basis(2)]);
        x := x + 1;
      }
      y := y + 3;
    }
  }

  /** Each of the three pixels of slot `y` at column `x` differs from the pixel of any other coordinate. */
  lemma SlotStep(width: int, n: int, y: int, x: int)
    requires 0 <= y < n && 0 <= x < width
    ensures forall yy, rr, xx, r ::
              0 <= yy < n && 0 <= rr < 3 && 0 <= xx < width && 0 <= r < 3 && (yy != y || rr != r || xx != x)
              ==> PixelIndex(width, n, yy, rr, xx) != PixelIndex(width, n, y, r, x)
  {
    forall yy, rr, xx, r | 0 <= yy < n && 0 <= rr < 3 && 0 <= xx < width && 0 <= r < 3 && (yy != y || rr != r || xx != x)
      ensures PixelIndex(width, n, yy, rr, xx) != PixelIndex(width, n, y, r, x)
    {
      PixelIndexDistinct(width, n, yy, rr, xx, y, r, x);
    }
  }

  /** Writing bone `h` into a column changes exactly the three rows of its slot. */
  lemma ColumnStep(pose: seq<BoneData>, h: int, ssc: bool)
    requires ParentsPrecede(pose) && 0 <= h < |pose|
    ensures forall y, r :: 0 <= r < 3 ==>
              ColumnColor(pose, y, r, h + 1, ssc)
              == if pose[h].boneIndex == y then MatrixRow(Skin(pose, h, ssc), r) else ColumnColor(pose, y, r, h, ssc)
  {
    forall y, r | 0 <= r < 3
      ensures ColumnColor(pose, y, r, h + 1, ssc)
              == if pose[h].boneIndex == y then MatrixRow(Skin(pose, h, ssc), r) else ColumnColor(pose, y, r, h, ssc)
    {
      assert LastBoneFor(pose, y, h + 1) == if pose[h].boneIndex == y then h else LastBoneFor(pose, y, h);
    }
  }

  /**
   * Writes the three rows of every skin bone's matrix into column `x`; bones
   * outside the skin write nothing, and a later bone in the same slot wins.
   */
  method WriteFrame(pixels: array<Color>, pose: array<BoneData>, x: int, keyNum: int, n: int, ssc: bool)
    requires ParentsPrecede(pose[..]) && BoneIndicesBelow(pose[..], n)
    requires 0 <= x < keyNum && 0 <= n && pixels.Length == Times(n * 3, keyNum)
    requires forall y, r :: 0 <= y < n && 0 <= r < 3 ==> pixels[PixelIndex(keyNum, n, y, r, x)] == Basis(r)
    modifies pixels
    ensures forall y, r :: 0 <= y < n && 0 <= r < 3 ==>
              pixels[PixelIndex(keyNum, n, y, r, x)] == ColumnColor(pose[..], y, r, pose.Length, ssc)
    ensures forall y, r, xx :: 0 <= y < n && 0 <= r < 3 && 0 <= xx < keyNum && xx != x ==>
              pixels[PixelIndex(keyNum, n, y, r, xx)] == old(pixels[PixelIndex(keyNum, n, y, r, xx)])
  {
    ghost var bones := pose[..];
    ghost var start := pixels[..];
    assert forall y, r :: 0 <= r < 3 ==> ColumnColor(bones, y, r, 0, ssc) == Basis(r);
    var h := 0;
    while h < pose.Length
      invariant 0 <= h <= pose.Length
      invariant forall y, r :: 0 <= y < n && 0 <= r < 3 ==>
                  pixels[PixelIndex(keyNum, n, y, r, x)] == ColumnColor(bones, y, r, h, ssc)
      invariant forall y, r, xx :: 0 <= y < n && 0 <= r < 3 && 0 <= xx < keyNum && xx != x ==>
                  pixels[PixelIndex(keyNum, n, y, r, xx)] == start[PixelIndex(keyNum, n, y, r, xx)]
    {
      WriteBone(pixels, pose, h, x, keyNum, n, ssc);
      h := h + 1;
    }
  }

  /** Writes bone `h`'s skin matrix into its slot of column `x`, when it has one. */
  method WriteBone(pixels: array<Color>, pose: array<BoneData>, h: int, x: int, keyNum: int, n: int, ssc: bool)
    requires ParentsPrecede(pose[..]) && BoneIndicesBelow(pose[..], n) && 0 <= h < pose.Length
    requires 0 <= x < keyNum && 0 <= n && pixels.Length == Times(n * 3, keyNum)
    requires forall y, r :: 0 <= y < n && 0 <= r < 3 ==>
               pixels[PixelIndex(keyNum, n, y, r, x)] == ColumnColor(pose[..], y, r, h, ssc)
    modifies pixels
    ensures forall y, r :: 0 <= y < n && 0 <= r < 3 ==>
              pixels[PixelIndex(keyNum, n, y, r, x)] == ColumnColor(pose[..], y, r, h + 1, ssc)
    ensures forall y, r, xx :: 0 <= y < n && 0 <= r < 3 && 0 <= xx < keyNum && xx != x ==>
              pixels[PixelIndex(keyNum, n, y, r, xx)] == old(pixels[PixelIndex(keyNum, n, y, r, xx)])
  {
    ColumnStep(pose[..], h, ssc);
    if pose[h].boneIndex < 0 {
      return;
    }
    var wmtx := GetWorldMatrix(pose[h], pose, ssc);
    var mtx := Mul(wmtx, pose[h].bindPose);
    var y := pose[h].boneIndex;
    assert mtx == Skin(pose[..], h, ssc);
    WriteSlot(pixels, keyNum, n, y, x, [MatrixRow(mtx, 0), MatrixRow(mtx, 1), MatrixRow(mtx, 2)]);
  }

  /** Writes the three colours `c` into the rows of slot `y` at column `x`, and nothing else. */
  method WriteSlot(pixels: array<Color>, width: int, n: int, y: int, x: int, c: seq<Color>)
    requires 0 <= y < n && 0 <= x < width && pixels.Length == Times(n * 3, width) && |c| == 3
    modifies pixels
    ensures forall r :: 0 <= r < 3 ==> pixels[PixelIndex(width, n, y, r, x)] == c[r]
    ensures forall yy, rr, xx :: 0 <= yy < n && 0 <= rr < 3 && 0 <= xx < width && (yy != y || xx != x) ==>
              pixels[PixelIndex(width, n, yy, rr, xx)] == old(pixels[PixelIndex(width, n, yy, rr, xx)])
  {
    SlotStep(width, n, y, x);
    pixels[PixelIndex(width, n, y, 0, x)] := c[0];
    pixels[PixelIndex(width, n, y, 1, x)] := c[1];
    pixels[PixelIndex(width, n, y, 2, x)] := c[2];
  }

  // ---------------------------------------------------------------------------
  // Sampling a clip into rotation curves

  /** One animated property of a clip: the bound path, the property name and its key times. */
  datatype CurveBinding = CurveBinding(path: string, propertyName: string, keyTimes: seq<real>)

  /**
   * The clip length the importer records: the time of the last key of the
   * last binding that has keys (0 when no binding has any).
   */
  function LastKeyTime(bindings: seq<CurveBinding>): real
  {
    if bindings == [] then 0.0
    else
      var b := bindings[|bindings| - 1];
      if b.keyTimes == [] then LastKeyTime(bindings[..|bindings| - 1]) else b.keyTimes[|b.keyTimes| - 1]
  }

  /** The largest key time of all bindings, and 0 when that is larger. */
  function MaxKeyTime(bindings: seq<CurveBinding>): real
  {
    if bindings == [] then 0.0
    else
      var b := bindings[|bindings| - 1];
      var m := MaxKeyTime(bindings[..|bindings| - 1]);
      if b.keyTimes == [] then m else Max(m, MaxOf(b.keyTimes))
  }

  function Max(a: real, b: real): real
  {
    if a < b then b else a
  }

  function MaxOf(ts: seq<real>): real
    requires ts != []
  {
    if |ts| == 1 then ts[0] else Max(MaxOf(ts[..|ts| - 1]), ts[|ts| - 1])
  }

  lemma {:induction false} MaxOfBounds(ts: seq<real>)
    requires ts != []
    ensures forall j :: 0 <= j < |ts| ==> ts[j] <= MaxOf(ts)
    ensures exists j :: 0 <= j < |ts| && ts[j] == MaxOf(ts)
  {
    if |ts| == 1 {
      assert ts[0] == MaxOf(ts);
    } else {
      var pre := ts[..|ts| - 1];
      MaxOfBounds(pre);
      var j :| 0 <= j < |pre| && pre[j] == MaxOf(pre);
      if MaxOf(pre) < ts[|ts| - 1] {
        assert ts[|ts| - 1] == MaxOf(ts);
      } else {
        assert ts[j] == MaxOf(ts);
      }
    }
  }

  /**
   * The clip length as evidently intended: no key of any binding lies past
   * it, and it is one of the key times, or 0 when every key is negative or
   * there are none.
   */
  lemma {:induction false} MaxKeyTimeBounds(bindings: seq<CurveBinding>)
    ensures MaxKeyTime(bindings) >= 0.0
    ensures forall i, j :: 0 <= i < |bindings| && 0 <= j < |bindings[i].keyTimes| ==>
              bindings[i].keyTimes[j] <= MaxKeyTime(bindings)
    ensures MaxKeyTime(bindings) == 0.0 ||
            exists i, j :: 0 <= i < |bindings| && 0 <= j < |bindings[i].keyTimes| && bindings[i].keyTimes[j] == MaxKeyTime(bindings)
  {
    if bindings != [] {
      var pre := bindings[..|bindings| - 1];
      var b := bindings[|bindings| - 1];
      MaxKeyTimeBounds(pre);
      assert forall i :: 0 <= i < |pre| ==> bindings[i] == pre[i];
      if b.keyTimes != [] {
        MaxOfBounds(b.keyTimes);
        if MaxKeyTime(bindings) != MaxKeyTime(pre) {
          var j :| 0 <= j < |b.keyTimes| && b.keyTimes[j] == MaxOf(b.keyTimes);
          assert bindings[|bindings| - 1].keyTimes[j] == MaxKeyTime(bindings);
        } else if MaxKeyTime(pre) != 0.0 {
          var i, j :| 0 <= i < |pre| && 0 <= j < |pre[i].keyTimes| && pre[i].keyTimes[j] == MaxKeyTime(pre);
          assert bindings[i].keyTimes[j] == MaxKeyTime(bindings);
        }
      } else if MaxKeyTime(pre) != 0.0 {
        var i, j :| 0 <= i < |pre| && 0 <= j < |pre[i].keyTimes| && pre[i].keyTimes[j] == MaxKeyTime(pre);
        assert bindings[i].keyTimes[j] == MaxKeyTime(bindings);
      }
    }
  }

  /**
   * The recorded length is not the longest key time: a short curve listed
   * after a long one cuts the clip short.
   */
  lemma LastKeyTimeCutsClipShort()
    ensures var bindings := [CurveBinding("Hips", "m_LocalRotation.x", [0.0, 2.0]),
                             CurveBinding("Hips/Spine", "m_LocalRotation.x", [0.0, 1.0])];
            LastKeyTime(bindings) == 1.0 && MaxKeyTime(bindings) == 2.0
  {
    var bindings := [CurveBinding("Hips", "m_LocalRotation.x", [0.0, 2.0]),
                     CurveBinding("Hips/Spine", "m_LocalRotation.x", [0.0, 1.0])];
    assert bindings[..1] == [bindings[0]];
    assert bindings[..1][..0] == [];
    assert MaxOf([0.0, 2.0]) == 2.0 by {
      assert [0.0, 2.0][..1] == [0.0];
    }
    assert MaxOf([0.0, 1.0]) == 1.0 by {
      assert [0.0, 1.0][..1] == [0.0];
    }
  }

  /** The four components of a local rotation are the only properties baked. */
  predicate IsRotationProperty(propertyName: string)
  {
    || propertyName == "m_LocalRotation.x" || propertyName == "m_LocalRotation.y"
    || propertyName == "m_LocalRotation.z" || propertyName == "m_LocalRotation.w"
  }

  /** The dictionary key of a binding's curve. */
  function CurveKey(path: string, propertyName: string): string
  {
    path + ":" + propertyName
  }

  /** The paths of rotation bindings, each once, in the order they are first seen. */
  function RotationPaths(bindings: seq<CurveBinding>): seq<string>
  {
    if bindings == [] then []
    else
      var pre := RotationPaths(bindings[..|bindings| - 1]);
      var b := bindings[|bindings| - 1];
      if IsRotationProperty(b.propertyName) && b.path !in pre then pre + [b.path] else pre
  }

  /** Position of the first rotation binding for `path`, or |bindings| when there is none. */
  function FirstSeen(bindings: seq<CurveBinding>, path: string): (r: nat)
    ensures r <= |bindings|
    ensures r < |bindings| ==> IsRotationProperty(bindings[r].propertyName) && bindings[r].path == path
    ensures forall i :: 0 <= i < r ==> !(IsRotationProperty(bindings[i].propertyName) && bindings[i].path == path)
  {
    if bindings == [] then 0
    else if IsRotationProperty(bindings[0].propertyName) && bindings[0].path == path then 0
    else
      var r := FirstSeen(bindings[1..], path);
      assert forall i :: 1 <= i < |bindings| ==> bindings[i] == bindings[1..][i - 1];
      r + 1
  }

  lemma FirstSeenPrefix(bindings: seq<CurveBinding>, path: string)
    requires bindings != []
    ensures var pre := bindings[..|bindings| - 1];
      FirstSeen(pre, path) < |pre| ==> FirstSeen(bindings, path) == FirstSeen(pre, path)
    ensures var pre := bindings[..|bindings| - 1];
      FirstSeen(pre, path) == |pre| ==> FirstSeen(bindings, path) >= |pre|
  {
    var pre := bindings[..|bindings| - 1];
    assert forall i :: 0 <= i < |pre| ==> pre[i] == bindings[i];
  }

  /**
   * Every rotation path is listed exactly once, nothing else is listed, and
   * the list follows the order in which the paths are first seen.
   */
  lemma {:induction false} RotationPathsMeaning(bindings: seq<CurveBinding>)
    ensures var paths := RotationPaths(bindings);
      && (forall i, j :: 0 <= i < j < |paths| ==> paths[i] != paths[j])
      && (forall p :: p in paths <==> FirstSeen(bindings, p) < |bindings|)
      && (forall i, j :: 0 <= i < j < |paths| ==> FirstSeen(bindings, paths[i]) < FirstSeen(bindings, paths[j]))
  {
    if bindings != [] {
      var pre := bindings[..|bindings| - 1];
      RotationPathsMeaning(pre);
      RotationPathsMembersStep(bindings);
      RotationPathsOrderStep(bindings);
    }
  }

  /** Adding a binding keeps the paths listed exactly those first seen so far. */
  lemma RotationPathsMembersStep(bindings: seq<CurveBinding>)
    requires bindings != []
    requires var pre := bindings[..|bindings| - 1];
      forall p :: p in RotationPaths(pre) <==> FirstSeen(pre, p) < |pre|
    ensures forall p :: p in RotationPaths(bindings) <==> FirstSeen(bindings, p) < |bindings|
  {
    forall p
      ensures p in RotationPaths(bindings) <==> FirstSeen(bindings, p) < |bindings|
    {
      FirstSeenPrefix(bindings, p);
    }
  }

  /** Adding a binding keeps the paths in the order they are first seen. */
  lemma RotationPathsOrderStep(bindings: seq<CurveBinding>)
    requires bindings != []
    requires var pre := bindings[..|bindings| - 1]; var ps := RotationPaths(pre);
      && (forall p :: p in ps <==> FirstSeen(pre, p) < |pre|)
      && (forall i, j :: 0 <= i < j < |ps| ==> FirstSeen(pre, ps[i]) < FirstSeen(pre, ps[j]))
    ensures var paths := RotationPaths(bindings);
      forall i, j :: 0 <= i < j < |paths| ==> FirstSeen(bindings, paths[i]) < FirstSeen(bindings, paths[j])
  {
    var ps := RotationPaths(bindings[..|bindings| - 1]);
    var paths := RotationPaths(bindings);
    forall i, j | 0 <= i < j < |paths|
      ensures FirstSeen(bindings, paths[i]) < FirstSeen(bindings, paths[j])
    {
      FirstSeenPrefix(bindings, paths[i]);
      FirstSeenPrefix(bindings, paths[j]);
      if j == |ps| {
        assert paths[j] == bindings[|bindings| - 1].path;
        assert paths[i] == ps[i];
      }
    }
  }

  /** The dictionary of rotation curves the bindings build, keyed by path and property; a later binding wins. */
  function RotationCurves(bindings: seq<CurveBinding>): map<string, CurveBinding>
  {
    if bindings == [] then map[]
    else
      var pre := RotationCurves(bindings[..|bindings| - 1]);
      var b := bindings[|bindings| - 1];
      if IsRotationProperty(b.propertyName) then pre[CurveKey(b.path, b.propertyName) := b] else pre
  }

  /** Adding the bindings one by one meets a rotation key that is already in the dictionary. */
  ghost predicate HasDuplicateKey(bindings: seq<CurveBinding>)
  {
    && bindings != []
    && var pre := bindings[..|bindings| - 1];
       var b := bindings[|bindings| - 1];
       || HasDuplicateKey(pre)
       || (IsRotationProperty(b.propertyName) && CurveKey(b.path, b.propertyName) in RotationCurves(pre))
  }

  /** The dictionary holds exactly the keys of the rotation bindings. */
  lemma {:induction false} RotationCurvesKeys(bindings: seq<CurveBinding>)
    ensures forall k :: k in RotationCurves(bindings) <==>
              exists i :: 0 <= i < |bindings| && IsRotationProperty(bindings[i].propertyName)
                && CurveKey(bindings[i].path, bindings[i].propertyName) == k
  {
    if bindings != [] {
      var pre := bindings[..|bindings| - 1];
      RotationCurvesKeys(pre);
      assert forall i :: 0 <= i < |pre| ==> bindings[i] == pre[i];
    }
  }

  /** Two rotation bindings that would be filed under the same key. */
  predicate SameRotationKey(a: CurveBinding, b: CurveBinding)
  {
    && IsRotationProperty(a.propertyName) && IsRotationProperty(b.propertyName)
    && CurveKey(a.path, a.propertyName) == CurveKey(b.path, b.propertyName)
  }

  /** The build fails exactly when two rotation bindings share a path and a property. */
  lemma {:induction false} HasDuplicateKeyMeaning(bindings: seq<CurveBinding>)
    ensures HasDuplicateKey(bindings) <==>
      exists i, j :: 0 <= i < j < |bindings| && SameRotationKey(bindings[i], bindings[j])
  {
    if bindings != [] {
      var pre := bindings[..|bindings| - 1];
      var last := |bindings| - 1;
      HasDuplicateKeyMeaning(pre);
      RotationCurvesKeys(pre);
      assert forall i :: 0 <= i < |pre| ==> bindings[i] == pre[i];
      if exists i, j :: 0 <= i < j < |bindings| && SameRotationKey(bindings[i], bindings[j]) {
        var i, j :| 0 <= i < j < |bindings| && SameRotationKey(bindings[i], bindings[j]);
        if j < last {
          assert pre[i] == bindings[i] && pre[j] == bindings[j];
        } else {
          assert pre[i] == bindings[i];
        }
      }
    }
  }

  /** Without duplicates every rotation binding is found under its own key. */
  lemma {:induction false} RotationCurvesValues(bindings: seq<CurveBinding>)
    requires !HasDuplicateKey(bindings)
    ensures forall i :: 0 <= i < |bindings| && IsRotationProperty(bindings[i].propertyName) ==>
              CurveKey(bindings[i].path, bindings[i].propertyName) in RotationCurves(bindings)
              && RotationCurves(bindings)[CurveKey(bindings[i].path, bindings[i].propertyName)] == bindings[i]
  {
    if bindings != [] {
      var pre := bindings[..|bindings| - 1];
      RotationCurvesValues(pre);
      assert forall i :: 0 <= i < |pre| ==> bindings[i] == pre[i];
    }
  }

  datatype Option<T> = None | Some(value: T)

  /** Once the bindings read so far hold a duplicate, so does the whole clip. */
  lemma {:induction false} DuplicateIsKept(bindings: seq<CurveBinding>, h: nat)
    requires h <= |bindings| && HasDuplicateKey(bindings[..h])
    ensures HasDuplicateKey(bindings)
  {
    if h < |bindings| {
      var longer := bindings[..|bindings| - 1];
      assert longer[..h] == bindings[..h];
      DuplicateIsKept(longer, h);
    } else {
      assert bindings[..h] == bindings;
    }
  }

  /** `Mathf.Min`: the first argument when it is smaller, else the second. */
  function Min(a: real, b: real): real
  {
    if a < b then a else b
  }

  /** The key times of every sampled curve: frame times clamped to the clip length. */
  function SampleTimes(frameRate: real, timeLength: real): seq<real>
    requires frameRate != 0.0 && KeyCount(frameRate, timeLength) >= 0
  {
    seq(KeyCount(frameRate, timeLength), x requires 0 <= x => Min(x as real / frameRate, timeLength))
  }

  /**
   * With a positive rate and a non-negative length the sample times are the
   * frame times themselves (the clamp never bites): they start at 0, rise
   * strictly, and stay within the clip.
   */
  lemma SampleTimesMeaning(frameRate: real, timeLength: real)
    requires frameRate > 0.0 && timeLength >= 0.0
    ensures KeyCount(frameRate, timeLength) >= 1
    ensures var ts := SampleTimes(frameRate, timeLength);
      && |ts| == KeyCount(frameRate, timeLength)
      && ts[0] == 0.0
      && (forall x :: 0 <= x < |ts| ==> ts[x] == FrameTime(x, frameRate) && ts[x] <= timeLength)
      && StrictlyIncreasing(ts)
  {
    KeyCountMeaning(frameRate, timeLength);
    var ts := SampleTimes(frameRate, timeLength);
    forall x | 0 <= x < |ts| - 1
      ensures ts[x] < ts[x + 1]
    {
      DivMonotone(x as real, (x + 1) as real, frameRate);
    }
  }

  /** The value of one rotation component at `time`: its curve's value, or 1 when it has none. */
  function ChannelValue(curves: map<string, CurveBinding>, path: string, propertyName: string,
                        evaluate: (CurveBinding, real) -> real, time: real): real
  {
    var key := CurveKey(path, propertyName);
    if key in curves then evaluate(curves[key], time) else 1.0
  }

  /** The rotation sampled for `path` at `time`, normalised. */
  function RotationSample(curves: map<string, CurveBinding>, path: string,
                          evaluate: (CurveBinding, real) -> real, time: real): Quaternion
  {
    Normalized(Quaternion(ChannelValue(curves, path, "m_LocalRotation.x", evaluate, time),
                          ChannelValue(curves, path, "m_LocalRotation.y", evaluate, time),
                          ChannelValue(curves, path, "m_LocalRotation.z", evaluate, time),
                          ChannelValue(curves, path, "m_LocalRotation.w", evaluate, time)))
  }

  /** The curve sampled for `path`: one rotation per sample time. */
  function SampledCurve(path: string, curves: map<string, CurveBinding>, frameRate: real, timeLength: real,
                        evaluate: (CurveBinding, real) -> real): CurveData
    requires frameRate != 0.0 && KeyCount(frameRate, timeLength) >= 0
  {
    var ts := SampleTimes(frameRate, timeLength);
    CurveData(path, ts, seq(|ts|, x requires 0 <= x < |ts| => RotationSample(curves, path, evaluate, ts[x])))
  }

  /** The curves a clip is sampled into: one per rotation path, in first-seen order. */
  function SampledCurves(bindings: seq<CurveBinding>, frameRate: real, timeLength: real,
                         evaluate: (CurveBinding, real) -> real): seq<CurveData>
    requires frameRate != 0.0 && KeyCount(frameRate, timeLength) >= 0
  {
    var paths := RotationPaths(bindings);
    seq(|paths|, h requires 0 <= h < |paths| =>
      SampledCurve(paths[h], RotationCurves(bindings), frameRate, timeLength, evaluate))
  }

  /**
   * A sampled curve can be looked up exactly when the clip spans at least one
   * whole frame; a shorter clip yields a single key, which the lookup cannot
   * interpolate.
   */
  lemma SampledCurveSampleable(path: string, curves: map<string, CurveBinding>, frameRate: real, timeLength: real,
                               evaluate: (CurveBinding, real) -> real)
    requires frameRate > 0.0 && timeLength >= 0.0
    ensures KeyCount(frameRate, timeLength) >= 1
    ensures Sampleable(SampledCurve(path, curves, frameRate, timeLength, evaluate))
            <==> frameRate * timeLength >= 1.0
  {
    SampleTimesMeaning(frameRate, timeLength);
  }

  /**
   * A clip shorter than one frame samples every curve to a single key, which
   * the lookup as written cannot read: its fallback interpolates towards a
   * second key that does not exist.
   */
  lemma ShortClipCurveReadsPastEnd(path: string, curves: map<string, CurveBinding>, frameRate: real,
                                   timeLength: real, evaluate: (CurveBinding, real) -> real, time: real)
    requires frameRate > 0.0 && timeLength > 0.0 && frameRate * timeLength < 1.0
    ensures KeyCount(frameRate, timeLength) == 1
    ensures var c := SampledCurve(path, curves, frameRate, timeLength, evaluate);
      && |c.times| == |c.localRotations| == 1
      && !Sampleable(c)
      && TimeIndexAt(c.times, Wrap(time, timeLength)).index + 1 == |c.localRotations|
  {
    MulMonotone(0.0, timeLength, frameRate);
    var c := SampledCurve(path, curves, frameRate, timeLength, evaluate);
    SingleKeyLookupReadsPastEnd(c, time, timeLength);
  }

  /**
   * Every sampled curve can be read by the corrected lookup, for any
   * non-negative clip length, the empty clip included.
   */
  lemma SampledCurveReadable(path: string, curves: map<string, CurveBinding>, frameRate: real, timeLength: real,
                             evaluate: (CurveBinding, real) -> real)
    requires frameRate > 0.0 && timeLength >= 0.0
    ensures KeyCount(frameRate, timeLength) >= 1
    ensures Readable(SampledCurve(path, curves, frameRate, timeLength, evaluate), timeLength)
  {
    SampleTimesMeaning(frameRate, timeLength);
    SampledCurveSampleable(path, curves, frameRate, timeLength, evaluate);
    var c := SampledCurve(path, curves, frameRate, timeLength, evaluate);
    if frameRate * timeLength >= 1.0 {
      if timeLength <= 0.0 {
        MulMonotone(timeLength, 0.0, frameRate);
        assert false;
      }
    } else {
      MulMonotone(0.0, timeLength, frameRate);
      assert KeyCount(frameRate, timeLength) == 1;
    }
  }

  /**
   * For any clip of non-negative length, every bone the baker matches to a
   * sampled curve can be posed, whatever the bones are.
   */
  lemma SampledCurvesReady(bones: seq<BoneData>, bindings: seq<CurveBinding>,
                           frameRate: real, timeLength: real, evaluate: (CurveBinding, real) -> real)
    requires frameRate > 0.0 && timeLength >= 0.0
    ensures KeyCount(frameRate, timeLength) >= 1
    ensures CurvesReady(bones, SampledCurves(bindings, frameRate, timeLength, evaluate), timeLength)
  {
    KeyCountMeaning(frameRate, timeLength);
    var cs := SampledCurves(bindings, frameRate, timeLength, evaluate);
    var paths := RotationPaths(bindings);
    forall h | 0 <= h < |paths|
      ensures Readable(cs[h], timeLength)
    {
      SampledCurveReadable(paths[h], RotationCurves(bindings), frameRate, timeLength, evaluate);
    }
  }

  /** Samples the rotation curve of `path` into freshly allocated key arrays. */
  method SampleCurve(path: string, curves: map<string, CurveBinding>, frameRate: real, timeLength: real,
                     evaluate: (CurveBinding, real) -> real) returns (c: CurveData)
    requires frameRate != 0.0 && KeyCount(frameRate, timeLength) >= 0
    ensures c == SampledCurve(path, curves, frameRate, timeLength, evaluate)
  {
    var curveX := if CurveKey(path, "m_LocalRotation.x") in curves then Some(curves[CurveKey(path, "m_LocalRotation.x")]) else None;
    var curveY := if CurveKey(path, "m_LocalRotation.y") in curves then Some(curves[CurveKey(path, "m_LocalRotation.y")]) else None;
    var curveZ := if CurveKey(path, "m_LocalRotation.z") in curves then Some(curves[CurveKey(path, "m_LocalRotation.z")]) else None;
    var curveW := if CurveKey(path, "m_LocalRotation.w") in curves then Some(curves[CurveKey(path, "m_LocalRotation.w")]) else None;
    var keyNum := Truncate(frameRate * timeLength) + 1;
    var times := new real[keyNum];
    var rotations := new Quaternion[keyNum];
    ghost var ts := SampleTimes(frameRate, timeLength);
    for x := 0 to keyNum
      invariant forall i :: 0 <= i < x ==> times[i] == ts[i]
      invariant forall i :: 0 <= i < x ==> rotations[i] == RotationSample(curves, path, evaluate, ts[i])
    {
      var time := Min(x as real / frameRate, timeLength);
      times[x] := time;
      var valueX, valueY, valueZ, valueW := 1.0, 1.0, 1.0, 1.0;
      if curveX.Some? { valueX := evaluate(curveX.value, time); }
      if curveY.Some? { valueY := evaluate(curveY.value, time); }
      if curveZ.Some? { valueZ := evaluate(curveZ.value, time); }
      if curveW.Some? { valueW := evaluate(curveW.value, time); }
      rotations[x] := Normalized(Quaternion(valueX, valueY, valueZ, valueW));
    }
    c := CurveData(path, times[..], rotations[..]);
  }

  /** Measures the clip: each key visited overwrites the length, so the last key read wins. */
  method MeasureLength(bindings: seq<CurveBinding>) returns (animationLength: real)
    ensures animationLength == LastKeyTime(bindings)
  {
    animationLength := 0.0;
    for h := 0 to |bindings|
      invariant animationLength == LastKeyTime(bindings[..h])
    {
      assert bindings[..h + 1][..h] == bindings[..h];
      var keys := bindings[h].keyTimes;
      for x := 0 to |keys|
        invariant animationLength == if x == 0 then LastKeyTime(bindings[..h]) else keys[x - 1]
      {
        animationLength := keys[x];
      }
    }
    assert bindings[..|bindings|] == bindings;
  }

  /** Measures the clip as evidently intended: the running maximum of every key time, from 0. */
  method MeasureMaxLength(bindings: seq<CurveBinding>) returns (animationLength: real)
    ensures animationLength == MaxKeyTime(bindings)
  {
    animationLength := 0.0;
    for h := 0 to |bindings|
      invariant animationLength == MaxKeyTime(bindings[..h])
    {
      assert bindings[..h + 1][..h] == bindings[..h];
      var keys := bindings[h].keyTimes;
      for x := 0 to |keys|
        invariant animationLength == if x == 0 then MaxKeyTime(bindings[..h]) else Max(MaxKeyTime(bindings[..h]), MaxOf(keys[..x]))
      {
        assert keys[..x + 1][..x] == keys[..x];
        animationLength := Max(animationLength, keys[x]);
      }
      assert keys != [] ==> keys[..|keys|] == keys;
    }
    assert bindings[..|bindings|] == bindings;
  }

  /**
   * Lists the rotation paths and files every rotation curve under its path
   * and property; `ok` is false when a key is filed twice, where the
   * dictionary rejects the clip.
   */
  method FileRotationCurves(bindings: seq<CurveBinding>)
    returns (ok: bool, paths: seq<string>, curves: map<string, CurveBinding>)
    ensures ok <==> !HasDuplicateKey(bindings)
    ensures ok ==> paths == RotationPaths(bindings) && curves == RotationCurves(bindings)
  {
    paths, curves := [], map[];
    for h := 0 to |bindings|
      invariant paths == RotationPaths(bindings[..h])
      invariant curves == RotationCurves(bindings[..h])
      invariant !HasDuplicateKey(bindings[..h])
    {
      var binding := bindings[h];
      assert bindings[..h + 1][..h] == bindings[..h];
      if !IsRotationProperty(binding.propertyName) {
        continue;
      }
      if binding.path !in paths {
        paths := paths + [binding.path];
      }
      var key := CurveKey(binding.path, binding.propertyName);
      if key in curves {
        ok := false;
        DuplicateIsKept(bindings, h + 1);
        return;
      }
      curves := curves[key := binding];
    }
    assert bindings[..|bindings|] == bindings;
    ok := true;
  }

  /** Samples one curve per listed path. */
  method SampleCurves(ghost bindings: seq<CurveBinding>, paths: seq<string>, curves: map<string, CurveBinding>,
                      frameRate: real, timeLength: real, evaluate: (CurveBinding, real) -> real)
    returns (sampled: seq<CurveData>)
    requires frameRate != 0.0 && KeyCount(frameRate, timeLength) >= 0
    requires paths == RotationPaths(bindings) && curves == RotationCurves(bindings)
    ensures sampled == SampledCurves(bindings, frameRate, timeLength, evaluate)
  {
    sampled := [];
    for h := 0 to |paths|
      invariant sampled == SampledCurves(bindings, frameRate, timeLength, evaluate)[..h]
    {
      var c := SampleCurve(paths[h], curves, frameRate, timeLength, evaluate);
      sampled := sampled + [c];
    }
  }

  /** A clip's sampled rotation curves. */
  class AnimationData {
    var frameRate: real
    var timeLength: real
    var curveDatas: seq<CurveData>

    constructor ()
      ensures frameRate == 0.0 && timeLength == 0.0 && curveDatas == []
    {
      frameRate := 0.0;
      timeLength := 0.0;
      curveDatas := [];
    }

    /** The curve index of every bone. */
    method MatchCurves(bones: array<BoneData>) returns (curveIndex: array<int>)
      ensures fresh(curveIndex) && curveIndex.Length == bones.Length
      ensures forall h :: 0 <= h < bones.Length ==> curveIndex[h] == MatchCurve(bones[h], curveDatas)
    {
      curveIndex := new int[bones.Length];
      var h := 0;
      while h < curveIndex.Length
        invariant 0 <= h <= curveIndex.Length
        invariant forall k :: 0 <= k < h ==> curveIndex[k] == MatchCurve(bones[k], curveDatas)
      {
        curveIndex[h] := -1;
        var i := 0;
        while i < |curveDatas|
          invariant 0 <= i <= |curveDatas|
          invariant forall k :: 0 <= k < h ==> curveIndex[k] == MatchCurve(bones[k], curveDatas)
          invariant curveIndex[h] == -1
          invariant bones[h].boneIndex >= 0 ==>
                      FirstSuffixMatch(bones[h].fullPath, curveDatas, i) == MatchCurve(bones[h], curveDatas)
        {
          if bones[h].boneIndex < 0 {
            i := i + 1;
            continue;
          }
          if EndsWith(bones[h].fullPath, curveDatas[i].bindPath) {
            curveIndex[h] := i;
            break;
          }
          i := i + 1;
        }
        h := h + 1;
      }
    }

    /** Replaces the rotation of every driven bone by its curve's sample at `time`. */
    method PoseFrame(bones: array<BoneData>, curveIndex: array<int>, time: real)
      requires curveIndex.Length == bones.Length
      requires forall h :: 0 <= h < bones.Length ==> curveIndex[h] == MatchCurve(bones[h], curveDatas)
      requires CurvesReady(bones[..], curveDatas, timeLength)
      modifies bones
      ensures bones[..] == FramePose(old(bones[..]), curveDatas, time, timeLength)
    {
      ghost var before := bones[..];
      ghost var pose := FramePose(before, curveDatas, time, timeLength);
      var h := 0;
      while h < curveIndex.Length
        invariant 0 <= h <= curveIndex.Length
        invariant forall k :: 0 <= k < h ==> bones[k] == pose[k]
        invariant forall k :: h <= k < bones.Length ==> bones[k] == before[k]
        invariant forall k :: 0 <= k < bones.Length ==> curveIndex[k] == MatchCurve(before[k], curveDatas)
      {
        PoseBone(bones, curveIndex, h, time, before);
        h := h + 1;
      }
    }

    /** Gives bone `h` its curve's rotation at `time`, when it has a curve. */
    method PoseBone(bones: array<BoneData>, curveIndex: array<int>, h: int, time: real, ghost before: seq<BoneData>)
      requires |before| == bones.Length == curveIndex.Length && 0 <= h < bones.Length
      requires CurvesReady(before, curveDatas, timeLength) && bones[h] == before[h]
      requires forall k :: 0 <= k < bones.Length ==> curveIndex[k] == MatchCurve(before[k], curveDatas)
      modifies bones
      ensures bones[h] == FramePose(before, curveDatas, time, timeLength)[h]
      ensures forall k :: 0 <= k < bones.Length && k != h ==> bones[k] == old(bones[k])
    {
      if curveIndex[h] >= 0 {
        var q := GetSampledRotation(curveDatas[curveIndex[h]], time, timeLength);
        bones[h] := bones[h].(localRotation := q);
      }
    }

    /**
     * Bakes the clip for `modelData` at `fps` frames per second (the clip's
     * own rate when `fps` is negative), composing world matrices with or
     * without scale compensation as `ssc` says.
     */
    method CreateAnimationTexture(modelData: ModelData, fps: real, ssc: bool) returns (tex: Texture)
      requires EffectiveFps(fps, frameRate) > 0.0 && timeLength >= 0.0 && modelData.boneIndexNum >= 0
      requires ParentsPrecede(modelData.boneDatas)
      requires BoneIndicesBelow(modelData.boneDatas, modelData.boneIndexNum)
      requires CurvesReady(modelData.boneDatas, curveDatas, timeLength)
      ensures tex.width == KeyCount(EffectiveFps(fps, frameRate), timeLength)
      ensures tex.height == modelData.boneIndexNum * 3
      ensures |tex.pixels| == tex.width * tex.height == Times(tex.height, tex.width)
      ensures forall y, r, x :: 0 <= y < modelData.boneIndexNum && 0 <= r < 3 && 0 <= x < tex.width ==>
                tex.pixels[PixelIndex(tex.width, modelData.boneIndexNum, y, r, x)]
                == BakedPixel(modelData.boneDatas, curveDatas, EffectiveFps(fps, frameRate), timeLength, ssc, y, r, x)
    {
      var src := modelData.boneDatas;
      var n := modelData.boneIndexNum;
      var boneDatas := CloneBones(src);
      var curveIndex := MatchCurves(boneDatas);

      var f := fps;
      if f < 0.0 {
        f := frameRate;
      }
      assert f == EffectiveFps(fps, frameRate);
      KeyCountMeaning(f, timeLength);
      var keyNum := KeyCount(f, timeLength);
      var width, height := keyNum, n * 3;

      var pixels := new Color[width * height](_ => Color(0.0, 0.0, 0.0, 0.0));
      TimesIsProduct(height, width);
      FillBasis(pixels, width, height);
      assert height / 3 == n;

      BakeFrames(pixels, boneDatas, curveIndex, src, f, keyNum, n, ssc);
      tex := Texture(width, height, pixels[..]);
    }

    /**
     * The per-frame pass: for every column, poses the working bones at the
     * column's time and writes every skin bone's matrix rows into it.
     */
    method BakeFrames(pixels: array<Color>, boneDatas: array<BoneData>, curveIndex: array<int>,
                      src: seq<BoneData>, f: real, keyNum: int, n: int, ssc: bool)
      requires f > 0.0 && 0 <= keyNum && 0 <= n && pixels.Length == Times(n * 3, keyNum)
      requires boneDatas[..] == src && ParentsPrecede(src) && BoneIndicesBelow(src, n)
      requires CurvesReady(src, curveDatas, timeLength)
      requires curveIndex.Length == boneDatas.Length
      requires forall h :: 0 <= h < |src| ==> curveIndex[h] == MatchCurve(src[h], curveDatas)
      requires forall y, r, x :: 0 <= y < n && 0 <= r < 3 && 0 <= x < keyNum ==>
                 pixels[PixelIndex(keyNum, n, y, r, x)] == Basis(r)
      modifies pixels, boneDatas
      ensures forall y, r, x :: 0 <= y < n && 0 <= r < 3 && 0 <= x < keyNum ==>
                pixels[PixelIndex(keyNum, n, y, r, x)] == BakedPixel(src, curveDatas, f, timeLength, ssc, y, r, x)
    {
      var x := 0;
      while x < keyNum
        invariant 0 <= x <= keyNum
        invariant x == 0 ==> boneDatas[..] == src
        invariant x > 0 ==> boneDatas[..] == FramePose(src, curveDatas, FrameTime(x - 1, f), timeLength)
        invariant forall y, r, xx :: 0 <= y < n && 0 <= r < 3 && 0 <= xx < x ==>
                    pixels[PixelIndex(keyNum, n, y, r, xx)] == BakedPixel(src, curveDatas, f, timeLength, ssc, y, r, xx)
        invariant forall y, r, xx :: 0 <= y < n && 0 <= r < 3 && x <= xx < keyNum ==>
                    pixels[PixelIndex(keyNum, n, y, r, xx)] == Basis(r)
      {
        BakeColumn(pixels, boneDatas, curveIndex, src, f, keyNum, n, ssc, x);
        x := x + 1;
      }
    }

    /** One column of the per-frame pass: poses the bones at the column's time and writes them. */
    method BakeColumn(pixels: array<Color>, boneDatas: array<BoneData>, curveIndex: array<int>,
                      src: seq<BoneData>, f: real, keyNum: int, n: int, ssc: bool, x: int)
      requires f > 0.0 && 0 <= x < keyNum && 0 <= n && pixels.Length == Times(n * 3, keyNum)
      requires ParentsPrecede(src) && BoneIndicesBelow(src, n) && CurvesReady(src, curveDatas, timeLength)
      requires x == 0 ==> boneDatas[..] == src
      requires x > 0 ==> boneDatas[..] == FramePose(src, curveDatas, FrameTime(x - 1, f), timeLength)
      requires curveIndex.Length == |src|
      requires forall h :: 0 <= h < |src| ==> curveIndex[h] == MatchCurve(src[h], curveDatas)
      requires forall y, r :: 0 <= y < n && 0 <= r < 3 ==> pixels[PixelIndex(keyNum, n, y, r, x)] == Basis(r)
      modifies pixels, boneDatas
      ensures boneDatas[..] == FramePose(src, curveDatas, FrameTime(x, f), timeLength)
      ensures forall y, r :: 0 <= y < n && 0 <= r < 3 ==>
                pixels[PixelIndex(keyNum, n, y, r, x)] == BakedPixel(src, curveDatas, f, timeLength, ssc, y, r, x)
      ensures forall y, r, xx :: 0 <= y < n && 0 <= r < 3 && 0 <= xx < keyNum && xx != x ==>
                pixels[PixelIndex(keyNum, n, y, r, xx)] == old(pixels[PixelIndex(keyNum, n, y, r, xx)])
    {
      var time := x as real / f;
      FrameStep(boneDatas[..], src, curveIndex[..], f, x);
      PoseFrame(boneDatas, curveIndex, time);
      FramePoseShape(src, curveDatas, time, timeLength);
      WriteFrame(pixels, boneDatas, x, keyNum, n, ssc);
      ColumnIsBaked(boneDatas[..], src, f, ssc, x);
    }

    /** A column written from the bones posed at its time holds the baked pixels. */
    lemma ColumnIsBaked(pose: seq<BoneData>, src: seq<BoneData>, f: real, ssc: bool, x: int)
      requires f > 0.0 && CurvesReady(src, curveDatas, timeLength) && ParentsPrecede(src)
      requires pose == FramePose(src, curveDatas, FrameTime(x, f), timeLength) && ParentsPrecede(pose)
      ensures forall y, r :: 0 <= r < 3 ==>
                ColumnColor(pose, y, r, |pose|, ssc) == BakedPixel(src, curveDatas, f, timeLength, ssc, y, r, x)
    {
    }

    /**
     * Before column `x` is posed, the working bones are the original ones or
     * a posed copy of them, so posing them at the column's time gives the
     * original posed at that time, and the curve indices still apply.
     */
    lemma FrameStep(current: seq<BoneData>, src: seq<BoneData>, curveIndex: seq<int>, f: real, x: int)
      requires f > 0.0 && 0 <= x && CurvesReady(src, curveDatas, timeLength)
      requires x == 0 ==> current == src
      requires x > 0 ==> current == FramePose(src, curveDatas, FrameTime(x - 1, f), timeLength)
      requires |curveIndex| == |src| && forall h :: 0 <= h < |src| ==> curveIndex[h] == MatchCurve(src[h], curveDatas)
      ensures CurvesReady(current, curveDatas, timeLength) && |current| == |src|
      ensures forall h :: 0 <= h < |src| ==> curveIndex[h] == MatchCurve(current[h], curveDatas)
      ensures FramePose(current, curveDatas, FrameTime(x, f), timeLength)
           == FramePose(src, curveDatas, FrameTime(x, f), timeLength)
    {
      if x > 0 {
        FramePoseShape(src, curveDatas, FrameTime(x - 1, f), timeLength);
        FramePoseOverwrites(src, curveDatas, FrameTime(x - 1, f), FrameTime(x, f), timeLength);
      }
    }

    /**
     * Imports a clip: records its frame rate and length, files the rotation
     * curves by path and property, and samples one curve per bone path on the
     * clip's frame grid. A second curve under the same path and property makes
     * the dictionary reject the clip (`ok` false), after the rate and length
     * are recorded and before the curves are replaced.
     */
    method SetData(clipFrameRate: real, bindings: seq<CurveBinding>, evaluate: (CurveBinding, real) -> real)
      returns (ok: bool)
      requires clipFrameRate > 0.0
      requires KeyCount(clipFrameRate, LastKeyTime(bindings)) >= 0
      modifies this
      ensures frameRate == clipFrameRate && timeLength == LastKeyTime(bindings)
      ensures ok <==> !HasDuplicateKey(bindings)
      ensures ok ==> curveDatas == SampledCurves(bindings, clipFrameRate, LastKeyTime(bindings), evaluate)
      ensures !ok ==> curveDatas == old(curveDatas)
    {
      frameRate := clipFrameRate;
      timeLength := MeasureLength(bindings);
      var paths, curves;
      ok, paths, curves := FileRotationCurves(bindings);
      if !ok {
        return;
      }
      curveDatas := SampleCurves(bindings, paths, curves, frameRate, timeLength, evaluate);
    }
  }
}
