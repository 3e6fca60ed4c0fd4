/** The renderer of src/main.cpp: the per-pixel ray cast with its nearest-hit
    selection, the raster sweep that emits one point per pixel, and the scene
    set-up that fills the global object list. */
module Raytracer {
  import opened Materials
  import opened Geometry

  const ScreenWidth: nat := 800
  const ScreenHeight: nat := 600

  /** The depth the selection starts from: no hit at or beyond it is picked. */
  const Sentinel: real := 99999.0

  /** The colour of a pixel whose ray selects no object. */
  const Sky: Color := Color(173, 216, 230)

  /** The intensity the global light is built with. */
  const LightIntensity: real := 1.5

  /** Every primary ray starts here. */
  const Origin: Vec3 := Vec3(0.0, 0.0, 0.0)

  /** The two materials of the scene. Aggregate initialisation with only the
      diffuse colour leaves the three real fields at zero. */
  const Rubber: Material := Material(Color(80, 0, 0), 0.0, 0.0, 0.0)
  const Ivory: Material := Material(Color(100, 100, 80), 0.0, 0.0, 0.0)

  // ----------------------------------------------------------------------
  // Nearest-hit selection

  /** The three locals of the selection loop: the depth so far, the index of
      the object hit (None for a null pointer) and its ray-test result. */
  datatype Selection = Selection(zBuffer: real, hitObject: Option<nat>, intersect: Intersect)

  /** The selection before any object is visited. */
  const Initial: Selection := Selection(Sentinel, None, NoHit)

  /** A result the selection may pick: a hit nearer than the sentinel. */
  predicate Candidate(i: Intersect)
  {
    i.isIntersecting && i.dist < Sentinel
  }

  /** One pass of the selection loop over the result `i` of object `k`. */
  function Step(s: Selection, k: nat, i: Intersect): Selection
  {
    if i.isIntersecting && i.dist < s.zBuffer then Selection(i.dist, Some(k), i) else s
  }

  /** The selection once the loop has visited every result of `hits`, in order.
      The object and the intersect recorded always belong together, and what
      is recorded is a candidate. */
  function Select(hits: seq<Intersect>): (s: Selection)
    ensures s.hitObject.None? ==> s == Initial
    ensures s.hitObject.Some? ==>
      var k := s.hitObject.value;
      k < |hits| && Candidate(hits[k]) && s.intersect == hits[k] && s.zBuffer == hits[k].dist
    decreases |hits|
  {
    if hits == [] then Initial
    else Step(Select(hits[..|hits| - 1]), |hits| - 1, hits[|hits| - 1])
  }

  /** Reference definition of the wanted answer: `k` is a candidate no
      candidate is nearer than, and every earlier candidate is farther. */
  predicate IsFirstNearest(hits: seq<Intersect>, k: nat)
  {
    k < |hits| && Candidate(hits[k]) &&
    (forall j :: 0 <= j < |hits| && Candidate(hits[j]) ==> hits[k].dist <= hits[j].dist) &&
    (forall j :: 0 <= j < k && Candidate(hits[j]) ==> hits[k].dist < hits[j].dist)
  }

  /** The selection is empty exactly when there is no candidate, and otherwise
      it is the first nearest candidate. */
  lemma {:induction false} SelectFindsFirstNearest(hits: seq<Intersect>)
    ensures Select(hits).hitObject.None? <==> forall j :: 0 <= j < |hits| ==> !Candidate(hits[j])
    ensures Select(hits).hitObject.Some? ==> IsFirstNearest(hits, Select(hits).hitObject.value)
    decreases |hits|
  {
    if hits != [] {
      var n := |hits| - 1;
      var prefix := hits[..n];
      SelectFindsFirstNearest(prefix);
      assert forall j :: 0 <= j < n ==> prefix[j] == hits[j];
    }
  }

  /** There is at most one first nearest candidate. */
  lemma FirstNearestIsUnique(hits: seq<Intersect>, k: nat, k': nat)
    requires IsFirstNearest(hits, k) && IsFirstNearest(hits, k')
    ensures k == k'
  {
  }

  /** Both directions: the loop records object `k` if and only if `k` is the
      first nearest candidate. */
  lemma SelectIsFirstNearest(hits: seq<Intersect>, k: nat)
    ensures Select(hits).hitObject == Some(k) <==> IsFirstNearest(hits, k)
  {
    SelectFindsFirstNearest(hits);
    if IsFirstNearest(hits, k) {
      var s := Select(hits);
      assert s.hitObject.Some?;
      FirstNearestIsUnique(hits, k, s.hitObject.value);
    }
  }

  /** Of two candidates at the same distance, the later one is never picked:
      the comparison is strict. */
  lemma TieGoesToFirst(hits: seq<Intersect>, i: nat, j: nat)
    requires i < j < |hits|
    requires Candidate(hits[i]) && Candidate(hits[j]) && hits[i].dist == hits[j].dist
    ensures Select(hits).hitObject != Some(j)
  {
    SelectFindsFirstNearest(hits);
  }

  /** Results that report no intersection never influence the selection: two
      result lists that agree wherever either reports a hit select the same. */
  lemma {:induction false} SelectIgnoresMisses(a: seq<Intersect>, b: seq<Intersect>)
    requires |a| == |b|
    requires forall j :: 0 <= j < |a| && (a[j].isIntersecting || b[j].isIntersecting) ==> a[j] == b[j]
    ensures Select(a) == Select(b)
    decreases |a|
  {
    if a != [] {
      var n := |a| - 1;
      SelectIgnoresMisses(a[..n], b[..n]);
    }
  }

  // ----------------------------------------------------------------------
  // Ray cast and shading

  /** `std::max(0, d)` of the light's cosine: never negative. */
  function DiffuseIntensity(normal: Vec3, lightDirection: Vec3): (f: real)
    ensures 0.0 <= f && Dot(normal, lightDirection) <= f
    ensures f == 0.0 || f == Dot(normal, lightDirection)
  {
    var d := Dot(normal, lightDirection);
    if 0.0 < d then d else 0.0
  }

  /** The ray-test results of the objects, in list order. */
  function Hits(objects: seq<Sphere>, origin: Vec3, direction: Vec3, rayIntersect: RayIntersectFn): seq<Intersect>
  {
    seq(|objects|, k requires 0 <= k < |objects| => rayIntersect(objects[k], origin, direction))
  }

  /** The colour cast for `objects` whose ray tests gave `hits`: the sky when
      nothing was recorded, else the recorded object's diffuse colour scaled
      by the light's intensity and by the clamped cosine at the recorded hit. */
  function Shade(objects: seq<Sphere>, hits: seq<Intersect>, ctx: Context): Color
    requires |hits| == |objects|
  {
    var s := Select(hits);
    if !s.intersect.isIntersecting then Sky
    else
      var mat := objects[s.hitObject.value].material;
      ctx.scale(ctx.scale(mat.diffuse, ctx.light.intensity),
                DiffuseIntensity(s.intersect.normal, ctx.light.position))
  }

  /** With no candidate among the results, the cast gives the sky colour. */
  lemma ShadeOfMiss(objects: seq<Sphere>, hits: seq<Intersect>, ctx: Context)
    requires |hits| == |objects|
    requires forall j :: 0 <= j < |hits| ==> !Candidate(hits[j])
    ensures Shade(objects, hits, ctx) == Sky
  {
    SelectFindsFirstNearest(hits);
  }

  /** With a candidate, the cast shades the first nearest one, with its own
      material and its own normal. */
  lemma ShadeOfNearest(objects: seq<Sphere>, hits: seq<Intersect>, ctx: Context, k: nat)
    requires |hits| == |objects|
    requires IsFirstNearest(hits, k)
    ensures Shade(objects, hits, ctx) ==
      ctx.scale(ctx.scale(objects[k].material.diffuse, ctx.light.intensity),
                DiffuseIntensity(hits[k].normal, ctx.light.position))
  {
    SelectIsFirstNearest(hits, k);
  }

  /** castRay: visit every object in list order, keep the strictly nearest
      hit below the sentinel, then shade it or return the sky. */
  method CastRay(objects: seq<Sphere>, rayOrigin: Vec3, rayDirection: Vec3, ctx: Context)
    returns (color: Color)
    ensures color == Shade(objects, Hits(objects, rayOrigin, rayDirection, ctx.rayIntersect), ctx)
    ensures (forall j :: 0 <= j < |objects| ==> !Candidate(ctx.rayIntersect(objects[j], rayOrigin, rayDirection)))
            ==> color == Sky
  {
    ghost var hits := Hits(objects, rayOrigin, rayDirection, ctx.rayIntersect);
    var zBuffer := Sentinel;
    var hitObject: Option<nat> := None;
    var intersect := NoHit;

    for k := 0 to |objects|
      invariant Selection(zBuffer, hitObject, intersect) == Select(hits[..k])
    {
      var i := ctx.rayIntersect(objects[k], rayOrigin, rayDirection);
      assert hits[..k + 1][..k] == hits[..k];
      if i.isIntersecting && i.dist < zBuffer {
        zBuffer := i.dist;
        hitObject := Some(k);
        intersect := i;
      }
    }
    assert hits[..|objects|] == hits;

    if (forall j :: 0 <= j < |objects| ==> !Candidate(ctx.rayIntersect(objects[j], rayOrigin, rayDirection))) {
      ShadeOfMiss(objects, hits, ctx);
    }
    if !intersect.isIntersecting {
      return Sky;
    }

    var diffuseLightIntensity := DiffuseIntensity(intersect.normal, ctx.light.position);
    var mat := objects[hitObject.value].material;
    var diffuseLight := ctx.scale(ctx.scale(mat.diffuse, ctx.light.intensity), diffuseLightIntensity);
    color := diffuseLight;
  }

  // ----------------------------------------------------------------------
  // Raster sweep

  /** One emitted point: pixel coordinates and colour. */
  datatype Point = Point(x: int, y: int, color: Color)

  /** The colour of pixel (x, y); `rayDirection` stands for the screen-space
      mapping of the pixel to a unit direction. */
  function PixelColor(objects: seq<Sphere>, ctx: Context, rayDirection: (int, int) -> Vec3, x: int, y: int): Color
  {
    var direction := rayDirection(x, y);
    Shade(objects, Hits(objects, Origin, direction, ctx.rayIntersect), ctx)
  }

  /** The points one frame emits, in emission order. */
  function Frame(objects: seq<Sphere>, ctx: Context, rayDirection: (int, int) -> Vec3): seq<Point>
  {
    seq(ScreenWidth * ScreenHeight, i requires 0 <= i < ScreenWidth * ScreenHeight =>
      Point(i % ScreenWidth, i / ScreenWidth,
            PixelColor(objects, ctx, rayDirection, i % ScreenWidth, i / ScreenWidth)))
  }

  /** Every pixel of the grid is emitted, at position y * width + x, with its
      own colour. */
  lemma FrameAt(objects: seq<Sphere>, ctx: Context, rayDirection: (int, int) -> Vec3, x: int, y: int)
    requires 0 <= x < ScreenWidth && 0 <= y < ScreenHeight
    ensures y * ScreenWidth + x < |Frame(objects, ctx, rayDirection)|
    ensures Frame(objects, ctx, rayDirection)[y * ScreenWidth + x] ==
            Point(x, y, PixelColor(objects, ctx, rayDirection, x, y))
  {
    var i := y * ScreenWidth + x;
    assert i / ScreenWidth == y && i % ScreenWidth == x;
  }

  /** Every emitted point lies in the grid, and the points come in strictly
      increasing row-major order, so no pixel is emitted twice. */
  lemma FrameIsRowMajor(objects: seq<Sphere>, ctx: Context, rayDirection: (int, int) -> Vec3)
    ensures var frame := Frame(objects, ctx, rayDirection);
      |frame| == ScreenWidth * ScreenHeight &&
      (forall i :: 0 <= i < |frame| ==>
        0 <= frame[i].x < ScreenWidth && 0 <= frame[i].y < ScreenHeight) &&
      (forall i, j :: 0 <= i < j < |frame| ==>
        frame[i].y < frame[j].y || (frame[i].y == frame[j].y && frame[i].x < frame[j].x))
  {
  }

  // ----------------------------------------------------------------------
  // The program's global state

  /** The globals the renderer works on: the object list and, in place of the
      display, the trace of points emitted so far. */
  class Renderer {
    var objects: seq<Sphere>
    var points: seq<Point>

    constructor ()
      ensures objects == [] && points == []
    {
      objects := [];
      points := [];
    }

    /** setUp: append the rubber sphere, then the ivory sphere. */
    method SetUp()
      modifies this
      ensures objects == old(objects) + [Sphere(Vec3(0.0, 0.0, -8.0), 1.0, Rubber),
                                         Sphere(Vec3(-1.0, 0.0, -4.0), 1.0, Ivory)]
      ensures points == old(points)
    {
      objects := objects + [Sphere(Vec3(0.0, 0.0, -8.0), 1.0, Rubber)];
      objects := objects + [Sphere(Vec3(-1.0, 0.0, -4.0), 1.0, Ivory)];
    }

    /** render: sweep the grid row by row and emit each pixel's cast colour. */
    method Render(ctx: Context, rayDirection: (int, int) -> Vec3)
      requires ctx.light.intensity == LightIntensity
      modifies this`points
      ensures points == old(points) + Frame(objects, ctx, rayDirection)
    {
      ghost var frame := Frame(objects, ctx, rayDirection);
      for y := 0 to ScreenHeight
        invariant points == old(points) + frame[..y * ScreenWidth]
      {
        for x := 0 to ScreenWidth
          invariant points == old(points) + frame[..y * ScreenWidth + x]
        {
          var pixelColor := CastRay(objects, Origin, rayDirection(x, y), ctx);
          FrameAt(objects, ctx, rayDirection, x, y);
          assert frame[..y * ScreenWidth + x + 1] == frame[..y * ScreenWidth + x] + [frame[y * ScreenWidth + x]];
          points := points + [Point(x, y, pixelColor)];
        }
      }
      assert frame[..ScreenHeight * ScreenWidth] == frame;
    }
  }
}
