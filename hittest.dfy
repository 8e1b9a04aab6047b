/**
  Closest-hit search over a scene (src/hittest.rs). A scene member is seen
  only through its hit test on a window (tMin, tMax) of ray parameters: it
  reports the first of its candidate parameters, in increasing order, that
  lies strictly inside the window. That is what a sphere does with the two
  roots of its quadratic (src/sphere.rs), trying the nearer root first; the
  floating-point computation of the roots is not part of this model.
 */
module HitTesting {
  import opened Errors

  predicate Increasing(roots: seq<real>) {
    forall i, j :: 0 <= i < j < |roots| ==> roots[i] < roots[j]
  }

  /** Candidate ray parameters in strictly increasing order (a sphere has none or two). */
  type Candidates = roots: seq<real> | Increasing(roots)

  /**
    A scene member: `id` stands for the geometry from which a hit's point and
    normal are computed, `roots` for the ray parameters at which the ray meets it.
   */
  datatype Surface = Surface(id: nat, roots: Candidates)

  /** A hit: the ray parameter and the member that produced it. */
  datatype HitRecord = HitRecord(t: real, surface: nat)

  /**
    The first candidate strictly inside (tMin, tMax). It is a candidate, it is
    inside the window, there is none exactly when no candidate is inside, and
    it is no larger than any candidate above tMin.
   */
  function FirstInside(roots: Candidates, tMin: real, tMax: real): (t: Option<real>)
    ensures t.Some? ==> tMin < t.value < tMax && t.value in roots
    ensures t.None? <==> forall i :: 0 <= i < |roots| ==> !(tMin < roots[i] < tMax)
    ensures t.Some? ==> forall i :: 0 <= i < |roots| && tMin < roots[i] ==> t.value <= roots[i]
  {
    if roots == [] then None
    else if tMin < roots[0] < tMax then Some(roots[0])
    else FirstInside(roots[1..], tMin, tMax)
  }

  /** A member's hit test on the window (tMin, tMax) (`HitTest for Sphere`). */
  function SurfaceHit(s: Surface, tMin: real, tMax: real): (h: Option<HitRecord>)
    ensures h.Some? ==> tMin < h.value.t < tMax && h.value.surface == s.id
  {
    match FirstInside(s.roots, tMin, tMax)
    case None => None
    case Some(t) => Some(HitRecord(t, s.id))
  }

  /**
    Narrowing the upper bound to c keeps a member's hit when it lies below c
    and loses it otherwise; no new hit appears.
   */
  lemma SurfaceHitNarrowed(s: Surface, tMin: real, tMax: real, c: real)
    requires c <= tMax
    ensures SurfaceHit(s, tMin, c) ==
      (var h := SurfaceHit(s, tMin, tMax); if h.Some? && h.value.t < c then h else None)
  {
    var wide := FirstInside(s.roots, tMin, tMax);
    var narrow := FirstInside(s.roots, tMin, c);
    if narrow.Some? {
      var i :| 0 <= i < |s.roots| && s.roots[i] == narrow.value;
      assert wide.Some?;
      var j :| 0 <= j < |s.roots| && s.roots[j] == wide.value;
      assert wide.value <= narrow.value && narrow.value <= wide.value;
    } else if wide.Some? {
      var j :| 0 <= j < |s.roots| && s.roots[j] == wide.value;
      assert !(wide.value < c);
    }
  }

  /** The nearer of the best hit so far and a new one; the earlier is kept on a tie. */
  function Nearer(best: Option<HitRecord>, h: Option<HitRecord>): Option<HitRecord> {
    if h.Some? && (best.None? || h.value.t < best.value.t) then h else best
  }

  /**
    The reference closest hit: every member tested on the whole window
    (tMin, tMax), the nearer hit kept, the earlier member on a tie.
   */
  function ClosestHit(scene: seq<Surface>, tMin: real, tMax: real): (best: Option<HitRecord>)
    ensures best.Some? ==> tMin < best.value.t < tMax
  {
    if scene == [] then None
    else Nearer(ClosestHit(scene[..|scene| - 1], tMin, tMax), SurfaceHit(scene[|scene| - 1], tMin, tMax))
  }

  /** The upper bound the scan holds: the best hit's parameter, or tMax while there is none. */
  function Bound(best: Option<HitRecord>, tMax: real): real {
    if best.Some? then best.value.t else tMax
  }

  /**
    One step of the scan: testing the next member on (tMin, bound so far)
    yields the reference closest hit of the longer prefix, and the bound does
    not increase.
   */
  lemma ScanStep(scene: seq<Surface>, i: nat, tMin: real, tMax: real)
    requires i < |scene|
    ensures var best := ClosestHit(scene[..i], tMin, tMax);
            var hit := SurfaceHit(scene[i], tMin, Bound(best, tMax));
            ClosestHit(scene[..i + 1], tMin, tMax) == (if hit.Some? then hit else best)
    ensures Bound(ClosestHit(scene[..i + 1], tMin, tMax), tMax) <= Bound(ClosestHit(scene[..i], tMin, tMax), tMax)
  {
    var best := ClosestHit(scene[..i], tMin, tMax);
    assert scene[..i + 1][..i] == scene[..i];
    SurfaceHitNarrowed(scene[i], tMin, tMax, Bound(best, tMax));
  }

  /** The upper bound each member is tested with: the bound left by the members before it. */
  ghost function Windows(scene: seq<Surface>, tMin: real, tMax: real): (w: seq<real>)
    ensures |w| == |scene|
  {
    seq(|scene|, i requires 0 <= i < |scene| => Bound(ClosestHit(scene[..i], tMin, tMax), tMax))
  }

  lemma WindowsExtend(scene: seq<Surface>, i: nat, tMin: real, tMax: real)
    requires i < |scene|
    ensures Windows(scene[..i + 1], tMin, tMax) ==
            Windows(scene[..i], tMin, tMax) + [Bound(ClosestHit(scene[..i], tMin, tMax), tMax)]
  {
    forall j | 0 <= j <= i
      ensures scene[..i + 1][..j] == scene[..j]
    {
    }
    forall j | 0 <= j < i
      ensures scene[..i][..j] == scene[..j]
    {
    }
  }

  lemma BoundStep(scene: seq<Surface>, i: nat, tMin: real, tMax: real)
    requires i < |scene|
    ensures Bound(ClosestHit(scene[..i + 1], tMin, tMax), tMax) <= Bound(ClosestHit(scene[..i], tMin, tMax), tMax)
  {
    ScanStep(scene, i, tMin, tMax);
  }

  /** Bounds along the scan never increase: a longer prefix leaves a bound no larger. */
  lemma {:induction false} BoundPrefixes(scene: seq<Surface>, i: nat, j: nat, tMin: real, tMax: real)
    requires i <= j <= |scene|
    ensures Bound(ClosestHit(scene[..j], tMin, tMax), tMax) <= Bound(ClosestHit(scene[..i], tMin, tMax), tMax)
    decreases j - i
  {
    if i < j {
      BoundPrefixes(scene, i, j - 1, tMin, tMax);
      BoundStep(scene, j - 1, tMin, tMax);
    }
  }

  /** The window's upper bound starts at tMax and never increases along the scan. */
  lemma WindowsNonIncreasing(scene: seq<Surface>, tMin: real, tMax: real)
    ensures var w := Windows(scene, tMin, tMax);
            (|w| > 0 ==> w[0] == tMax) && forall i, j :: 0 <= i <= j < |w| ==> w[j] <= w[i] <= tMax
  {
    if |scene| > 0 {
      assert scene[..0] == [];
    }
    forall i, j | 0 <= i <= j < |scene|
      ensures Bound(ClosestHit(scene[..j], tMin, tMax), tMax) <= Bound(ClosestHit(scene[..i], tMin, tMax), tMax)
    {
      BoundPrefixes(scene, i, j, tMin, tMax);
    }
  }

  /**
    `HitTest for Vec<T>`: members are tested in order on (tMin, closest so
    far), so each is tested with the bound its predecessors left
    (`windows`); the result is the reference closest hit.
   */
  method HitTest(scene: seq<Surface>, tMin: real, tMax: real) returns (hitRecord: Option<HitRecord>, ghost windows: seq<real>)
    ensures hitRecord == ClosestHit(scene, tMin, tMax)
    ensures windows == Windows(scene, tMin, tMax)
  {
    hitRecord := None;
    var closestSoFar := tMax;
    windows := [];
    for i := 0 to |scene|
      invariant hitRecord == ClosestHit(scene[..i], tMin, tMax)
      invariant closestSoFar == Bound(hitRecord, tMax)
      invariant windows == Windows(scene[..i], tMin, tMax)
    {
      WindowsExtend(scene, i, tMin, tMax);
      windows := windows + [closestSoFar];
      var hit := SurfaceHit(scene[i], tMin, closestSoFar);
      ScanStep(scene, i, tMin, tMax);
      if hit.Some? {
        closestSoFar := hit.value.t;
        hitRecord := hit;
      }
    }
    assert scene[..|scene|] == scene;
  }

  /** There is no hit exactly when every member misses on the whole window; in particular an empty scene has none. */
  lemma {:induction false} ClosestHitNoneIff(scene: seq<Surface>, tMin: real, tMax: real)
    ensures ClosestHit(scene, tMin, tMax).None? <==>
            forall i :: 0 <= i < |scene| ==> SurfaceHit(scene[i], tMin, tMax).None?
  {
    if scene != [] {
      var prefix := scene[..|scene| - 1];
      ClosestHitNoneIff(prefix, tMin, tMax);
      assert forall i :: 0 <= i < |prefix| ==> prefix[i] == scene[i];
    }
  }

  /** The closest hit is no farther than the hit of any member on the whole window. */
  lemma {:induction false} ClosestHitNearest(scene: seq<Surface>, tMin: real, tMax: real)
    ensures forall i :: 0 <= i < |scene| && SurfaceHit(scene[i], tMin, tMax).Some? ==>
              ClosestHit(scene, tMin, tMax).Some? &&
              ClosestHit(scene, tMin, tMax).value.t <= SurfaceHit(scene[i], tMin, tMax).value.t
  {
    if scene != [] {
      var prefix := scene[..|scene| - 1];
      ClosestHitNearest(prefix, tMin, tMax);
      assert forall i :: 0 <= i < |prefix| ==> prefix[i] == scene[i];
    }
  }

  /**
    The closest hit is the hit of some member, strictly inside the window, and
    of the earliest such member: every member before it misses or is strictly
    farther.
   */
  lemma {:induction false} ClosestHitFirstWins(scene: seq<Surface>, tMin: real, tMax: real)
    requires ClosestHit(scene, tMin, tMax).Some?
    ensures tMin < ClosestHit(scene, tMin, tMax).value.t < tMax
    ensures exists k :: 0 <= k < |scene| && SurfaceHit(scene[k], tMin, tMax) == ClosestHit(scene, tMin, tMax) &&
              forall j :: 0 <= j < k ==> SurfaceHit(scene[j], tMin, tMax).None? ||
                                         SurfaceHit(scene[j], tMin, tMax).value.t > ClosestHit(scene, tMin, tMax).value.t
  {
    var prefix := scene[..|scene| - 1];
    var last := |scene| - 1;
    var best := ClosestHit(prefix, tMin, tMax);
    var h := SurfaceHit(scene[last], tMin, tMax);
    assert forall i :: 0 <= i < |prefix| ==> prefix[i] == scene[i];
    if h.Some? && (best.None? || h.value.t < best.value.t) {
      ClosestHitNoneIff(prefix, tMin, tMax);
      ClosestHitNearest(prefix, tMin, tMax);
      assert SurfaceHit(scene[last], tMin, tMax) == ClosestHit(scene, tMin, tMax);
    } else {
      ClosestHitFirstWins(prefix, tMin, tMax);
      var k :| 0 <= k < |prefix| && SurfaceHit(prefix[k], tMin, tMax) == best &&
               forall j :: 0 <= j < k ==> SurfaceHit(prefix[j], tMin, tMax).None? ||
                                          SurfaceHit(prefix[j], tMin, tMax).value.t > best.value.t;
      assert SurfaceHit(scene[k], tMin, tMax) == ClosestHit(scene, tMin, tMax);
    }
  }

  /**
    The nearest surface along the ray: with no hit, no candidate of any member
    lies inside the window; with a hit, no candidate of any member lies
    between tMin and it.
   */
  lemma ClosestHitIsNearestCandidate(scene: seq<Surface>, tMin: real, tMax: real)
    ensures ClosestHit(scene, tMin, tMax).None? ==>
      forall i, k :: 0 <= i < |scene| && 0 <= k < |scene[i].roots| ==> !(tMin < scene[i].roots[k] < tMax)
    ensures ClosestHit(scene, tMin, tMax).Some? ==>
      forall i, k :: 0 <= i < |scene| && 0 <= k < |scene[i].roots| && tMin < scene[i].roots[k] ==>
        ClosestHit(scene, tMin, tMax).value.t <= scene[i].roots[k]
  {
    ClosestHitNoneIff(scene, tMin, tMax);
    ClosestHitNearest(scene, tMin, tMax);
    if ClosestHit(scene, tMin, tMax).Some? {
      ClosestHitFirstWins(scene, tMin, tMax);
    }
  }

  /** A scene holding every member of another finds a hit whenever that one does, and no farther. */
  lemma ClosestHitSuperset(scene: seq<Surface>, other: seq<Surface>, tMin: real, tMax: real)
    requires forall m :: 0 <= m < |other| ==> other[m] in scene
    ensures ClosestHit(other, tMin, tMax).Some? ==> ClosestHit(scene, tMin, tMax).Some?
    ensures Bound(ClosestHit(scene, tMin, tMax), tMax) <= Bound(ClosestHit(other, tMin, tMax), tMax)
  {
    var a, b := ClosestHit(scene, tMin, tMax), ClosestHit(other, tMin, tMax);
    if b.Some? {
      ClosestHitFirstWins(other, tMin, tMax);
      var k :| 0 <= k < |other| && SurfaceHit(other[k], tMin, tMax) == b;
      var i :| 0 <= i < |scene| && scene[i] == other[k];
      ClosestHitNearest(scene, tMin, tMax);
    } else if a.Some? {
      ClosestHitFirstWins(scene, tMin, tMax);
    }
  }

  /**
    Reordering the members changes neither whether there is a hit nor its
    parameter: only which of several equally near members is reported.
   */
  lemma ClosestHitOrderIndependent(scene: seq<Surface>, other: seq<Surface>, tMin: real, tMax: real)
    requires multiset(scene) == multiset(other)
    ensures ClosestHit(scene, tMin, tMax).None? <==> ClosestHit(other, tMin, tMax).None?
    ensures Bound(ClosestHit(scene, tMin, tMax), tMax) == Bound(ClosestHit(other, tMin, tMax), tMax)
  {
    forall m | 0 <= m < |other| ensures other[m] in scene {
      assert other[m] in multiset(scene);
    }
    forall i | 0 <= i < |scene| ensures scene[i] in other {
      assert scene[i] in multiset(other);
    }
    ClosestHitSuperset(scene, other, tMin, tMax);
    ClosestHitSuperset(other, scene, tMin, tMax);
  }
}
