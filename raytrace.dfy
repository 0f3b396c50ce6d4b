/** Nearest-hit selection in `raytrace` (src/main.cpp). Each object's ray test is an
    input (the Intercept it reports for this ray); the lighting pass that colours a
    hit is the parameter `shade`, applied to the chosen object's index and hit point.

    The running best distance is a C++ int, so each chosen double distance is
    truncated before later objects are compared against it. */
module HitSelection {
  import opened Generic

  /** The loop state of raytrace: the running best distance (an int), the colour,
      the hit point and the index of the closest object chosen so far. */
  datatype Selection = Selection(distance: int, color: Color, point: Point, closest: Option<nat>)

  /** The state before any object is examined: INT_MAX, black, the origin, none. */
  const INITIAL := Selection(INT32_MAX, BLACK, ORIGIN, None)

  /** Every reported hit has a distance the int conversion can take. */
  predicate HitsConvertible(traces: seq<Intercept>) {
    forall i :: 0 <= i < |traces| && traces[i].intercepts ==> (INT32_MIN - 1) as real < traces[i].distance
  }

  /** Every reported hit lies ahead of the ray origin, as the sphere test ensures. */
  predicate HitsInFront(traces: seq<Intercept>) {
    forall i :: 0 <= i < |traces| && traces[i].intercepts ==> 0.0 <= traces[i].distance
  }

  /** Hits ahead of the ray origin, as the sphere test reports them, can always be
      converted to int. */
  lemma InFrontHitsConvertible(traces: seq<Intercept>)
    requires HitsInFront(traces)
    ensures HitsConvertible(traces)
  {
  }

  /** A hit that can beat the initial INT_MAX. */
  predicate Eligible(t: Intercept) {
    t.intercepts && t.distance < INT32_MAX as real
  }

  /** One iteration of the selection loop, examining object i. */
  function Step(s: Selection, i: nat, t: Intercept): Selection
    requires IsInt32(s.distance)
    requires t.intercepts ==> (INT32_MIN - 1) as real < t.distance
  {
    if t.intercepts && t.distance < s.distance as real then
      Selection(TruncToInt(t.distance), t.color, t.point, Some(i))
    else
      s
  }

  /** The loop state after examining every object of `traces`, in order. Either no
      object was chosen and the state is the initial one, or the chosen object is a
      hit and the state holds its colour, its hit point and its truncated distance. */
  function Select(traces: seq<Intercept>): (r: Selection)
    requires HitsConvertible(traces)
    ensures IsInt32(r.distance)
    ensures r.closest.None? ==> r == INITIAL
    ensures r.closest.Some? ==>
              var k := r.closest.value;
              k < |traces| && Eligible(traces[k]) &&
              r.distance == TruncToInt(traces[k].distance) &&
              r.color == traces[k].color && r.point == traces[k].point
    decreases |traces|
  {
    if traces == [] then INITIAL
    else
      var init := traces[..|traces| - 1];
      Step(Select(init), |init|, traces[|init|])
  }

  /** The colour raytrace returns: the shaded colour of the chosen hit, else the
      loop's colour (black). */
  function RayColor(traces: seq<Intercept>, shade: (nat, Point) -> Color): Color
    requires HitsConvertible(traces)
  {
    var s := Select(traces);
    if s.closest.Some? then shade(s.closest.value, s.point) else s.color
  }

  /** raytrace: scans the objects once, keeping the first hit whose distance is below
      the running (truncated) best, then shades the chosen hit. */
  method Raytrace(traces: seq<Intercept>, shade: (nat, Point) -> Color) returns (color: Color)
    requires HitsConvertible(traces)
    ensures color == RayColor(traces, shade)
    ensures (forall i :: 0 <= i < |traces| ==> !traces[i].intercepts) ==> color == BLACK
  {
    color := BLACK;
    var distance := INT32_MAX;
    var interceptPoint := ORIGIN;
    var intercepts := false;
    var closest: Option<nat> := None;
    var i := 0;
    while i < |traces|
      invariant 0 <= i <= |traces|
      invariant Select(traces[..i]) == Selection(distance, color, interceptPoint, closest)
      invariant intercepts == closest.Some?
    {
      assert traces[..i + 1][..i] == traces[..i];
      var intercept := traces[i];
      if intercept.intercepts && intercept.distance < distance as real {
        distance := TruncToInt(intercept.distance);
        color := intercept.color;
        interceptPoint := intercept.point;
        intercepts := true;
        closest := Some(i);
      }
      i := i + 1;
    }
    assert traces[..i] == traces;
    if intercepts {
      color := shade(closest.value, interceptPoint);
    }
    NoSelectionIffNoEligibleHit(traces);
  }

  /** No object is chosen exactly when no object reports a hit nearer than INT_MAX;
      in particular, with no hit at all raytrace returns black. */
  lemma {:induction false} NoSelectionIffNoEligibleHit(traces: seq<Intercept>)
    requires HitsConvertible(traces)
    ensures Select(traces).closest.None? <==> forall i :: 0 <= i < |traces| ==> !Eligible(traces[i])
    decreases |traces|
  {
    if traces != [] {
      var init := traces[..|traces| - 1];
      NoSelectionIffNoEligibleHit(init);
      assert forall i :: 0 <= i < |init| ==> init[i] == traces[i];
    }
  }

  /** With no hit at all, raytrace's colour is black. */
  lemma NoHitIsBlack(traces: seq<Intercept>, shade: (nat, Point) -> Color)
    requires forall i :: 0 <= i < |traces| ==> !traces[i].intercepts
    ensures HitsConvertible(traces) && RayColor(traces, shade) == BLACK
  {
    NoSelectionIffNoEligibleHit(traces);
  }

  /** Once object k is chosen, no later hit replaces it: every later hit's distance is
      at least the truncated distance of k, which is the final running best. */
  lemma {:induction false} LaterHitsDoNotReplace(traces: seq<Intercept>, k: nat)
    requires HitsConvertible(traces)
    requires Select(traces).closest == Some(k)
    ensures forall j :: k < j < |traces| && traces[j].intercepts ==>
              TruncToInt(traces[k].distance) as real <= traces[j].distance
    decreases |traces|
  {
    var n := |traces|;
    var init := traces[..n - 1];
    var s := Select(init);
    if k < n - 1 {
      assert s.closest == Some(k);
      LaterHitsDoNotReplace(init, k);
      assert forall j :: 0 <= j < n - 1 ==> init[j] == traces[j];
    }
  }

  /** The choice as the code makes it, stated without the loop: the first hit nearer
      than INT_MAX whose distance has the least whole part among all such hits. */
  predicate FirstNearestByWholeUnits(traces: seq<Intercept>, k: int) {
    0 <= k < |traces| && Eligible(traces[k]) &&
    (forall j :: 0 <= j < |traces| && Eligible(traces[j]) ==>
       traces[k].distance.Floor <= traces[j].distance.Floor) &&
    (forall j :: 0 <= j < k && Eligible(traces[j]) ==>
       traces[k].distance.Floor < traces[j].distance.Floor)
  }

  /** At most one object is the first nearest by whole units. */
  lemma FirstNearestUnique(traces: seq<Intercept>, a: int, b: int)
    requires FirstNearestByWholeUnits(traces, a) && FirstNearestByWholeUnits(traces, b)
    ensures a == b
  {
  }

  /** When every hit lies in front of the origin, raytrace chooses exactly the first
      hit whose distance has the least whole part; it chooses nothing exactly when no
      hit is nearer than INT_MAX. */
  lemma {:induction false} SelectIsFirstNearestByWholeUnits(traces: seq<Intercept>)
    requires HitsConvertible(traces) && HitsInFront(traces)
    ensures forall k :: Select(traces).closest == Some(k) <==> FirstNearestByWholeUnits(traces, k)
    ensures Select(traces).closest.None? <==> forall i :: 0 <= i < |traces| ==> !Eligible(traces[i])
    decreases |traces|
  {
    NoSelectionIffNoEligibleHit(traces);
    var r := Select(traces);
    if r.closest.Some? {
      SelectedIsFirstNearest(traces);
      forall k | FirstNearestByWholeUnits(traces, k)
        ensures r.closest == Some(k)
      {
        FirstNearestUnique(traces, k, r.closest.value);
      }
    }
  }

  /** The chosen object, if any, is the first nearest by whole units. */
  lemma {:induction false} SelectedIsFirstNearest(traces: seq<Intercept>)
    requires HitsConvertible(traces) && HitsInFront(traces)
    requires Select(traces).closest.Some?
    ensures FirstNearestByWholeUnits(traces, Select(traces).closest.value)
    decreases |traces|
  {
    var n := |traces|;
    var init := traces[..n - 1];
    assert forall j :: 0 <= j < n - 1 ==> init[j] == traces[j];
    var s := Select(init);
    var t := traces[n - 1];
    var r := Select(traces);
    if s.closest.None? {
      NoSelectionIffNoEligibleHit(init);
    } else {
      SelectedIsFirstNearest(init);
      var k0 := s.closest.value;
      if r.closest.value == n - 1 {
        // t beat the whole part of k0, so its own whole part is smaller still.
        assert t.distance < s.distance as real;
        assert t.distance.Floor < traces[k0].distance.Floor;
      } else {
        assert r == s;
      }
    }
  }

  /** Ties go to the earliest object: every earlier hit nearer than INT_MAX is
      strictly farther than the chosen one. */
  lemma EarlierHitsAreFarther(traces: seq<Intercept>, k: nat, j: nat)
    requires HitsConvertible(traces) && HitsInFront(traces)
    requires Select(traces).closest == Some(k)
    requires j < k && Eligible(traces[j])
    ensures traces[k].distance < traces[j].distance
  {
    SelectIsFirstNearestByWholeUnits(traces);
    assert FirstNearestByWholeUnits(traces, k);
  }

  /** Truncation lets a farther hit win: an object at 3.7 listed before one at 3.2
      is chosen, because 3.2 is not below the truncated best 3. */
  lemma TruncationKeepsFartherHit(a: Color, b: Color, p: Point, q: Point)
    ensures var traces := [Intercept(true, 3.7, a, p), Intercept(true, 3.2, b, q)];
            HitsConvertible(traces) &&
            Select(traces).closest == Some(0) && Select(traces).distance == 3 &&
            traces[1].distance < traces[0].distance
  {
    var traces := [Intercept(true, 3.7, a, p), Intercept(true, 3.2, b, q)];
    assert traces[..1] == [traces[0]];
    assert [traces[0]][..0] == [];
  }
}
