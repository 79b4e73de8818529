/** The hand's choice among the sphere-cast hits of its palm rays.  The hits
    are an input: each carries its distance, the grabDistancePriority of the
    grabbable it hit, the hit point and that grabbable. */
module ClosestHit {
  import opened Common

  datatype Hit<G> = Hit(distance: real, priority: real, point: Vec3, grabbable: G)

  /** Mathf.Lerp(1, 1.05, i / n): later rays weigh slightly more, which favours
      the middle rays that come first. */
  function Multi(i: nat, n: nat): real
    requires i < n
  {
    1.0 + 0.05 * ((i as real) / (n as real))
  }

  /** The weighted distance of hit i: distance times ray weight times priority. */
  function Weighted<G>(hits: seq<Hit<G>>, i: nat): real
    requires i < |hits|
  {
    hits[i].distance * (Multi(i, |hits|) * hits[i].priority)
  }

  /** The reference selection: the index kept after the first k hits when
      both sides of the comparison are weighted by priority, replacing the
      current choice only on a strictly smaller weighted distance. */
  function Chosen<G>(hits: seq<Hit<G>>, k: nat): (c: nat)
    requires 0 < |hits| && k <= |hits|
    ensures k == 0 || c < k
    decreases k
  {
    if k == 0 then 0
    else
      var c := Chosen(hits, k - 1);
      if c < |hits| && Weighted(hits, k - 1) < Weighted(hits, c) then k - 1 else c
  }

  /** The chosen hit among the first k is a minimal one, and the earliest of the minimal ones. */
  lemma {:induction false} ChosenMinimal<G>(hits: seq<Hit<G>>, k: nat)
    requires 0 < k <= |hits|
    ensures Chosen(hits, k) < k
    ensures forall j :: 0 <= j < k ==> Weighted(hits, Chosen(hits, k)) <= Weighted(hits, j)
    ensures forall j :: 0 <= j < Chosen(hits, k) ==> Weighted(hits, j) > Weighted(hits, Chosen(hits, k))
    decreases k
  {
    if k > 1 {
      ChosenMinimal(hits, k - 1);
    }
  }

  function Closest<G>(hits: seq<Hit<G>>): (c: nat)
    requires 0 < |hits|
    ensures c < |hits|
  {
    Chosen(hits, |hits|)
  }

  /** The sum of the offsets from the hand to every hit point. */
  function OffsetSum<G>(hits: seq<Hit<G>>, origin: Vec3): Vec3
    decreases hits
  {
    if hits == [] then Zero else OffsetSum(hits[..|hits| - 1], origin).Plus(hits[|hits| - 1].point.Minus(origin))
  }

  /** Hand.HandClosestHit over the hits that reached a grabbable: the mean
      direction from the hand to the hit points, and the index of the hit
      kept by the comparison as the source writes it, or the zero vector and
      no hit when nothing was hit. */
  method HandClosestHit<G>(hits: seq<Hit<G>>, origin: Vec3) returns (dir: Vec3, closest: Option<nat>)
    ensures hits == [] ==> dir == Zero && closest == None
    ensures hits != [] ==> closest == Some(ClosestAsWritten(hits))
    ensures hits != [] ==> dir == OffsetSum(hits, origin).Scale(1.0 / |hits| as real)
  {
    if |hits| == 0 {
      return Zero, None;
    }
    var closestHitIndex: nat := 0;
    dir := Zero;
    for i := 0 to |hits|
      invariant closestHitIndex == ChosenAsWritten(hits, i)
      invariant closestHitIndex < |hits|
      invariant dir == OffsetSum(hits[..i], origin)
    {
      if Weighted(hits, i) < RayWeighted(hits, closestHitIndex) {
        closestHitIndex := i;
      }
      assert hits[..i + 1][..i] == hits[..i];
      dir := dir.Plus(hits[i].point.Minus(origin));
    }
    assert hits[..|hits|] == hits;
    dir := dir.Scale(1.0 / |hits| as real);
    closest := Some(closestHitIndex);
  }

  /** The distance of hit i weighed by its ray weight only, as the source
      weighs the current best. */
  function RayWeighted<G>(hits: seq<Hit<G>>, i: nat): real
    requires i < |hits|
  {
    hits[i].distance * Multi(i, |hits|)
  }

  /** The index kept after the first k hits by the comparison as the source
      writes it: the candidate is weighed by its ray weight and its
      grabbable's priority, the current best by its ray weight only. */
  function ChosenAsWritten<G>(hits: seq<Hit<G>>, k: nat): (c: nat)
    requires 0 < |hits| && k <= |hits|
    ensures k == 0 || c < k
    decreases k
  {
    if k == 0 then 0
    else
      var c := ChosenAsWritten(hits, k - 1);
      if c < |hits| && Weighted(hits, k - 1) < RayWeighted(hits, c) then k - 1 else c
  }

  function ClosestAsWritten<G>(hits: seq<Hit<G>>): (c: nat)
    requires 0 < |hits|
    ensures c < |hits|
  {
    ChosenAsWritten(hits, |hits|)
  }

  /** What the comparison as written does promise: no hit after the kept one
      has a weighted distance below the kept hit's ray-weighted distance, and
      a kept hit other than the first replaced a current best it undercut. */
  lemma {:induction false} ChosenAsWrittenLaterNotCloser<G>(hits: seq<Hit<G>>, k: nat)
    requires 0 < k <= |hits|
    ensures forall j :: ChosenAsWritten(hits, k) < j < k ==> Weighted(hits, j) >= RayWeighted(hits, ChosenAsWritten(hits, k))
    ensures ChosenAsWritten(hits, k) > 0 ==>
      var c := ChosenAsWritten(hits, k);
      Weighted(hits, c) < RayWeighted(hits, ChosenAsWritten(hits, c))
    decreases k
  {
    if k > 1 {
      ChosenAsWrittenLaterNotCloser(hits, k - 1);
      var c := ChosenAsWritten(hits, k);
      if c == k - 1 {
        assert ChosenAsWritten(hits, c) == ChosenAsWritten(hits, k - 1);
      }
    }
  }

  /** A hit of priority 1 weighs the same under both comparisons. */
  lemma UnitWeighted<G>(hits: seq<Hit<G>>, i: nat)
    requires i < |hits| && hits[i].priority == 1.0
    ensures Weighted(hits, i) == RayWeighted(hits, i)
  {
    var m := Multi(i, |hits|);
    assert m * hits[i].priority == m;
  }

  /** When every grabbable keeps the default priority 1, the two comparisons
      agree, so the comparison as written picks the minimal hit. */
  lemma {:induction false} ChosenAsWrittenUnitPriority<G>(hits: seq<Hit<G>>, k: nat)
    requires 0 < |hits| && k <= |hits|
    requires forall i :: 0 <= i < |hits| ==> hits[i].priority == 1.0
    ensures ChosenAsWritten(hits, k) == Chosen(hits, k)
    decreases k
  {
    if k > 0 {
      ChosenAsWrittenUnitPriority(hits, k - 1);
      var c := Chosen(hits, k - 1);
      assert c < k - 1 || k - 1 == 0;
      UnitWeighted(hits, c);
      assert ChosenAsWritten(hits, k) == if Weighted(hits, k - 1) < RayWeighted(hits, c) then k - 1 else c;
      assert Chosen(hits, k) == if Weighted(hits, k - 1) < Weighted(hits, c) then k - 1 else c;
    }
  }

  /** Two hits at distances 1 and 1.5 with priorities 2 and 1: the second has
      the smaller weighted distance (1.5375 against 2), yet the comparison as
      written keeps the first. */
  lemma AsWrittenIgnoresCurrentPriority<G>(g: G)
    ensures var hits := [Hit(1.0, 2.0, Zero, g), Hit(1.5, 1.0, Zero, g)];
      ChosenAsWritten(hits, 2) == 0 && Weighted(hits, 1) < Weighted(hits, 0) && Closest(hits) == 1
  {
    var hits := [Hit(1.0, 2.0, Zero, g), Hit(1.5, 1.0, Zero, g)];
    assert Multi(0, 2) == 1.0;
    assert Multi(1, 2) == 1.025;
    assert Weighted(hits, 0) == 2.0;
    assert Weighted(hits, 1) == 1.5375;
    assert ChosenAsWritten(hits, 1) == 0;
    assert Chosen(hits, 1) == 0;
  }
}
