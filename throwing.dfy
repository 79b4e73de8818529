/** The hand's throw-velocity sample buffers: timestamped velocity samples,
    the eviction of samples older than the expiry time, and their mean. */
module Throwing {
  import opened Common

  datatype VelocityTimePair = VelocityTimePair(time: real, velocity: Vec3)

  /** A sample taken at `time` is still usable at `now`. */
  predicate Young(p: VelocityTimePair, now: real, expire: real) {
    now - p.time < expire
  }

  /** The samples of s that are still young at `now`, in their original order. */
  function Fresh(s: seq<VelocityTimePair>, now: real, expire: real): (r: seq<VelocityTimePair>)
    ensures |r| <= |s|
    decreases s
  {
    if s == [] then []
    else (if Young(s[0], now, expire) then [s[0]] else []) + Fresh(s[1..], now, expire)
  }

  /** A sample survives eviction exactly when it is young: in particular every
      kept sample is younger than the expiry time, and one exactly at the
      expiry age is dropped. */
  lemma {:induction false} FreshExactly(s: seq<VelocityTimePair>, now: real, expire: real, p: VelocityTimePair)
    ensures p in Fresh(s, now, expire) <==> p in s && now - p.time < expire
    decreases s
  {
    if s != [] {
      FreshExactly(s[1..], now, expire, p);
      assert s == [s[0]] + s[1..];
    }
  }

  /** The timestamps of a buffer. */
  function Times(s: seq<VelocityTimePair>): (r: seq<real>)
    ensures |r| == |s|
  {
    seq(|s|, i requires 0 <= i < |s| => s[i].time)
  }

  /** Eviction depends only on timestamps, so two buffers sampled at the same
      instants stay aligned after eviction. */
  lemma {:induction false} FreshAligned(a: seq<VelocityTimePair>, b: seq<VelocityTimePair>, now: real, expire: real)
    requires Times(a) == Times(b)
    ensures Times(Fresh(a, now, expire)) == Times(Fresh(b, now, expire))
    decreases a
  {
    if a != [] {
      assert |b| == |a|;
      assert a[0].time == Times(a)[0] == Times(b)[0] == b[0].time;
      assert Times(a[1..]) == Times(b[1..]) by {
        forall i | 0 <= i < |a| - 1 ensures Times(a[1..])[i] == Times(b[1..])[i] {
          assert Times(a[1..])[i] == Times(a)[i + 1];
          assert Times(b[1..])[i] == Times(b)[i + 1];
        }
      }
      FreshAligned(a[1..], b[1..], now, expire);
      var ha := if Young(a[0], now, expire) then [a[0]] else [];
      var hb := if Young(b[0], now, expire) then [b[0]] else [];
      var ta := Fresh(a[1..], now, expire);
      var tb := Fresh(b[1..], now, expire);
      assert Times(ha + ta) == Times(ha) + Times(ta);
      assert Times(hb + tb) == Times(hb) + Times(tb);
    }
  }

  /** The backward loop of UpdateThrowing that removes every sample whose age
      has reached the expiry time. */
  method RemoveExpired(samples: seq<VelocityTimePair>, now: real, expire: real) returns (kept: seq<VelocityTimePair>)
    ensures kept == Fresh(samples, now, expire)
  {
    kept := samples;
    var i := |samples|;
    while i > 0
      invariant 0 <= i <= |samples|
      invariant kept == samples[..i] + Fresh(samples[i..], now, expire)
      decreases i
    {
      i := i - 1;
      assert samples[i..] == [samples[i]] + samples[i + 1..];
      assert samples[..i + 1] == samples[..i] + [samples[i]];
      if now - kept[i].time >= expire {
        kept := kept[..i] + kept[i + 1..];
      }
    }
  }

  /** The sum of the sampled velocities, accumulated front to back. */
  function VelocitySum(s: seq<VelocityTimePair>): Vec3
    decreases s
  {
    if s == [] then Zero else VelocitySum(s[..|s| - 1]).Plus(s[|s| - 1].velocity)
  }

  function MeanVelocity(s: seq<VelocityTimePair>): Vec3
    requires |s| > 0
  {
    VelocitySum(s).Scale(1.0 / |s| as real)
  }

  /** The foreach loop that adds the buffered velocities. */
  method SumVelocities(s: seq<VelocityTimePair>) returns (total: Vec3)
    ensures total == VelocitySum(s)
  {
    total := Zero;
    for i := 0 to |s|
      invariant total == VelocitySum(s[..i])
    {
      assert s[..i + 1][..i] == s[..i];
      total := total.Plus(s[i].velocity);
    }
    assert s[..|s|] == s;
  }

  /** n samples of one velocity add up to n times it. */
  lemma {:induction false} SumOfSteady(s: seq<VelocityTimePair>, v: Vec3)
    requires forall i :: 0 <= i < |s| ==> s[i].velocity == v
    ensures VelocitySum(s) == v.Scale(|s| as real)
    decreases s
  {
    if s != [] {
      SumOfSteady(s[..|s| - 1], v);
    }
  }

  /** A hand that moved at one steady velocity throws at exactly that velocity. */
  lemma MeanOfSteady(s: seq<VelocityTimePair>, v: Vec3)
    requires |s| > 0
    requires forall i :: 0 <= i < |s| ==> s[i].velocity == v
    ensures MeanVelocity(s) == v
  {
    SumOfSteady(s, v);
    var n := |s| as real;
    assert (1.0 / n) * (n * v.x) == v.x;
    assert (1.0 / n) * (n * v.y) == v.y;
    assert (1.0 / n) * (n * v.z) == v.z;
  }
}
