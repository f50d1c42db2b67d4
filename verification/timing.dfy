/**
 Animation duration: the latest keyframe time over all samplers' inputs minus
 the earliest one. The reporter folds `Math.min` from +Infinity and
 `Math.max` from -Infinity; with no sampler the difference is not finite,
 which is modelled as `None`.
 */
module Timing {
  import opened Wrappers
  import opened Document

  function Min(x: real, y: real): real { if x <= y then x else y }

  function Max(x: real, y: real): real { if x >= y then x else y }

  /** The smallest input minimum, folding left to right; None for no samplers. */
  function MinInputTime(samplers: seq<Sampler>): (r: Option<real>)
    ensures r.Some? <==> |samplers| > 0
    ensures r.Some? ==> exists k :: 0 <= k < |samplers| && r.value == samplers[k].input.minTime
    ensures r.Some? ==> forall k :: 0 <= k < |samplers| ==> r.value <= samplers[k].input.minTime
  {
    if |samplers| == 0 then None
    else
      var init := samplers[..|samplers| - 1];
      var t := samplers[|samplers| - 1].input.minTime;
      assert forall k :: 0 <= k < |init| ==> init[k] == samplers[k];
      match MinInputTime(init)
      case None => Some(t)
      case Some(m) => Some(Min(m, t))
  }

  /** The largest input maximum, folding left to right; None for no samplers. */
  function MaxInputTime(samplers: seq<Sampler>): (r: Option<real>)
    ensures r.Some? <==> |samplers| > 0
    ensures r.Some? ==> exists k :: 0 <= k < |samplers| && r.value == samplers[k].input.maxTime
    ensures r.Some? ==> forall k :: 0 <= k < |samplers| ==> samplers[k].input.maxTime <= r.value
  {
    if |samplers| == 0 then None
    else
      var init := samplers[..|samplers| - 1];
      var t := samplers[|samplers| - 1].input.maxTime;
      assert forall k :: 0 <= k < |init| ==> init[k] == samplers[k];
      match MaxInputTime(init)
      case None => Some(t)
      case Some(m) => Some(Max(m, t))
  }

  /** The reported duration: latest input time minus earliest input time. */
  function Duration(samplers: seq<Sampler>): (r: Option<real>)
    ensures r.None? <==> |samplers| == 0
    ensures r.Some? ==> r.value == MaxInputTime(samplers).value - MinInputTime(samplers).value
  {
    match (MaxInputTime(samplers), MinInputTime(samplers))
    case (Some(hi), Some(lo)) => Some(hi - lo)
    case _ => None
  }

  /** Samplers whose inputs each have min <= max give a duration of at least zero. */
  lemma DurationNonNegative(samplers: seq<Sampler>)
    requires |samplers| > 0
    requires forall k :: 0 <= k < |samplers| ==> samplers[k].input.minTime <= samplers[k].input.maxTime
    ensures Duration(samplers).Some? && Duration(samplers).value >= 0.0
  {
    var lo := MinInputTime(samplers).value;
    var hi := MaxInputTime(samplers).value;
    assert lo <= samplers[0].input.minTime <= samplers[0].input.maxTime <= hi;
  }

  /** The duration does not depend on the order of the samplers. */
  lemma DurationIgnoresSamplerOrder(a: seq<Sampler>, b: seq<Sampler>)
    requires multiset(a) == multiset(b)
    ensures Duration(a) == Duration(b)
  {
    if |a| > 0 {
      assert |b| == |multiset(b)| == |multiset(a)| == |a|;
      forall k | 0 <= k < |a|
        ensures a[k] in b
      {
        assert a[k] in multiset(b);
      }
      forall k | 0 <= k < |b|
        ensures b[k] in a
      {
        assert b[k] in multiset(a);
      }
      var loA, loB := MinInputTime(a).value, MinInputTime(b).value;
      var hiA, hiB := MaxInputTime(a).value, MaxInputTime(b).value;
      var i :| 0 <= i < |a| && loA == a[i].input.minTime;
      var j :| 0 <= j < |b| && loB == b[j].input.minTime;
      assert loB <= loA by { assert a[i] in b; }
      assert loA <= loB by { assert b[j] in a; }
      var p :| 0 <= p < |a| && hiA == a[p].input.maxTime;
      var q :| 0 <= q < |b| && hiB == b[q].input.maxTime;
      assert hiA <= hiB by { assert a[p] in b; }
      assert hiB <= hiA by { assert b[q] in a; }
    }
  }

  /** Samplers with input ranges [0, 2] and [1, 4] last 4 seconds, in either order. */
  lemma DurationExample(in1: Accessor, in2: Accessor, out1: Accessor, out2: Accessor)
    requires in1.minTime == 0.0 && in1.maxTime == 2.0
    requires in2.minTime == 1.0 && in2.maxTime == 4.0
    ensures Duration([Sampler(in1, out1), Sampler(in2, out2)]) == Some(4.0)
    ensures Duration([Sampler(in2, out2), Sampler(in1, out1)]) == Some(4.0)
  {
    var s1, s2 := Sampler(in1, out1), Sampler(in2, out2);
    assert [s1, s2][..1] == [s1] && [s2, s1][..1] == [s2];
    assert [s1][..0] == [] && [s2][..0] == [];
  }
}
