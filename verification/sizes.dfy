/**
 Byte-size estimates of the reporter. A mesh's size is a plain sum over its
 primitives' accessors, so an accessor used twice is counted twice; an
 animation's size is a sum over the SET of its samplers' accessors, so each
 accessor is counted once.
 */
module Sizes {
  import opened Wrappers
  import opened Seqs
  import opened Document

  /** Total byte length of the accessors, counting repetitions. */
  function ByteSum(accessors: seq<Accessor>): nat {
    if |accessors| == 0 then 0
    else accessors[0].byteLength + ByteSum(accessors[1..])
  }

  lemma {:induction false} ByteSumAppend(a: seq<Accessor>, b: seq<Accessor>)
    ensures ByteSum(a + b) == ByteSum(a) + ByteSum(b)
  {
    if |a| == 0 {
      assert a + b == b;
    } else {
      assert (a + b)[1..] == a[1..] + b;
      ByteSumAppend(a[1..], b);
    }
  }

  /** An accessor placed between two runs adds its bytes to theirs. */
  lemma ByteSumAround(pre: seq<Accessor>, x: Accessor, post: seq<Accessor>)
    ensures ByteSum(pre + [x] + post) == x.byteLength + ByteSum(pre + post)
  {
    assert pre + [x] + post == pre + ([x] + post);
    assert ([x] + post)[1..] == post;
    ByteSumAppend(pre, [x] + post);
    ByteSumAppend(pre, post);
  }

  /** Taking out the accessor at `j` takes out its bytes and one copy of it. */
  lemma ByteSumRemoveAt(b: seq<Accessor>, j: nat)
    requires j < |b|
    ensures ByteSum(b) == b[j].byteLength + ByteSum(b[..j] + b[j + 1..])
    ensures multiset(b[..j] + b[j + 1..]) == multiset(b) - multiset{b[j]}
  {
    SplitAt(b, j);
    ByteSumAround(b[..j], b[j], b[j + 1..]);
  }

  /** Reordering accessors does not change their total. */
  lemma {:induction false} ByteSumPermutation(a: seq<Accessor>, b: seq<Accessor>)
    requires multiset(a) == multiset(b)
    ensures ByteSum(a) == ByteSum(b)
    decreases |a|
  {
    if |a| == 0 {
      assert |b| == |multiset(b)| == 0;
    } else {
      var x, tail := a[0], a[1..];
      assert a == [x] + tail;
      assert x in multiset(b);
      var j := FirstIndex(b, x);
      var rest := b[..j] + b[j + 1..];
      ByteSumRemoveAt(b, j);
      assert multiset(tail) == multiset(a) - multiset{x};
      ByteSumPermutation(tail, rest);
      assert ByteSum(a) == x.byteLength + ByteSum(tail);
    }
  }

  /** Counting each accessor once never exceeds counting every use. */
  lemma {:induction false} DedupByteSumAtMost(s: seq<Accessor>)
    ensures ByteSum(Dedup(s)) <= ByteSum(s)
  {
    if |s| > 0 {
      var init := s[..|s| - 1];
      var last := s[|s| - 1];
      assert s == init + [last];
      DedupByteSumAtMost(init);
      ByteSumAppend(init, [last]);
      ByteSumAppend(Dedup(init), [last]);
    }
  }

  /** The de-duplicated total depends only on WHICH accessors occur. */
  lemma DedupByteSumSameElements(a: seq<Accessor>, b: seq<Accessor>)
    requires forall i :: 0 <= i < |a| ==> a[i] in b
    requires forall i :: 0 <= i < |b| ==> b[i] in a
    ensures ByteSum(Dedup(a)) == ByteSum(Dedup(b))
  {
    var da, db := Dedup(a), Dedup(b);
    forall x
      ensures x in da <==> x in db
    {
      if x in da {
        var k := FirstIndex(da, x);
        var m := FirstIndex(a, x);
        assert b[FirstIndex(b, x)] == x;
      }
      if x in db {
        var k := FirstIndex(db, x);
        var m := FirstIndex(b, x);
        assert a[FirstIndex(a, x)] == x;
      }
    }
    NoDupSameElementsPermutation(da, db);
    ByteSumPermutation(da, db);
  }

  // ---------------------------------------------------------------- meshes

  /** One primitive: every attribute's bytes, plus the index bytes when indices exist. */
  function PrimitiveSize(p: Primitive): nat {
    ByteSum(p.attributes) + (match p.indices case Some(ix) => ix.byteLength case None => 0)
  }

  /** The mesh size reported by `listMeshes`. */
  function MeshSize(primitives: seq<Primitive>): nat {
    if |primitives| == 0 then 0
    else PrimitiveSize(primitives[0]) + MeshSize(primitives[1..])
  }

  /** The accessors a primitive uses, attributes first, then the index accessor. */
  function PrimitiveAccessors(p: Primitive): seq<Accessor> {
    p.attributes + (match p.indices case Some(ix) => [ix] case None => [])
  }

  /** Every accessor use of a mesh's primitives, in order, repetitions kept. */
  function MeshAccessors(primitives: seq<Primitive>): seq<Accessor> {
    if |primitives| == 0 then []
    else PrimitiveAccessors(primitives[0]) + MeshAccessors(primitives[1..])
  }

  /** The mesh size is the plain, non-de-duplicated total of every accessor use. */
  lemma {:induction false} MeshSizeIsSumOfEveryUse(primitives: seq<Primitive>)
    ensures MeshSize(primitives) == ByteSum(MeshAccessors(primitives))
  {
    if |primitives| > 0 {
      var p := primitives[0];
      MeshSizeIsSumOfEveryUse(primitives[1..]);
      ByteSumAppend(PrimitiveAccessors(p), MeshAccessors(primitives[1..]));
      ByteSumAppend(p.attributes, match p.indices case Some(ix) => [ix] case None => []);
    }
  }

  /** The mesh size is additive over concatenated primitive lists. */
  lemma {:induction false} MeshSizeAppend(a: seq<Primitive>, b: seq<Primitive>)
    ensures MeshSize(a + b) == MeshSize(a) + MeshSize(b)
  {
    if |a| == 0 {
      assert a + b == b;
    } else {
      assert (a + b)[1..] == a[1..] + b;
      MeshSizeAppend(a[1..], b);
    }
  }

  /**
   The mesh size is at least the total over distinct accessors, and equal to
   it when no accessor is used twice.
   */
  lemma MeshSizeVersusDistinct(primitives: seq<Primitive>)
    ensures ByteSum(Dedup(MeshAccessors(primitives))) <= MeshSize(primitives)
    ensures NoDup(MeshAccessors(primitives)) ==>
      MeshSize(primitives) == ByteSum(Dedup(MeshAccessors(primitives)))
  {
    MeshSizeIsSumOfEveryUse(primitives);
    DedupByteSumAtMost(MeshAccessors(primitives));
    if NoDup(MeshAccessors(primitives)) {
      DedupOfNoDup(MeshAccessors(primitives));
    }
  }

  /** Two primitives sharing one index accessor: its bytes are counted twice. */
  lemma MeshSizeDoubleCountsSharedAccessor(shared: Accessor, a: Accessor, b: Accessor)
    ensures MeshSize([Primitive([a], Some(shared)), Primitive([b], Some(shared))])
         == a.byteLength + b.byteLength + 2 * shared.byteLength
  {
    var p0, p1 := Primitive([a], Some(shared)), Primitive([b], Some(shared));
    assert [a][1..] == [] && [b][1..] == [];
    assert ByteSum([a]) == a.byteLength && ByteSum([b]) == b.byteLength;
    assert PrimitiveSize(p0) == a.byteLength + shared.byteLength;
    assert PrimitiveSize(p1) == b.byteLength + shared.byteLength;
    assert MeshSize([p1]) == PrimitiveSize(p1) by {
      assert [p1][1..] == [];
    }
    assert [p0, p1][1..] == [p1];
  }

  // ------------------------------------------------------------ animations

  /** Every sampler's input, then its output, in sampler order: the insertion order of the accessor set. */
  function SamplerAccessors(samplers: seq<Sampler>): seq<Accessor> {
    if |samplers| == 0 then []
    else [samplers[0].input, samplers[0].output] + SamplerAccessors(samplers[1..])
  }

  /** The animation size reported by `listAnimations`: each distinct accessor counted once. */
  function AnimationSize(samplers: seq<Sampler>): nat {
    ByteSum(Dedup(SamplerAccessors(samplers)))
  }

  /** The per-sampler total, input bytes plus output bytes for every sampler. */
  function PerSamplerBytes(samplers: seq<Sampler>): nat {
    if |samplers| == 0 then 0
    else samplers[0].input.byteLength + samplers[0].output.byteLength
         + PerSamplerBytes(samplers[1..])
  }

  lemma {:induction false} PerSamplerBytesIsSumOfEveryUse(samplers: seq<Sampler>)
    ensures PerSamplerBytes(samplers) == ByteSum(SamplerAccessors(samplers))
  {
    if |samplers| > 0 {
      var s := samplers[0];
      PerSamplerBytesIsSumOfEveryUse(samplers[1..]);
      ByteSumAppend([s.input, s.output], SamplerAccessors(samplers[1..]));
      assert [s.input, s.output][1..] == [s.output];
    }
  }

  /**
   The animation size is at most the per-sampler sum of input plus output
   bytes, with equality when all those accessors are distinct.
   */
  lemma AnimationSizeAtMostPerSampler(samplers: seq<Sampler>)
    ensures AnimationSize(samplers) <= PerSamplerBytes(samplers)
    ensures NoDup(SamplerAccessors(samplers)) ==>
      AnimationSize(samplers) == PerSamplerBytes(samplers)
  {
    PerSamplerBytesIsSumOfEveryUse(samplers);
    DedupByteSumAtMost(SamplerAccessors(samplers));
    if NoDup(SamplerAccessors(samplers)) {
      DedupOfNoDup(SamplerAccessors(samplers));
    }
  }

  /** An accessor is used by the animation exactly when some sampler has it as input or output. */
  lemma {:induction false} SamplerAccessorsMembership(samplers: seq<Sampler>, x: Accessor)
    ensures x in SamplerAccessors(samplers) <==>
      exists k :: 0 <= k < |samplers| && (samplers[k].input == x || samplers[k].output == x)
  {
    if |samplers| > 0 {
      SamplerAccessorsMembership(samplers[1..], x);
      if x in SamplerAccessors(samplers[1..]) {
        var k :| 0 <= k < |samplers[1..]| && (samplers[1..][k].input == x || samplers[1..][k].output == x);
        assert samplers[k + 1] == samplers[1..][k];
      }
      if exists k :: 0 <= k < |samplers| && (samplers[k].input == x || samplers[k].output == x) {
        var k :| 0 <= k < |samplers| && (samplers[k].input == x || samplers[k].output == x);
        if k > 0 {
          assert samplers[1..][k - 1] == samplers[k];
        }
      }
    }
  }

  /** Reordering the samplers does not change the animation size. */
  lemma AnimationSizeIgnoresSamplerOrder(a: seq<Sampler>, b: seq<Sampler>)
    requires multiset(a) == multiset(b)
    ensures AnimationSize(a) == AnimationSize(b)
  {
    var sa, sb := SamplerAccessors(a), SamplerAccessors(b);
    forall i | 0 <= i < |sa|
      ensures sa[i] in sb
    {
      SamplerAccessorsMembership(a, sa[i]);
      var k :| 0 <= k < |a| && (a[k].input == sa[i] || a[k].output == sa[i]);
      assert a[k] in multiset(b);
      var m := FirstIndex(b, a[k]);
      SamplerAccessorsMembership(b, sa[i]);
    }
    forall i | 0 <= i < |sb|
      ensures sb[i] in sa
    {
      SamplerAccessorsMembership(b, sb[i]);
      var k :| 0 <= k < |b| && (b[k].input == sb[i] || b[k].output == sb[i]);
      assert b[k] in multiset(a);
      var m := FirstIndex(a, b[k]);
      SamplerAccessorsMembership(a, sb[i]);
    }
    DedupByteSumSameElements(sa, sb);
  }

  /** The accessors of two samplers, inputs before outputs, sampler by sampler. */
  lemma TwoSamplerAccessors(in1: Accessor, out1: Accessor, in2: Accessor, out2: Accessor)
    ensures SamplerAccessors([Sampler(in1, out1), Sampler(in2, out2)]) == [in1, out1, in2, out2]
  {
    var ss := [Sampler(in1, out1), Sampler(in2, out2)];
    assert ss[1..] == [Sampler(in2, out2)];
    assert [Sampler(in2, out2)][1..] == [];
    assert SamplerAccessors([Sampler(in2, out2)]) == [in2, out2];
  }

  lemma ByteSumThree(a: Accessor, b: Accessor, c: Accessor)
    ensures ByteSum([a, b, c]) == a.byteLength + b.byteLength + c.byteLength
  {
    assert [a, b, c][1..] == [b, c];
    assert [b, c][1..] == [c];
    assert [c][1..] == [];
    assert ByteSum([c]) == c.byteLength;
    assert ByteSum([b, c]) == b.byteLength + c.byteLength;
  }

  /** Two samplers sharing one input accessor: that accessor is counted once. */
  lemma AnimationSizeCountsSharedAccessorOnce(time: Accessor, v1: Accessor, v2: Accessor)
    requires time != v1 && time != v2 && v1 != v2
    ensures AnimationSize([Sampler(time, v1), Sampler(time, v2)])
         == time.byteLength + v1.byteLength + v2.byteLength
    ensures PerSamplerBytes([Sampler(time, v1), Sampler(time, v2)])
         == 2 * time.byteLength + v1.byteLength + v2.byteLength
  {
    TwoSamplerAccessors(time, v1, time, v2);
    DedupSharedFirst(time, v1, v2);
    ByteSumThree(time, v1, v2);
    var ss := [Sampler(time, v1), Sampler(time, v2)];
    assert ss[1..] == [Sampler(time, v2)];
    assert PerSamplerBytes([Sampler(time, v2)]) == time.byteLength + v2.byteLength by {
      assert [Sampler(time, v2)][1..] == [];
    }
  }
}
