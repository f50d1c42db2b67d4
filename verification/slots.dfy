/**
 Usage counts and texture-slot lists. A material's slots are read from its
 outgoing links to textures and keep duplicates; a texture's slots are read
 from its incoming links, drop the generic name "texture" and are
 de-duplicated.
 */
module Slots {
  import opened Seqs
  import opened Document

  /** The link name that a texture's slot list leaves out. */
  const GenericSlot: string := "texture"

  /** Number of parents that are not the document root. */
  function InstanceCount(parents: seq<string>): (n: nat)
    ensures n <= |parents|
    ensures n == |parents| <==> RootType !in parents
    ensures n == 0 <==> forall i :: 0 <= i < |parents| ==> parents[i] == RootType
    ensures n == |parents| - multiset(parents)[RootType]
  {
    if |parents| == 0 then 0
    else
      assert parents == [parents[0]] + parents[1..];
      (if parents[0] != RootType then 1 else 0) + InstanceCount(parents[1..])
  }

  /** `link` leaves the material `m` and arrives at a texture. */
  predicate OutgoingTextureLink(link: Link, m: EntityId) {
    link.parent == m && link.childIsTexture
  }

  /** Names of the links from material `m` to a texture, in link order, duplicates kept. */
  function MaterialSlots(links: seq<Link>, m: EntityId): (r: seq<string>)
    ensures |r| <= |links|
    ensures forall k :: 0 <= k < |r| ==>
      exists i :: 0 <= i < |links| && OutgoingTextureLink(links[i], m) && links[i].name == r[k]
    ensures forall i :: 0 <= i < |links| && OutgoingTextureLink(links[i], m) ==> links[i].name in r
  {
    if |links| == 0 then []
    else
      var rest := MaterialSlots(links[1..], m);
      assert forall i :: 1 <= i < |links| ==> links[i] == links[1..][i - 1];
      if OutgoingTextureLink(links[0], m) then [links[0].name] + rest else rest
  }

  /** Material slots follow link order: the list of a concatenation is the concatenation of the lists. */
  lemma {:induction false} MaterialSlotsAppend(a: seq<Link>, b: seq<Link>, m: EntityId)
    ensures MaterialSlots(a + b, m) == MaterialSlots(a, m) + MaterialSlots(b, m)
  {
    if |a| == 0 {
      assert a + b == b;
    } else {
      assert (a + b)[1..] == a[1..] + b;
      MaterialSlotsAppend(a[1..], b, m);
    }
  }

  /** Two links with the same slot name put that name in the material's list twice. */
  lemma MaterialSlotsKeepDuplicates(links: seq<Link>, m: EntityId, i: nat, j: nat)
    requires i < j < |links|
    requires OutgoingTextureLink(links[i], m) && OutgoingTextureLink(links[j], m)
    requires links[i].name == links[j].name
    ensures multiset(MaterialSlots(links, m))[links[i].name] >= 2
  {
    var pre, post := links[..j], links[j..];
    assert links == pre + post;
    MaterialSlotsAppend(pre, post, m);
    assert pre[i] == links[i];
    assert links[i].name in MaterialSlots(pre, m);
    assert post[0] == links[j];
    assert MaterialSlots(post, m)[0] == links[j].name;
  }

  /** Names of the links arriving at texture `t`, in link order, with every "texture" removed. */
  function IncomingSlotNames(links: seq<Link>, t: EntityId): (r: seq<string>)
    ensures |r| <= |links|
    ensures GenericSlot !in r
    ensures forall k :: 0 <= k < |r| ==>
      exists i :: 0 <= i < |links| && links[i].child == t && links[i].name == r[k]
    ensures forall i :: 0 <= i < |links| && links[i].child == t && links[i].name != GenericSlot ==>
      links[i].name in r
  {
    if |links| == 0 then []
    else
      var rest := IncomingSlotNames(links[1..], t);
      assert forall i :: 1 <= i < |links| ==> links[i] == links[1..][i - 1];
      if links[0].child == t && links[0].name != GenericSlot then [links[0].name] + rest else rest
  }

  /** Incoming names keep link order: the names of concatenated link lists are the concatenated names. */
  lemma {:induction false} IncomingSlotNamesAppend(a: seq<Link>, b: seq<Link>, t: EntityId)
    ensures IncomingSlotNames(a + b, t) == IncomingSlotNames(a, t) + IncomingSlotNames(b, t)
  {
    if |a| == 0 {
      assert a + b == b;
    } else {
      assert (a + b)[0] == a[0];
      assert (a + b)[1..] == a[1..] + b;
      IncomingSlotNamesAppend(a[1..], b, t);
    }
  }

  /**
   The slot list of texture `t`: every name of an incoming link other than
   "texture", each once, in order of first occurrence.
   */
  function TextureSlots(links: seq<Link>, t: EntityId): (r: seq<string>)
    ensures NoDup(r)
    ensures GenericSlot !in r
    ensures forall k :: 0 <= k < |r| ==>
      exists i :: 0 <= i < |links| && links[i].child == t && links[i].name == r[k]
    ensures forall i :: 0 <= i < |links| && links[i].child == t && links[i].name != GenericSlot ==>
      links[i].name in r
  {
    Dedup(IncomingSlotNames(links, t))
  }

  /** Texture slots appear in the order in which their names first occur among the incoming links. */
  lemma TextureSlotsFirstOccurrenceOrder(links: seq<Link>, t: EntityId)
    ensures forall i, j :: 0 <= i < j < |TextureSlots(links, t)| ==>
      FirstIndex(IncomingSlotNames(links, t), TextureSlots(links, t)[i])
        < FirstIndex(IncomingSlotNames(links, t), TextureSlots(links, t)[j])
  {
    DedupKeepsFirstOccurrenceOrder(IncomingSlotNames(links, t));
  }

  /** Two identical material-to-texture links: the material lists the slot twice. */
  lemma DuplicateLinkMaterialSlots(m: EntityId, t: EntityId, name: string)
    ensures MaterialSlots([Link(m, t, true, name), Link(m, t, true, name)], m) == [name, name]
  {
    var l := Link(m, t, true, name);
    assert [l, l][1..] == [l];
    assert [l][1..] == [];
    assert MaterialSlots([l], m) == [name];
  }

  /** A link arriving twice gives its name twice among the incoming names. */
  lemma IncomingSlotNamesTwice(l: Link, t: EntityId)
    requires l.child == t && l.name != GenericSlot
    ensures IncomingSlotNames([l, l], t) == [l.name, l.name]
  {
    assert [l, l][1..] == [l];
    assert [l][1..] == [];
    assert IncomingSlotNames([l], t) == [l.name];
  }

  /** Two identical material-to-texture links: the texture lists the slot once. */
  lemma DuplicateLinkTextureSlots(m: EntityId, t: EntityId, name: string)
    requires name != GenericSlot
    ensures TextureSlots([Link(m, t, true, name), Link(m, t, true, name)], t) == [name]
  {
    IncomingSlotNamesTwice(Link(m, t, true, name), t);
    DedupTwice(name);
  }
}
