/**
 The five reports of `inspect`, one row per entity, as structured values.
 Byte sizes stay numbers and durations stay reals: their text formatting
 belongs to the table renderer.
 */
module Reports {
  import opened Wrappers
  import opened Document
  import opened Sizes
  import opened Slots
  import opened Timing

  datatype Category = Scenes | Meshes | Materials | Textures | Animations

  /** The fixed order in which `inspect` visits the categories. */
  const CategoryOrder: seq<Category> := [Scenes, Meshes, Materials, Textures, Animations]

  datatype Row =
    | SceneRow(index: nat, name: string, rootName: string)
    | MeshRow(index: nat, name: string, instances: nat, size: nat)
    | MaterialRow(index: nat, name: string, instances: nat, slots: seq<string>, alphaMode: AlphaMode)
    | TextureRow(
        index: nat, name: string, uri: string, slots: seq<string>,
        instances: nat, mimeType: string, size: nat)
    | AnimationRow(
        index: nat, name: string, channels: nat, samplers: nat,
        duration: Option<real>, size: nat)

  datatype Report = Report(head: seq<string>, rows: seq<Row>, warnings: seq<string>)

  const MeshWarning: string :=
    "Estimated mesh sizes do not include morph targets, and may overestimate"
    + " total sizes if multiple meshes are sharing the same accessors."

  const AnimationWarning: string :=
    "Estimated animation sizes may overestimate total sizes if multiple animations"
    + " are sharing the same accessors."

  /** The name of a scene's first root node, or "" when it has none. */
  function RootName(scene: Scene): string {
    if |scene.nodeNames| > 0 then scene.nodeNames[0] else ""
  }

  function ListScenes(doc: Doc): (rep: Report)
    ensures |rep.rows| == |doc.scenes| && rep.warnings == []
    ensures forall i :: 0 <= i < |rep.rows| ==>
      && rep.rows[i].SceneRow?
      && rep.rows[i].index == i
      && rep.rows[i].name == doc.scenes[i].name
      && (|doc.scenes[i].nodeNames| == 0 ==> rep.rows[i].rootName == "")
      && (|doc.scenes[i].nodeNames| > 0 ==> rep.rows[i].rootName == doc.scenes[i].nodeNames[0])
  {
    Report(
      ["index", "name", "rootName"],
      seq(|doc.scenes|, i requires 0 <= i < |doc.scenes| =>
        SceneRow(i, doc.scenes[i].name, RootName(doc.scenes[i]))),
      [])
  }

  /** The row of mesh number `i`; its size counts every accessor use. */
  function MeshRowOf(i: nat, mesh: Mesh): (row: Row)
    ensures row.MeshRow? && row.index == i && row.name == mesh.name
    ensures row.instances == InstanceCount(mesh.parents)
    ensures row.size == ByteSum(MeshAccessors(mesh.primitives))
  {
    MeshSizeIsSumOfEveryUse(mesh.primitives);
    MeshRow(i, mesh.name, InstanceCount(mesh.parents), MeshSize(mesh.primitives))
  }

  function ListMeshes(doc: Doc): (rep: Report)
    ensures |rep.rows| == |doc.meshes| && rep.warnings == [MeshWarning]
    ensures forall i :: 0 <= i < |rep.rows| ==>
      && rep.rows[i].MeshRow?
      && rep.rows[i].index == i
      && rep.rows[i].name == doc.meshes[i].name
      && rep.rows[i].instances == InstanceCount(doc.meshes[i].parents)
      && rep.rows[i].size == ByteSum(MeshAccessors(doc.meshes[i].primitives))
  {
    Report(
      ["index", "name", "instances", "size"],
      seq(|doc.meshes|, i requires 0 <= i < |doc.meshes| => MeshRowOf(i, doc.meshes[i])),
      [MeshWarning])
  }

  function ListMaterials(doc: Doc): (rep: Report)
    ensures |rep.rows| == |doc.materials| && rep.warnings == []
    ensures forall i :: 0 <= i < |rep.rows| ==>
      && rep.rows[i].MaterialRow?
      && rep.rows[i].index == i
      && rep.rows[i].name == doc.materials[i].name
      && rep.rows[i].instances == InstanceCount(doc.materials[i].parents)
      && rep.rows[i].slots == MaterialSlots(doc.links, doc.materials[i].id)
      && rep.rows[i].alphaMode == doc.materials[i].alphaMode
  {
    Report(
      ["index", "name", "instances", "textures", "alphaMode"],
      seq(|doc.materials|, i requires 0 <= i < |doc.materials| =>
        var m := doc.materials[i];
        MaterialRow(i, m.name, InstanceCount(m.parents), MaterialSlots(doc.links, m.id), m.alphaMode)),
      [])
  }

  function ListTextures(doc: Doc): (rep: Report)
    ensures |rep.rows| == |doc.textures| && rep.warnings == []
    ensures forall i :: 0 <= i < |rep.rows| ==>
      && rep.rows[i].TextureRow?
      && rep.rows[i].index == i
      && rep.rows[i].name == doc.textures[i].name
      && rep.rows[i].uri == doc.textures[i].uri
      && rep.rows[i].slots == TextureSlots(doc.links, doc.textures[i].id)
      && rep.rows[i].instances == InstanceCount(doc.textures[i].parents)
      && rep.rows[i].mimeType == doc.textures[i].mimeType
      && rep.rows[i].size == doc.textures[i].imageByteLength
  {
    Report(
      ["index", "name", "uri", "slots", "instances", "mimeType", "size"],
      seq(|doc.textures|, i requires 0 <= i < |doc.textures| =>
        var t := doc.textures[i];
        TextureRow(i, t.name, t.uri, TextureSlots(doc.links, t.id), InstanceCount(t.parents),
                   t.mimeType, t.imageByteLength)),
      [])
  }

  /** The row of animation number `i`; its size counts each distinct accessor once. */
  function AnimationRowOf(i: nat, anim: Animation): (row: Row)
    ensures row.AnimationRow? && row.index == i && row.name == anim.name
    ensures row.channels == anim.channelCount && row.samplers == |anim.samplers|
    ensures row.duration == Duration(anim.samplers)
    ensures row.duration.None? <==> |anim.samplers| == 0
    ensures row.size == AnimationSize(anim.samplers)
    ensures row.size <= PerSamplerBytes(anim.samplers)
  {
    AnimationSizeAtMostPerSampler(anim.samplers);
    AnimationRow(i, anim.name, anim.channelCount, |anim.samplers|, Duration(anim.samplers),
                 AnimationSize(anim.samplers))
  }

  function ListAnimations(doc: Doc): (rep: Report)
    ensures |rep.rows| == |doc.animations| && rep.warnings == [AnimationWarning]
    ensures forall i :: 0 <= i < |rep.rows| ==>
      && rep.rows[i].AnimationRow?
      && rep.rows[i].index == i
      && rep.rows[i].name == doc.animations[i].name
      && rep.rows[i].channels == doc.animations[i].channelCount
      && rep.rows[i].samplers == |doc.animations[i].samplers|
      && rep.rows[i].duration == Duration(doc.animations[i].samplers)
      && (rep.rows[i].duration.None? <==> |doc.animations[i].samplers| == 0)
      && rep.rows[i].size == AnimationSize(doc.animations[i].samplers)
      && rep.rows[i].size <= PerSamplerBytes(doc.animations[i].samplers)
  {
    Report(
      ["index", "name", "channels", "samplers", "duration", "size"],
      seq(|doc.animations|, i requires 0 <= i < |doc.animations| =>
        AnimationRowOf(i, doc.animations[i])),
      [AnimationWarning])
  }

  /** The report of one category. */
  function ListCategory(doc: Doc, c: Category): Report {
    match c
    case Scenes => ListScenes(doc)
    case Meshes => ListMeshes(doc)
    case Materials => ListMaterials(doc)
    case Textures => ListTextures(doc)
    case Animations => ListAnimations(doc)
  }
}
