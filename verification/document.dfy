/**
 An immutable picture of the loaded glTF document, holding exactly what the
 `inspect` reporter reads from it. The document library that maintains
 these values is not part of this model: parent lists, the link graph and
 accessor byte lengths and ranges are given fields here.

 Object identity (`===`, membership in a `Set`) is modelled by value
 equality; materials, textures and accessors carry an `id` so that two
 distinct objects with equal contents stay distinct. Nothing compares the
 identity of scenes, meshes or animations, so they carry none.
 */
module Document {
  import opened Wrappers

  /** Identifies one property (mesh, material, texture, ...) of the document. */
  type EntityId = nat

  /** The `propertyType` of the document's root, which holds every top-level property. */
  const RootType: string := "Root"

  /** A typed view of a byte buffer; `minTime`/`maxTime` are its first component's range. */
  datatype Accessor = Accessor(id: nat, byteLength: nat, minTime: real, maxTime: real)

  /** The generator and version strings of the asset header. */
  datatype AssetInfo = AssetInfo(generator: string, version: string)

  /** A scene: its name and the names of its root nodes, in order. */
  datatype Scene = Scene(name: string, nodeNames: seq<string>)

  /** Vertex attribute accessors (in attribute order) and the optional index accessor. */
  datatype Primitive = Primitive(attributes: seq<Accessor>, indices: Option<Accessor>)

  /** A mesh; `parents` holds the `propertyType` of every parent in `listParents()`. */
  datatype Mesh = Mesh(name: string, parents: seq<string>, primitives: seq<Primitive>)

  datatype AlphaMode = Opaque | Mask | Blend

  datatype Material = Material(id: EntityId, name: string, parents: seq<string>, alphaMode: AlphaMode)

  /** A texture; `imageByteLength` is the byte length of its image payload. */
  datatype Texture = Texture(
    id: EntityId, name: string, uri: string, mimeType: string,
    parents: seq<string>, imageByteLength: nat)

  /** An animation sampler: keyframe times (`input`) and keyframe values (`output`). */
  datatype Sampler = Sampler(input: Accessor, output: Accessor)

  datatype Animation = Animation(name: string, channelCount: nat, samplers: seq<Sampler>)

  /** A named edge of the document graph; `childIsTexture` is `getChild() instanceof Texture`. */
  datatype Link = Link(parent: EntityId, child: EntityId, childIsTexture: bool, name: string)

  datatype Doc = Doc(
    asset: AssetInfo,
    extensionsUsed: seq<string>,
    extensionsRequired: seq<string>,
    scenes: seq<Scene>,
    meshes: seq<Mesh>,
    materials: seq<Material>,
    textures: seq<Texture>,
    animations: seq<Animation>,
    links: seq<Link>)
}
