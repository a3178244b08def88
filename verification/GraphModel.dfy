/** The declarations a render graph collects, and what they say about each resource. */
module GraphModel {

  const MAX_PASS_COUNT: nat := 4096
  const MAX_RESOURCE_COUNT: nat := 4096
  const INVALID_ID: nat := 0xFFFF_FFFF

  datatype Layout =
    | Undefined
    | ColorAttachmentOptimal
    | DepthStencilAttachmentOptimal
    | ShaderReadOnlyOptimal
    | TransferSrcOptimal
    | TransferDstOptimal
    | PresentSrc
    | OtherLayout(code: nat)

  // Pipeline stage and access masks are sets of their bits.
  datatype Stage =
    | TopOfPipe | VertexInput | VertexShader | EarlyFragmentTests | FragmentShader
    | LateFragmentTests | ColorAttachmentOutput | TransferStage | AllCommands

  datatype Access =
    | IndexRead | VertexAttributeRead | UniformRead | ShaderSampledRead | ShaderStorageRead
    | ColorAttachmentWrite | DepthStencilRead | DepthStencilWrite
    | TransferReadAccess | TransferWriteAccess | MemoryRead | MemoryWrite

  datatype ImageAccess = ColorAttachment | DepthAttachment | ImageShaderRead | ImageTransferWrite | ImageTransferRead

  datatype BufferAccess = VertexRead | IndexBufferRead | BufferShaderRead | BufferTransferWrite | BufferTransferRead

  // One end of a dependency: the stages and the accesses it covers.
  datatype Scope = Scope(stages: set<Stage>, accesses: set<Access>)

  function ImageScope(access: ImageAccess): Scope {
    match access
    case ColorAttachment => Scope({ColorAttachmentOutput}, {ColorAttachmentWrite})
    case DepthAttachment => Scope({EarlyFragmentTests, LateFragmentTests}, {DepthStencilRead, DepthStencilWrite})
    case ImageShaderRead => Scope({VertexShader, FragmentShader}, {ShaderSampledRead})
    case ImageTransferWrite => Scope({TransferStage}, {TransferWriteAccess})
    case ImageTransferRead => Scope({TransferStage}, {TransferReadAccess})
  }

  function ImageLayout(access: ImageAccess): Layout {
    match access
    case ColorAttachment => ColorAttachmentOptimal
    case DepthAttachment => DepthStencilAttachmentOptimal
    case ImageShaderRead => ShaderReadOnlyOptimal
    case ImageTransferWrite => TransferDstOptimal
    case ImageTransferRead => TransferSrcOptimal
  }

  function BufferScope(access: BufferAccess): Scope {
    match access
    case VertexRead => Scope({VertexInput}, {VertexAttributeRead})
    case IndexBufferRead => Scope({VertexInput}, {IndexRead})
    case BufferShaderRead => Scope({VertexShader, FragmentShader}, {UniformRead, ShaderStorageRead})
    case BufferTransferWrite => Scope({TransferStage}, {TransferWriteAccess})
    case BufferTransferRead => Scope({TransferStage}, {TransferReadAccess})
  }

  datatype LoadOp = LoadContents | ClearContents | DontCareContents

  // What happens to an attachment when a pass begins to write it; its contents are always stored.
  datatype Ops = Ops(load: LoadOp, clear: nat)

  const LOAD_OPS := Ops(LoadContents, 0)

  // The operations matter for attachment writes only.
  datatype Use<A> = Use(pass: nat, isRead: bool, access: A, ops: Ops)

  // An image has image uses only and a buffer has buffer uses only; only images are presented.
  datatype Resource =
    | Image(name: string, initialLayout: Layout, presented: bool, imageUses: seq<Use<ImageAccess>>)
    | Buffer(name: string, bufferUses: seq<Use<BufferAccess>>)

  datatype Pass = Pass(name: string, cullable: bool)

  datatype Graph = Graph(resources: seq<Resource>, passes: seq<Pass>)

  // What ordering and culling look at: who touches the resource, in declaration order.
  datatype Touch = Touch(pass: nat, isRead: bool)

  function TouchesOf<A>(uses: seq<Use<A>>): (t: seq<Touch>)
    ensures |t| == |uses|
    ensures forall i :: 0 <= i < |t| ==> t[i] == Touch(uses[i].pass, uses[i].isRead)
  {
    seq(|uses|, i requires 0 <= i < |uses| => Touch(uses[i].pass, uses[i].isRead))
  }

  function Touches(r: Resource): seq<Touch> {
    match r
    case Image(_, _, _, uses) => TouchesOf(uses)
    case Buffer(_, uses) => TouchesOf(uses)
  }

  predicate Writes(r: Resource, p: nat) {
    Touch(p, false) in Touches(r)
  }

  predicate Reads(r: Resource, p: nat) {
    Touch(p, true) in Touches(r)
  }

  predicate IsPresented(r: Resource) {
    r.Image? && r.presented
  }

  // Declarations are accepted only for passes and resources that exist.
  ghost predicate WellFormed(g: Graph) {
    && |g.passes| <= MAX_PASS_COUNT
    && |g.resources| <= MAX_RESOURCE_COUNT
    && forall r, i :: 0 <= r < |g.resources| && 0 <= i < |Touches(g.resources[r])| ==>
         Touches(g.resources[r])[i].pass < |g.passes|
  }

  // Every resource's uses are declared by strictly increasing pass ids.
  ghost predicate PassOrdered(g: Graph) {
    forall r, i, j :: 0 <= r < |g.resources| && 0 <= i < j < |Touches(g.resources[r])| ==>
      Touches(g.resources[r])[i].pass < Touches(g.resources[r])[j].pass
  }
}
