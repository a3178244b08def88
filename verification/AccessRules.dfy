/** The access tables against the rules of the Vulkan 1.3 specification: which stages support which accesses
    (section 7.1.3) and which accesses a layout permits (section 12.4). */
module AccessRules {
  import opened GraphModel

  predicate IsShader(stage: Stage) {
    stage == VertexShader || stage == FragmentShader
  }

  predicate Supports(stage: Stage, access: Access) {
    match access
    case IndexRead => stage == VertexInput
    case VertexAttributeRead => stage == VertexInput
    case UniformRead => IsShader(stage)
    case ShaderSampledRead => IsShader(stage)
    case ShaderStorageRead => IsShader(stage)
    case ColorAttachmentWrite => stage == ColorAttachmentOutput
    case DepthStencilRead => stage == EarlyFragmentTests || stage == LateFragmentTests
    case DepthStencilWrite => stage == EarlyFragmentTests || stage == LateFragmentTests
    case TransferReadAccess => stage == TransferStage
    case TransferWriteAccess => stage == TransferStage
    case MemoryRead => true
    case MemoryWrite => true
  }

  predicate Permits(layout: Layout, access: Access) {
    match layout
    case ColorAttachmentOptimal => access == ColorAttachmentWrite
    case DepthStencilAttachmentOptimal => access == DepthStencilRead || access == DepthStencilWrite
    case ShaderReadOnlyOptimal => access == ShaderSampledRead
    case TransferSrcOptimal => access == TransferReadAccess
    case TransferDstOptimal => access == TransferWriteAccess
    case _ => false
  }

  predicate IsWrite(access: Access) {
    access == ColorAttachmentWrite || access == DepthStencilWrite || access == TransferWriteAccess || access == MemoryWrite
  }

  // A scope covers the stages that support its accesses, all of them and no others.
  ghost predicate WellSupported(scope: Scope) {
    && scope.accesses != {}
    && forall stage :: stage in scope.stages <==> exists access :: access in scope.accesses && Supports(stage, access)
  }

  /** The scope of an image use covers exactly what its layout permits, in every stage where that can happen,
      and writes exactly for attachments and transfer destinations. */
  lemma ImageScopesFollowRules(access: ImageAccess)
    ensures WellSupported(ImageScope(access))
    ensures forall a :: a in ImageScope(access).accesses <==> Permits(ImageLayout(access), a)
    ensures (exists a :: a in ImageScope(access).accesses && IsWrite(a)) <==>
      access == ColorAttachment || access == DepthAttachment || access == ImageTransferWrite
    ensures access == ColorAttachment ==> ImageLayout(access) == ColorAttachmentOptimal
    ensures access == DepthAttachment ==> ImageLayout(access) == DepthStencilAttachmentOptimal
    ensures access == ImageShaderRead ==> ImageLayout(access) == ShaderReadOnlyOptimal
  {
    var scope := ImageScope(access);
    match access {
      case ColorAttachment => assert Supports(ColorAttachmentOutput, ColorAttachmentWrite);
      case DepthAttachment =>
        assert Supports(EarlyFragmentTests, DepthStencilRead) && Supports(LateFragmentTests, DepthStencilRead);
        assert IsWrite(DepthStencilWrite);
      case ImageShaderRead => assert Supports(VertexShader, ShaderSampledRead) && Supports(FragmentShader, ShaderSampledRead);
      case ImageTransferWrite => assert Supports(TransferStage, TransferWriteAccess);
      case ImageTransferRead => assert Supports(TransferStage, TransferReadAccess);
    }
  }

  /** The scope of a buffer use is supported in the same way, and writes exactly for transfer destinations. */
  lemma BufferScopesFollowRules(access: BufferAccess)
    ensures WellSupported(BufferScope(access))
    ensures (exists a :: a in BufferScope(access).accesses && IsWrite(a)) <==> access == BufferTransferWrite
    ensures VertexAttributeRead in BufferScope(access).accesses <==> access == VertexRead
    ensures IndexRead in BufferScope(access).accesses <==> access == IndexBufferRead
    ensures UniformRead in BufferScope(access).accesses <==> access == BufferShaderRead
    ensures ShaderStorageRead in BufferScope(access).accesses <==> access == BufferShaderRead
    ensures TransferReadAccess in BufferScope(access).accesses <==> access == BufferTransferRead
  {
    match access {
      case VertexRead => assert Supports(VertexInput, VertexAttributeRead);
      case IndexBufferRead => assert Supports(VertexInput, IndexRead);
      case BufferShaderRead => assert Supports(VertexShader, UniformRead) && Supports(FragmentShader, UniformRead);
      case BufferTransferWrite => assert Supports(TransferStage, TransferWriteAccess);
      case BufferTransferRead => assert Supports(TransferStage, TransferReadAccess);
    }
  }
}
