/**
 * The memory layout planner: where the secure payload's paged part goes
 * (grown down from the top of the trusted reserved window), and where
 * copy_ns_images puts the kernel, the relocated DTB and the root
 * filesystem. All of it is uint32_t arithmetic on the platform constants
 * and on the sizes the downloads return.
 */
module Layout {
  import opened Uint32
  import opened Halting

  /**
   * The platform memory map: DRAM_START, DTB_MAX_SIZE, TZ_RES_MEM_START and
   * TZ_RES_MEM_SIZE come from the build's platform configuration.
   */
  datatype Platform = Platform(
    dramStart: uint32,
    dtbMaxSize: uint32,
    tzResMemStart: uint32,
    tzResMemSize: uint32)

  /** The kernel is loaded 32 MiB above the start of RAM. */
  const KERNEL_OFFSET: uint32 := 32 * 1024 * 1024
  /** The relocated DTB sits 96 MiB above the page-rounded end of the kernel. */
  const DTB_GAP: uint32 := 96 * 1024 * 1024

  /** `(size_t)TZ_RES_MEM_START + TZ_RES_MEM_SIZE`, the top of the reserved window. */
  function TzResMemEnd(p: Platform): (r: uint32)
    ensures p.tzResMemStart + p.tzResMemSize < TWO_32 ==> r == p.tzResMemStart + p.tzResMemSize
    ensures p.tzResMemStart + p.tzResMemSize >= TWO_32 ==> r == p.tzResMemStart + p.tzResMemSize - TWO_32
  {
    Add32(p.tzResMemStart, p.tzResMemSize)
  }

  /**
   * The size of the paged part: what is left of the blob body (the bytes
   * after the header) once the `initSize` bytes of the init image are taken.
   * Nothing checks that `initSize` fits: when it does not, the unsigned
   * subtraction wraps to a size larger than the whole body.
   */
  function PagedPartSize(bodyLen: uint32, initSize: uint32): (r: uint32)
    ensures initSize <= bodyLen ==> initSize + r == bodyLen
    ensures bodyLen < initSize ==> bodyLen < r
  {
    Sub32(bodyLen, initSize)
  }

  /**
   * Where the paged part goes: its end is the top of the reserved window
   * (modulo 2^32 always, exactly when it fits below the top), and it stays
   * inside the window when it is no larger than the window.
   */
  function PagedPartDst(p: Platform, pgSize: uint32): (r: uint32)
    ensures Add32(r, pgSize) == TzResMemEnd(p)
    ensures pgSize <= TzResMemEnd(p) ==> r + pgSize == TzResMemEnd(p)
    ensures p.tzResMemStart + p.tzResMemSize < TWO_32 && pgSize <= p.tzResMemSize
            ==> p.tzResMemStart <= r && r + pgSize == p.tzResMemStart + p.tzResMemSize
  {
    Sub32(TzResMemEnd(p), pgSize)
  }

  /** The file-scope globals shared by the secure and the non-secure hand-off. */
  datatype BootContext = BootContext(
    kernelEntry: uint32,
    dtbAddr: uint32,
    rootfsStart: uint32,
    rootfsEnd: uint32)

  /**
   * What the foreign calls of copy_ns_images return: the two downloads give
   * a byte count or a negative error, the DTB relocation a libfdt status.
   */
  datatype NsCalls = NsCalls(kernelSize: int32, dtbRelocate: int32, rootfsSize: int32)

  /** The boot context after copy_ns_images, and whether it halted. */
  datatype NsStep = NsStep(ctx: BootContext, outcome: Outcome)

  /**
   * copy_dtb, address arithmetic only: if relocating the DTB to `dst`
   * succeeded, the next free address is the end of its DTB_MAX_SIZE
   * reservation.
   */
  function CopyDtb(p: Platform, dst: uint32, relocateResult: int32): (r: Result<uint32>)
    ensures r.Success? <==> relocateResult >= 0
    ensures r.Failure? ==> r.error == DtbRelocateFailed
    ensures r.Success? ==> Add32(dst, p.dtbMaxSize) == r.value
    ensures r.Success? && dst + p.dtbMaxSize < TWO_32 ==> r.value == dst + p.dtbMaxSize
  {
    match Check(relocateResult < 0, DtbRelocateFailed)
    case Fail(e) => Failure(e)
    case Pass => Success(Add32(dst, p.dtbMaxSize))
  }

  /**
   * copy_ns_images: the globals are written in source order, each before the
   * check that follows it, so a halt leaves the ones already written set and
   * the later ones as they were.
   */
  function StageNs(p: Platform, ctx: BootContext, calls: NsCalls): (s: NsStep)
    ensures s.ctx.kernelEntry == Add32(p.dramStart, KERNEL_OFFSET)
    ensures s.outcome.Pass? <==> calls.kernelSize >= 0 && calls.dtbRelocate >= 0 && calls.rootfsSize >= 0
    ensures calls.kernelSize < 0
            ==> s.outcome == Fail(KernelDownloadFailed)
                && s.ctx == ctx.(kernelEntry := s.ctx.kernelEntry)
    ensures calls.kernelSize >= 0 && calls.dtbRelocate < 0
            ==> s.outcome == Fail(DtbRelocateFailed)
                && s.ctx.rootfsStart == ctx.rootfsStart && s.ctx.rootfsEnd == ctx.rootfsEnd
    ensures calls.kernelSize >= 0 && calls.dtbRelocate >= 0 && calls.rootfsSize < 0
            ==> s.outcome == Fail(RootfsDownloadFailed) && s.ctx.rootfsEnd == ctx.rootfsEnd
    ensures calls.kernelSize >= 0 ==> s.ctx.dtbAddr % PAGE_SIZE == 0
    ensures calls.kernelSize >= 0 && calls.dtbRelocate >= 0 ==> s.ctx.rootfsStart % PAGE_SIZE == 0
  {
    var kernelEntry := Add32(p.dramStart, KERNEL_OFFSET);
    var ctx1 := ctx.(kernelEntry := kernelEntry);
    match Check(calls.kernelSize < 0, KernelDownloadFailed)
    case Fail(e) => NsStep(ctx1, Fail(e))
    case Pass =>
      var kernelEnd := RoundUp(Add32(kernelEntry, calls.kernelSize));
      var dtbAddr := Add32(kernelEnd, DTB_GAP);
      Add32Aligned(kernelEnd, DTB_GAP);
      var ctx2 := ctx1.(dtbAddr := dtbAddr);
      match CopyDtb(p, dtbAddr, calls.dtbRelocate)
      case Failure(e) => NsStep(ctx2, Fail(e))
      case Success(dst) =>
        var ctx3 := ctx2.(rootfsStart := RoundUp(dst));
        match Check(calls.rootfsSize < 0, RootfsDownloadFailed)
        case Fail(e) => NsStep(ctx3, Fail(e))
        case Pass => NsStep(ctx3.(rootfsEnd := Add32(ctx3.rootfsStart, calls.rootfsSize)), Pass)
  }

  /** Nothing in the non-secure layout wraps around the top of the address space. */
  predicate NsLayoutFits(p: Platform, kernelSize: nat, rootfsSize: nat)
  {
    p.dramStart + KERNEL_OFFSET + kernelSize + (PAGE_SIZE - 1) + DTB_GAP
    + p.dtbMaxSize + (PAGE_SIZE - 1) + rootfsSize < TWO_32
  }

  /**
   * The layout copy_ns_images produces when it does not halt and nothing
   * wraps: the kernel 32 MiB above RAM, the DTB at the page-rounded kernel
   * end plus 96 MiB, the root filesystem at the page-rounded end of the DTB
   * reservation, so kernel, DTB and root filesystem come in that order and
   * do not overlap.
   */
  lemma NsLayout(p: Platform, ctx: BootContext, calls: NsCalls)
    requires StageNs(p, ctx, calls).outcome.Pass?
    requires NsLayoutFits(p, calls.kernelSize, calls.rootfsSize)
    ensures var c := StageNs(p, ctx, calls).ctx;
            && c.kernelEntry == p.dramStart + KERNEL_OFFSET
            && c.dtbAddr == RoundUp(c.kernelEntry + calls.kernelSize) + DTB_GAP
            && c.rootfsStart == RoundUp(c.dtbAddr + p.dtbMaxSize)
            && c.rootfsEnd == c.rootfsStart + calls.rootfsSize
            && c.dtbAddr % PAGE_SIZE == 0 && c.rootfsStart % PAGE_SIZE == 0
            && c.kernelEntry + calls.kernelSize + DTB_GAP <= c.dtbAddr
            && c.dtbAddr + p.dtbMaxSize <= c.rootfsStart
            && c.rootfsStart <= c.rootfsEnd
  {
  }

  /**
   * A 0x100-byte kernel on a board whose RAM starts at 0x60000000: the kernel
   * ends at 0x62000100, which rounds up to 0x62001000, so the DTB goes to
   * 0x68001000.
   */
  lemma DtbAddrExample(p: Platform, ctx: BootContext, calls: NsCalls)
    requires p.dramStart == 0x6000_0000 && calls.kernelSize == 0x100
    ensures StageNs(p, ctx, calls).ctx.kernelEntry == 0x6200_0000
    ensures StageNs(p, ctx, calls).ctx.dtbAddr == 0x6800_1000
  {
    assert RoundUp(0x6200_0100) == 0x6200_1000;
  }
}
