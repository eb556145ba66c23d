/**
 * The boot stager itself. Physical memory is an array indexed by 32-bit
 * address, and the four file-scope globals that carry the non-secure
 * layout from the secure hand-off to the non-secure one are fields.
 * main_init_sec stages the secure payload and the non-secure images and
 * returns what the secure monitor is entered with; main_init_ns later
 * enters the kernel from the globals.
 */
module Bios {
  import opened Uint32
  import opened Halting
  import opened OpteeHeader
  import opened Layout
  import opened KernelHandoff

  /** Memory `m` after `bytes` were copied to `dst`. */
  function Overwrite(m: seq<uint8>, dst: nat, bytes: seq<uint8>): (r: seq<uint8>)
    requires dst + |bytes| <= |m|
    ensures |r| == |m|
  {
    m[..dst] + bytes + m[dst + |bytes|..]
  }

  /** After a copy, the destination addresses hold the bytes copied and every other address is as it was. */
  lemma OverwriteAt(m: seq<uint8>, dst: nat, bytes: seq<uint8>)
    requires dst + |bytes| <= |m|
    ensures forall a: int :: dst <= a < dst + |bytes| ==> Overwrite(m, dst, bytes)[a] == bytes[a - dst]
    ensures forall a: int :: 0 <= a < |m| && !(dst <= a < dst + |bytes|) ==> Overwrite(m, dst, bytes)[a] == m[a]
  {
  }

  /** Two copies in a row: the second one wins where they overlap. */
  lemma OverwriteTwice(m: seq<uint8>, d1: nat, b1: seq<uint8>, d2: nat, b2: seq<uint8>)
    requires d1 + |b1| <= |m| && d2 + |b2| <= |m|
    ensures var r := Overwrite(Overwrite(m, d1, b1), d2, b2);
            && (forall a: int :: d2 <= a < d2 + |b2| ==> r[a] == b2[a - d2])
            && (forall a: int :: d1 <= a < d1 + |b1| && !(d2 <= a < d2 + |b2|) ==> r[a] == b1[a - d1])
            && (forall a: int :: 0 <= a < |m| && !(d1 <= a < d1 + |b1|) && !(d2 <= a < d2 + |b2|) ==> r[a] == m[a])
  {
    OverwriteAt(m, d1, b1);
    OverwriteAt(Overwrite(m, d1, b1), d2, b2);
  }

  /** `struct sec_entry_arg`: what the secure monitor is entered with. */
  datatype SecEntryArg = SecEntryArg(entry: uint32, pagedPart: uint32, fdt: uint32)

  /** What the foreign calls of main_init_sec return: libfdt on the platform DTB, then copy_ns_images's. */
  datatype SecureCalls = SecureCalls(fdtOpen: int32, fdtPack: int32, ns: NsCalls)

  /** Memory, boot context and result after main_init_sec. */
  datatype SecureStep = SecureStep(mem: seq<uint8>, ctx: BootContext, result: Result<SecEntryArg>)

  /**
   * What main_init_sec takes for granted about an accepted header and never
   * checks: the init image fits in the blob body (otherwise the subtraction
   * of line 235 wraps), and neither copy runs past the top of the 32-bit
   * address space.
   */
  predicate ImagesFit(p: Platform, blob: seq<uint8>, h: Header)
  {
    && HEADER_SIZE <= |blob| < 0x8000_0000
    && h.initSize <= |blob| - HEADER_SIZE
    && var pgSize := |blob| - HEADER_SIZE - h.initSize;
    && PagedPartDst(p, pgSize) + pgSize <= TWO_32
    && h.initLoadAddrLo + h.initSize <= TWO_32
  }

  /** The blob's length fits in a pointer difference, and an accepted header fits as ImagesFit says. */
  predicate BlobFits(p: Platform, blob: seq<uint8>)
  {
    && |blob| < 0x8000_0000
    && (ReadHeader(blob).Success? ==> ImagesFit(p, blob, ReadHeader(blob).value))
  }

  /**
   * The two copies of main_init_sec: the paged part (the blob after the
   * header and the init image) to PagedPartDst, then the init image to its
   * load address.
   */
  function StageSecureImages(p: Platform, mem: seq<uint8>, blob: seq<uint8>, h: Header): (m: seq<uint8>)
    requires |mem| == TWO_32
    requires ImagesFit(p, blob, h)
    ensures |m| == TWO_32
  {
    var pgSize := PagedPartSize(|blob| - HEADER_SIZE, h.initSize);
    var mem1 := Overwrite(mem, PagedPartDst(p, pgSize), blob[HEADER_SIZE + h.initSize..]);
    Overwrite(mem1, h.initLoadAddrLo, blob[HEADER_SIZE..HEADER_SIZE + h.initSize])
  }

  /**
   * After the copies, memory holds the init image (the `initSize` bytes
   * after the header) at its load address, and the paged part (the rest of
   * the blob, `|blob| - 28 - initSize` bytes) at PagedPartDst wherever the
   * init image did not overwrite it; all other memory is unchanged.
   */
  lemma SecureImagesStaged(p: Platform, mem: seq<uint8>, blob: seq<uint8>, h: Header)
    requires |mem| == TWO_32
    requires ImagesFit(p, blob, h)
    ensures var s := StageSecureImages(p, mem, blob, h);
            var lo, n := h.initLoadAddrLo, h.initSize;
            var pgSize := |blob| - HEADER_SIZE - n;
            var pgDst := PagedPartDst(p, pgSize);
            && (forall a: int :: lo <= a < lo + n ==> s[a] == blob[HEADER_SIZE + (a - lo)])
            && (forall a: int :: pgDst <= a < pgDst + pgSize && !(lo <= a < lo + n)
                  ==> s[a] == blob[HEADER_SIZE + n + (a - pgDst)])
            && (forall a: int :: 0 <= a < TWO_32 && !(lo <= a < lo + n) && !(pgDst <= a < pgDst + pgSize)
                  ==> s[a] == mem[a])
  {
    var lo, n := h.initLoadAddrLo, h.initSize;
    var pgSize := |blob| - HEADER_SIZE - n;
    assert PagedPartSize(|blob| - HEADER_SIZE, n) == pgSize;
    var pgDst := PagedPartDst(p, pgSize);
    var init, paged := blob[HEADER_SIZE..HEADER_SIZE + n], blob[HEADER_SIZE + n..];
    var s := StageSecureImages(p, mem, blob, h);
    assert s == Overwrite(Overwrite(mem, pgDst, paged), lo, init);
    OverwriteTwice(mem, pgDst, paged, lo, init);
    forall a: int | lo <= a < lo + n
      ensures s[a] == blob[HEADER_SIZE + (a - lo)]
    {
      assert s[a] == init[a - lo];
    }
    forall a: int | pgDst <= a < pgDst + pgSize && !(lo <= a < lo + n)
      ensures s[a] == blob[HEADER_SIZE + n + (a - pgDst)]
    {
      assert s[a] == paged[a - pgDst];
    }
  }

  /**
   * main_init_sec as a function of memory and boot context: the platform
   * DTB is opened and packed, the header read and checked, the secure
   * images copied, then copy_ns_images runs. Every check that fails halts
   * before anything after it: memory and globals are untouched unless the
   * DTB steps and every header check passed, and the secure monitor's
   * arguments are produced only if copy_ns_images passed too.
   */
  function SecureStage(p: Platform, mem: seq<uint8>, ctx: BootContext, blob: seq<uint8>,
                       calls: SecureCalls): (s: SecureStep)
    requires |mem| == TWO_32
    requires BlobFits(p, blob)
    ensures |s.mem| == TWO_32
    ensures s.result.Success? <==>
              calls.fdtOpen >= 0 && calls.fdtPack >= 0 && ReadHeader(blob).Success?
              && StageNs(p, ctx, calls.ns).outcome.Pass?
    ensures calls.fdtOpen < 0 ==> s == SecureStep(mem, ctx, Failure(FdtOpenFailed))
    ensures calls.fdtOpen >= 0 && calls.fdtPack < 0 ==> s == SecureStep(mem, ctx, Failure(FdtPackFailed))
    ensures calls.fdtOpen >= 0 && calls.fdtPack >= 0 && ReadHeader(blob).Failure?
            ==> s == SecureStep(mem, ctx, Failure(ReadHeader(blob).error))
    ensures calls.fdtOpen >= 0 && calls.fdtPack >= 0 && ReadHeader(blob).Success?
            ==> && s.mem == StageSecureImages(p, mem, blob, ReadHeader(blob).value)
                && s.ctx == StageNs(p, ctx, calls.ns).ctx
                && (StageNs(p, ctx, calls.ns).outcome.Fail?
                    ==> s.result == Failure(StageNs(p, ctx, calls.ns).outcome.error))
    ensures s.result.Success?
            ==> var h := ReadHeader(blob).value;
                && s.result.value.entry == h.initLoadAddrLo
                && var pgSize := |blob| - HEADER_SIZE - h.initSize;
                && Add32(s.result.value.pagedPart, pgSize) == TzResMemEnd(p)
                && (pgSize <= TzResMemEnd(p) ==> s.result.value.pagedPart + pgSize == TzResMemEnd(p))
                && s.result.value.fdt == s.ctx.dtbAddr
  {
    match Check(calls.fdtOpen < 0, FdtOpenFailed)
    case Fail(e) => SecureStep(mem, ctx, Failure(e))
    case Pass =>
      match Check(calls.fdtPack < 0, FdtPackFailed)
      case Fail(e) => SecureStep(mem, ctx, Failure(e))
      case Pass =>
        match ReadHeader(blob)
        case Failure(e) => SecureStep(mem, ctx, Failure(e))
        case Success(h) =>
          var pgDst := PagedPartDst(p, PagedPartSize(|blob| - HEADER_SIZE, h.initSize));
          var ns := StageNs(p, ctx, calls.ns);
          var result := match ns.outcome
            case Fail(e) => Failure(e)
            case Pass => Success(SecEntryArg(h.initLoadAddrLo, pgDst, ns.ctx.dtbAddr));
          SecureStep(StageSecureImages(p, mem, blob, h), ns.ctx, result)
  }

  class Bios {
    const platform: Platform
    /** Physical memory, by 32-bit address. */
    const mem: array<uint8>
    var kernelEntry: uint32
    var dtbAddr: uint32
    var rootfsStart: uint32
    var rootfsEnd: uint32

    ghost predicate Valid()
      reads this
    {
      mem.Length == TWO_32
    }

    /** The globals, as one value. */
    function Context(): BootContext
      reads this
    {
      BootContext(kernelEntry, dtbAddr, rootfsStart, rootfsEnd)
    }

    /** At reset the globals are zero, as static storage is. */
    constructor (platform: Platform, mem: array<uint8>)
      requires mem.Length == TWO_32
      ensures Valid() && this.platform == platform && this.mem == mem
      ensures Context() == BootContext(0, 0, 0, 0)
    {
      this.platform := platform;
      this.mem := mem;
      kernelEntry, dtbAddr, rootfsStart, rootfsEnd := 0, 0, 0, 0;
    }

    /**
     * copy_bios_image: copy `src[start..end]` byte for byte to `dst` and
     * return the address just past the copy; no other memory changes.
     */
    method CopyBiosImage(dst: uint32, src: seq<uint8>, start: nat, end: nat) returns (next: uint32)
      requires Valid()
      requires start <= end <= |src| && end - start < TWO_32
      requires dst + (end - start) <= mem.Length
      modifies mem
      ensures next == Add32(dst, end - start)
      ensures mem[..] == Overwrite(old(mem[..]), dst, src[start..end])
    {
      var len := end - start;
      var i := 0;
      while i < len
        invariant 0 <= i <= len
        invariant forall a: int :: dst <= a < dst + i ==> mem[a] == src[start + (a - dst)]
        invariant forall a: int :: 0 <= a < mem.Length && !(dst <= a < dst + i) ==> mem[a] == old(mem[a])
      {
        mem[dst + i] := src[start + i];
        i := i + 1;
      }
      ghost var want := Overwrite(old(mem[..]), dst, src[start..end]);
      OverwriteAt(old(mem[..]), dst, src[start..end]);
      forall a: int | 0 <= a < mem.Length
        ensures mem[..][a] == want[a]
      {
      }
      next := Add32(dst, len);
    }

    /** copy_ns_images: writes the globals as StageNs says, and halts where it does. */
    method CopyNsImages(calls: NsCalls) returns (o: Outcome)
      modifies this
      ensures Context() == StageNs(platform, old(Context()), calls).ctx
      ensures o == StageNs(platform, old(Context()), calls).outcome
    {
      kernelEntry := Add32(platform.dramStart, KERNEL_OFFSET);
      o := Check(calls.kernelSize < 0, KernelDownloadFailed);
      if o.Fail? {
        return;
      }
      var dst := Add32(kernelEntry, calls.kernelSize);

      dtbAddr := Add32(RoundUp(dst), DTB_GAP);
      var relocated := CopyDtb(platform, dtbAddr, calls.dtbRelocate);
      if relocated.Failure? {
        return Fail(relocated.error);
      }
      dst := relocated.value;

      rootfsStart := RoundUp(dst);
      o := Check(calls.rootfsSize < 0, RootfsDownloadFailed);
      if o.Fail? {
        return;
      }
      rootfsEnd := Add32(rootfsStart, calls.rootfsSize);
    }

    /**
     * main_init_sec: stages the secure payload and the non-secure images
     * and returns the arguments the secure monitor is entered with.
     */
    method MainInitSec(blob: seq<uint8>, calls: SecureCalls) returns (r: Result<SecEntryArg>)
      requires Valid()
      requires BlobFits(platform, blob)
      modifies this, mem
      ensures Valid()
      ensures var s := SecureStage(platform, old(mem[..]), old(Context()), blob, calls);
              mem[..] == s.mem && Context() == s.ctx && r == s.result
    {
      // open_fdt(DTB_START), then fdt_pack
      var c := Check(calls.fdtOpen < 0, FdtOpenFailed);
      if c.Fail? {
        return Failure(c.error);
      }
      c := Check(calls.fdtPack < 0, FdtPackFailed);
      if c.Fail? {
        return Failure(c.error);
      }

      // the checks on the header (lines 224-233)
      var start, end := 0, |blob|;
      var header := ReadHeader(blob);
      if header.Failure? {
        return Failure(header.error);
      }
      var hdr := header.value;
      start := start + HEADER_SIZE;
      ghost var m0, ctx0 := mem[..], Context();

      var pgSize := PagedPartSize(end - start, hdr.initSize);
      var pgDst := PagedPartDst(platform, pgSize);
      var _ := CopyBiosImage(pgDst, blob, start + hdr.initSize, end);
      assert blob[start + hdr.initSize..end] == blob[HEADER_SIZE + hdr.initSize..];
      ghost var m1 := mem[..];
      end := end - pgSize;
      var arg := SecEntryArg(hdr.initLoadAddrLo, pgDst, 0);

      // the secure blob is now exactly the init image
      assert start == HEADER_SIZE && end - start == hdr.initSize;
      var _ := CopyBiosImage(hdr.initLoadAddrLo, blob, start, end);
      ghost var m2 := mem[..];
      assert m2 == Overwrite(m1, hdr.initLoadAddrLo, blob[HEADER_SIZE..HEADER_SIZE + hdr.initSize]);

      assert m2 == StageSecureImages(platform, m0, blob, hdr);

      var o := CopyNsImages(calls.ns);
      assert mem[..] == m2;
      if o.Fail? {
        return Failure(o.error);
      }
      r := Success(arg.(fdt := dtbAddr));
    }

    /**
     * main_init_ns: enters the kernel from the globals main_init_sec left,
     * with the initrd bounds set to the root filesystem's.
     */
    method MainInitNs(cmdline: string, chosen: Chosen, fdt: KernelFdtCalls) returns (r: Result<KernelCall>)
      ensures r == CallKernel(kernelEntry, dtbAddr, rootfsStart, rootfsEnd, cmdline, chosen, fdt)
      ensures r.Success? <==> FdtCallsSucceed(fdt)
      ensures r.Failure? ==> r.error in {KernelFdtOpenFailed, CellNodeMissing, CellSetFailed,
                                         StringNodeMissing, StringSetFailed, KernelFdtPackFailed}
      ensures r.Success? ==> && r.value.entry == kernelEntry && r.value.r0 == 0
                             && r.value.r1 == MACH_VEXPRESS && r.value.r2 == dtbAddr
                             && r.value.chosen.Keys == chosen.Keys + {INITRD_START, INITRD_END, BOOTARGS}
                             && r.value.chosen[INITRD_START] == Cell(rootfsStart)
                             && r.value.chosen[INITRD_END] == Cell(rootfsEnd)
                             && r.value.chosen[BOOTARGS] == Str(cmdline)
                             && forall k :: k in chosen && k !in {INITRD_START, INITRD_END, BOOTARGS}
                                  ==> r.value.chosen[k] == chosen[k]
    {
      r := CallKernel(kernelEntry, dtbAddr, rootfsStart, rootfsEnd, cmdline, chosen, fdt);
    }
  }

  /**
   * A 0x1300-byte blob whose header gives a 0x1000-byte init image: the paged
   * part is the remaining 0x1300 - 28 - 0x1000 = 0x2e4 bytes, placed to end at
   * the top of the reserved window, whatever the header's `pagedSize` says.
   */
  lemma PagedPartExample(p: Platform, mem: seq<uint8>, ctx: BootContext, blob: seq<uint8>, calls: SecureCalls)
    requires |mem| == TWO_32 && BlobFits(p, blob)
    requires |blob| == 0x1300 && ReadHeader(blob).Success? && ReadHeader(blob).value.initSize == 0x1000
    requires 0x2e4 <= TzResMemEnd(p)
    ensures SecureStage(p, mem, ctx, blob, calls).result.Success?
            ==> SecureStage(p, mem, ctx, blob, calls).result.value.pagedPart == TzResMemEnd(p) - 0x2e4
  {
  }

  /**
   * The two hand-offs agree: when main_init_sec returned and nothing in the
   * non-secure layout wraps, main_init_ns enters the kernel 32 MiB above RAM
   * with r2 the same DTB address the secure monitor was given, and marks as
   * initrd the page-aligned root filesystem placed above that DTB's reservation.
   */
  lemma HandoffsAgree(p: Platform, mem: seq<uint8>, ctx: BootContext, blob: seq<uint8>,
                      calls: SecureCalls, cmdline: string, chosen: Chosen, fdt: KernelFdtCalls)
    requires |mem| == TWO_32
    requires BlobFits(p, blob)
    requires SecureStage(p, mem, ctx, blob, calls).result.Success?
    requires FdtCallsSucceed(fdt)
    requires NsLayoutFits(p, calls.ns.kernelSize, calls.ns.rootfsSize)
    ensures var s := SecureStage(p, mem, ctx, blob, calls);
            var c := s.ctx;
            var k := CallKernel(c.kernelEntry, c.dtbAddr, c.rootfsStart, c.rootfsEnd, cmdline, chosen, fdt);
            && k.Success?
            && k.value.entry == p.dramStart + KERNEL_OFFSET
            && k.value.r2 == s.result.value.fdt
            && k.value.chosen[INITRD_START] == Cell(c.rootfsStart)
            && k.value.chosen[INITRD_END] == Cell(c.rootfsStart + calls.ns.rootfsSize)
            && c.rootfsStart % PAGE_SIZE == 0
            && s.result.value.fdt + p.dtbMaxSize <= c.rootfsStart
  {
    NsLayout(p, ctx, calls.ns);
  }
}
