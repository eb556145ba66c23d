/**
 * call_kernel: patch the `/chosen` node of the relocated DTB with the
 * initrd bounds and the kernel command line, pack the DTB, and enter the
 * kernel with the registers the 32-bit ARM Linux boot protocol expects.
 * libfdt itself is not modelled: each of its calls is given by the status it
 * returns, and `/chosen` by the properties it holds.
 */
module KernelHandoff {
  import opened Uint32
  import opened Halting

  /** The machine type of the Versatile Express board (MACH_VEXPRESS), passed in r1. */
  const MACH_VEXPRESS: uint32 := 2272

  const INITRD_START: string := "linux,initrd-start"
  const INITRD_END: string := "linux,initrd-end"
  const BOOTARGS: string := "bootargs"

  /** A device-tree property value: a 32-bit cell or a string. */
  datatype Prop = Cell(cell: uint32) | Str(text: string)

  /** The properties of the `/chosen` node, by name. */
  type Chosen = map<string, Prop>

  /** The status each libfdt call of call_kernel returns, in call order. */
  datatype KernelFdtCalls = KernelFdtCalls(
    open: int32,
    startPath: int32, startSet: int32,
    endPath: int32, endSet: int32,
    argsPath: int32, argsSet: int32,
    pack: int32)

  /** The jump into the kernel: `ep(r0, r1, r2)` with `ep` the entry address. */
  datatype KernelCall = KernelCall(entry: uint32, r0: uint32, r1: uint32, r2: uint32, chosen: Chosen)

  /**
   * setprop_cell: look up `/chosen`, then set one cell property. Either
   * lookup or update may fail and halt; otherwise only that property changes.
   */
  function SetPropCell(chosen: Chosen, name: string, val: uint32, offset: int32, setResult: int32): (r: Result<Chosen>)
    ensures r.Success? <==> offset >= 0 && setResult >= 0
    ensures offset < 0 ==> r == Failure(CellNodeMissing)
    ensures offset >= 0 && setResult < 0 ==> r == Failure(CellSetFailed)
    ensures r.Success? ==> r.value.Keys == chosen.Keys + {name} && r.value[name] == Cell(val)
    ensures r.Success? ==> forall k :: k in chosen && k != name ==> r.value[k] == chosen[k]
  {
    match Check(offset < 0, CellNodeMissing)
    case Fail(e) => Failure(e)
    case Pass =>
      match Check(setResult < 0, CellSetFailed)
      case Fail(e) => Failure(e)
      case Pass => Success(chosen[name := Cell(val)])
  }

  /** setprop_string: as setprop_cell, for a string property. */
  function SetPropString(chosen: Chosen, name: string, val: string, offset: int32, setResult: int32): (r: Result<Chosen>)
    ensures r.Success? <==> offset >= 0 && setResult >= 0
    ensures offset < 0 ==> r == Failure(StringNodeMissing)
    ensures offset >= 0 && setResult < 0 ==> r == Failure(StringSetFailed)
    ensures r.Success? ==> r.value.Keys == chosen.Keys + {name} && r.value[name] == Str(val)
    ensures r.Success? ==> forall k :: k in chosen && k != name ==> r.value[k] == chosen[k]
  {
    match Check(offset < 0, StringNodeMissing)
    case Fail(e) => Failure(e)
    case Pass =>
      match Check(setResult < 0, StringSetFailed)
      case Fail(e) => Failure(e)
      case Pass => Success(chosen[name := Str(val)])
  }

  /** True when every libfdt call of call_kernel succeeds. */
  predicate FdtCallsSucceed(f: KernelFdtCalls)
  {
    f.open >= 0 && f.startPath >= 0 && f.startSet >= 0 && f.endPath >= 0 && f.endSet >= 0
    && f.argsPath >= 0 && f.argsSet >= 0 && f.pack >= 0
  }

  /**
   * call_kernel(entry, dtb, initrd, initrdEnd) with the build's command line
   * `cmdline`: it halts at the first libfdt call that fails; otherwise
   * `/chosen` holds the initrd bounds and the command line, every other
   * property is kept, and the kernel is entered at `entry` with r0 = 0,
   * r1 = MACH_VEXPRESS and r2 = the DTB address.
   */
  function CallKernel(entry: uint32, dtb: uint32, initrd: uint32, initrdEnd: uint32,
                      cmdline: string, chosen: Chosen, fdt: KernelFdtCalls): (r: Result<KernelCall>)
    ensures r.Success? <==> FdtCallsSucceed(fdt)
    ensures fdt.open < 0 ==> r == Failure(KernelFdtOpenFailed)
    ensures fdt.open >= 0 && fdt.startPath < 0 ==> r == Failure(CellNodeMissing)
    ensures fdt.open >= 0 && fdt.startPath >= 0 && fdt.startSet < 0 ==> r == Failure(CellSetFailed)
    ensures fdt.open >= 0 && fdt.startPath >= 0 && fdt.startSet >= 0 && fdt.endPath < 0
            ==> r == Failure(CellNodeMissing)
    ensures fdt.open >= 0 && fdt.startPath >= 0 && fdt.startSet >= 0 && fdt.endPath >= 0 && fdt.endSet < 0
            ==> r == Failure(CellSetFailed)
    ensures fdt.open >= 0 && fdt.startPath >= 0 && fdt.startSet >= 0 && fdt.endPath >= 0 && fdt.endSet >= 0
            && fdt.argsPath < 0
            ==> r == Failure(StringNodeMissing)
    ensures fdt.open >= 0 && fdt.startPath >= 0 && fdt.startSet >= 0 && fdt.endPath >= 0 && fdt.endSet >= 0
            && fdt.argsPath >= 0 && fdt.argsSet < 0
            ==> r == Failure(StringSetFailed)
    ensures FdtCallsSucceed(fdt.(pack := 0)) && fdt.pack < 0 ==> r == Failure(KernelFdtPackFailed)
    ensures r.Success? ==> r.value.entry == entry && r.value.r0 == 0
                           && r.value.r1 == MACH_VEXPRESS && r.value.r2 == dtb
    ensures r.Success? ==> var c := r.value.chosen;
              && c.Keys == chosen.Keys + {INITRD_START, INITRD_END, BOOTARGS}
              && c[INITRD_START] == Cell(initrd) && c[INITRD_END] == Cell(initrdEnd)
              && c[BOOTARGS] == Str(cmdline)
              && forall k :: k in chosen && k !in {INITRD_START, INITRD_END, BOOTARGS} ==> c[k] == chosen[k]
  {
    match Check(fdt.open < 0, KernelFdtOpenFailed)
    case Fail(e) => Failure(e)
    case Pass =>
      match SetPropCell(chosen, INITRD_START, initrd, fdt.startPath, fdt.startSet)
      case Failure(e) => Failure(e)
      case Success(c1) =>
        match SetPropCell(c1, INITRD_END, initrdEnd, fdt.endPath, fdt.endSet)
        case Failure(e) => Failure(e)
        case Success(c2) =>
          match SetPropString(c2, BOOTARGS, cmdline, fdt.argsPath, fdt.argsSet)
          case Failure(e) => Failure(e)
          case Success(c3) =>
            match Check(fdt.pack < 0, KernelFdtPackFailed)
            case Fail(e) => Failure(e)
            case Pass => Success(KernelCall(entry, 0, MACH_VEXPRESS, dtb, c3))
  }
}
