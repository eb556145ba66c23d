/**
 * The fail-fast guard of the boot stager: `CHECK(x)` evaluates a failure
 * condition and, when it holds, `check()` reports it and spins forever.
 * Here a tripped check becomes a `Fail`/`Failure` value naming which check
 * fired; every caller returns it unchanged, so nothing runs after it.
 */
module Halting {

  /** The CHECK that stopped the boot, one per call site (the line it reports). */
  datatype Halt =
    | FdtOpenFailed          // open_fdt: fdt_open_into on the platform DTB (line 142)
    | DtbRelocateFailed      // copy_dtb: fdt_open_into into the relocated copy (line 153)
    | KernelDownloadFailed   // copy_ns_images: download of the kernel image (line 167)
    | RootfsDownloadFailed   // copy_ns_images: download of the root filesystem (line 176)
    | FdtPackFailed          // main_init_sec: fdt_pack of the platform DTB (line 221)
    | BlobTooShort           // main_init_sec: secure blob shorter than its header (line 224)
    | BadMagicOrVersion      // main_init_sec: header magic or version mismatch (line 229)
    | LoadAddrAbove4GiB      // main_init_sec: high half of the load address set (line 233)
    | CellNodeMissing        // setprop_cell: fdt_path_offset failed (line 263)
    | CellSetFailed          // setprop_cell: fdt_setprop_cell failed (line 266)
    | StringNodeMissing      // setprop_string: fdt_path_offset failed (line 276)
    | StringSetFailed        // setprop_string: fdt_setprop_string failed (line 279)
    | KernelFdtOpenFailed    // call_kernel: fdt_open_into (line 295)
    | KernelFdtPackFailed    // call_kernel: fdt_pack (line 300)

  /** The outcome of a step that returns nothing: it went on, or it halted. */
  datatype Outcome = Pass | Fail(error: Halt)

  /** The outcome of a step that yields a value unless it halted. */
  datatype Result<+T> = Success(value: T) | Failure(error: Halt)

  /**
   * `CHECK(cond)`: control goes on exactly when `cond` is false; otherwise
   * the boot halts for the reason `why`.
   */
  function Check(cond: bool, why: Halt): (o: Outcome)
    ensures o.Pass? <==> !cond
    ensures o.Fail? ==> o.error == why
  {
    if cond then Fail(why) else Pass
  }
}
