# bios_qemu_tz_arm boot stager, modelled in Dafny

This project models `bios/main.c` of bios_qemu_tz_arm. That file is the first-stage boot stager QEMU runs
on a 32-bit ARM board with TrustZone. It works in three steps:

- **Validate the header.** It finds the secure payload linked into its own image and checks the 28-byte
  `struct optee_header` in front of it.
- **Stage the images.** It copies the payload's init image to its load address, and the paged part so
  that it ends at the top of the trusted reserved window. It then downloads the Linux kernel and the
  root filesystem next to a relocated device tree (DTB).
- **Hand off.** It returns the secure monitor's entry arguments (`struct sec_entry_arg`). Later it
  enters the kernel with the boot registers r0 = 0, r1 = MACH_VEXPRESS (2272) and r2 = the DTB address,
  after patching the DTB's `/chosen` node.

Every failed `CHECK` spins forever. The model represents this as a `Halt` value that names the check
which fired.

The files:

- `halting.dfy` (module `Halting`): the `CHECK` macro, the `Halt` reasons, and the `Outcome` and
  `Result` types.
- `uint32.dfy` (module `Uint32`): the target's fixed-width integers. Unsigned addition and subtraction
  wrap modulo 2^32, and `ROUNDUP(v, PAGE_SIZE)` is computed in that width.
- `optee_header.dfy` (module `OpteeHeader`): the header's little-endian byte layout, and the fail-fast
  header checks of `main_init_sec`.
- `layout.dfy` (module `Layout`): the address arithmetic.
  - The paged part grows down from the top of the reserved window.
  - The kernel goes 32 MiB above RAM.
  - The DTB goes 96 MiB above the page-rounded end of the kernel.
  - The root filesystem goes at the page-rounded end of the DTB's `DTB_MAX_SIZE` reservation.
  - `StageNs` is `copy_ns_images` as a function on the four boot globals.
- `kernel_handoff.dfy` (module `KernelHandoff`): `setprop_cell`, `setprop_string` and `call_kernel`.
  The `/chosen` node is a map from property names to values.
- `bios.dfy` (module `Bios`):
  - `SecureStage` is `main_init_sec` as a function of memory and globals.
  - The class `Bios` holds physical memory as an `array<uint8>` indexed by 32-bit address, plus the
    four file-scope globals. Its methods are `copy_bios_image`, `copy_ns_images`, `main_init_sec` and
    `main_init_ns`. Each method is proved to update memory and globals exactly as the functions say.

Foreign calls become inputs. The libfdt calls and the two semihosting downloads are each represented by
the integer they return: the `SecureCalls`, `NsCalls` and `KernelFdtCalls` records. A negative value
halts at the `CHECK` that tests it. The board constants come from `platform_config.h`, which is not
part of this model: `DRAM_START`, `DTB_MAX_SIZE`, `TZ_RES_MEM_START` and `TZ_RES_MEM_SIZE` are the
`Platform` parameter.

## Model

| member | source | states |
|---|---|---|
| Halting.Check | bios/main.c:72-76 | `CHECK(x)` lets control continue exactly when `x` is false. When `x` holds, it halts with the reason of that check site. |
| Uint32.Add32 | bios/main.c:130 | Unsigned 32-bit addition is the true sum when that fits in 32 bits, and the sum less 2^32 when it does not. |
| Uint32.Sub32 | bios/main.c:235-236 | Unsigned 32-bit subtraction is the true difference when it is non-negative, and that plus 2^32 otherwise. In both cases, adding the subtrahend back gives the minuend. |
| Uint32.PageMask | bios/main.c:54 | `x & ~(PAGE_SIZE-1)` is the largest multiple of 4096 at or below `x`. |
| Uint32.Add32Aligned | bios/main.c:170 | A wrapped sum of two page-aligned values is page aligned. |
| Uint32.RoundUp | bios/main.c:54-56 | `ROUNDUP(v, PAGE_SIZE)` is always a multiple of 4096. Without 32-bit overflow it satisfies `v <= r < v + 4096`. It leaves aligned values unchanged. The values above the last page boundary wrap to 0. |
| OpteeHeader.LeValue | bios/main.c:186-196 | A little-endian field of `n` bytes holds a value below 256^n, so a 4-byte field is a `uint32_t` and a 2-byte field a `uint16_t`. |
| OpteeHeader.LeBytes | bios/main.c:186-196 | Storing a value in a field of `n` bytes gives exactly `n` bytes. |
| OpteeHeader.LeBytesOfLeValue | bios/main.c:186-196 | Any byte string is the encoding of the little-endian value it holds. |
| OpteeHeader.LeValueOfLeBytes | bios/main.c:186-196 | A value below 256^n reads back unchanged from its `n`-byte encoding. |
| OpteeHeader.Le16 | bios/main.c:190 | A `uint16_t` field read from two bytes holds the value whose encoding is exactly those bytes. |
| OpteeHeader.Le32 | bios/main.c:187-195 | A `uint32_t` field read from four bytes holds the value whose encoding is exactly those bytes. |
| OpteeHeader.ParseHeader | bios/main.c:226-227 | The copy of the header out of the blob: each field holds exactly the bytes at its offset (magic 0, version 4, arch 5, flags 6, init_size 8, load address high 12 and low 16, init_mem_usage 20, paged_size 24). |
| OpteeHeader.EncodeHeader | bios/main.c:186-196 | The header occupies exactly 28 bytes. |
| OpteeHeader.EncodeParseHeader | bios/main.c:186-196 | Every 28 bytes re-encode to themselves after decoding: the field layout covers every byte once, in order. |
| OpteeHeader.ParseEncodeHeader | bios/main.c:186-196 | Decoding the encoding of a header gives back every field unchanged. |
| OpteeHeader.MagicBytes | bios/main.c:180-181 | A header's stored bytes start with "OPTE" and version byte 1 exactly when its magic is `0x4554504f` and its version is 1. |
| OpteeHeader.WrongMagicOrVersion | bios/main.c:229 | The header is refused exactly when its first five stored bytes are not "OPTE" followed by version 1. |
| OpteeHeader.ReadHeader | bios/main.c:224-233 | The checks run in source order and each fires on its own condition. A blob shorter than 28 bytes halts first. A wrong magic (`0x4554504f`) or a wrong version (1) halts next. A non-zero high load-address half then halts with its own reason. The header is accepted exactly when all three checks pass, and it is then the one decoded from the first 28 bytes. |
| OpteeHeader.ReadEncodedHeader | bios/main.c:180-233 | A blob that starts with an encoded header is refused for the magic/version check, refused for the high half, or accepted with every field unchanged, whatever bytes follow. |
| Layout.TzResMemEnd | bios/main.c:236 | `(size_t)TZ_RES_MEM_START + TZ_RES_MEM_SIZE` is the true sum when it fits in 32 bits, and the sum less 2^32 when it does not. |
| Layout.PagedPartSize | bios/main.c:235 | The paged part is what remains of the blob body after the init image. When `init_size` exceeds the body, the unsigned subtraction wraps to more than the whole body. |
| Layout.PagedPartDst | bios/main.c:236 | The paged part ends at `TZ_RES_MEM_START + TZ_RES_MEM_SIZE`: always modulo 2^32, and exactly when it fits. If the window lies below 2^32 and the part is no larger than the window, the part lies inside it. |
| Layout.CopyDtb | bios/main.c:147-155 | A failed relocation halts. Otherwise the next free address is the end of the `DTB_MAX_SIZE` reservation at `dst`, modulo 2^32, and exactly when that does not wrap. |
| Layout.StageNs | bios/main.c:157-178 | `kernel_entry` is always `DRAM_START + 32 MiB`. The step passes exactly when both downloads and the relocation succeed. A halt leaves every later global untouched. `dtb_addr` is page aligned once the kernel download succeeded, and `rootfs_start` once the relocation succeeded too. |
| Layout.NsLayout | bios/main.c:162-177 | When nothing wraps: `dtb_addr == ROUNDUP(kernel_entry + r_kernel) + 96 MiB`, `rootfs_start == ROUNDUP(dtb_addr + DTB_MAX_SIZE)` and `rootfs_end == rootfs_start + r_rootfs`. Kernel, DTB reservation and root filesystem come in that order and do not overlap. |
| Layout.DtbAddrExample | bios/main.c:163-170 | A 0x100-byte kernel with RAM at 0x60000000 puts the kernel at 0x62000000 and the DTB at 0x68001000. |
| KernelHandoff.SetPropCell | bios/main.c:256-267 | A missing node halts first, then a failed update. On success, exactly this property is added or replaced with the cell, and every other property is kept. |
| KernelHandoff.SetPropString | bios/main.c:269-280 | As `SetPropCell`, for a string property. |
| KernelHandoff.CallKernel | bios/main.c:283-306 | The kernel is entered exactly when all eight libfdt calls succeed. Otherwise the first failing call names the halt: `fdt_open_into` (line 295), each `/chosen` lookup (line 263 or 276), each property update (line 266 or 279) and `fdt_pack` (line 300). On entry: the entry address is unchanged, r0 = 0, r1 = 2272 and r2 = the DTB. `/chosen` holds `linux,initrd-start`, `linux,initrd-end` and `bootargs` with the given values, and keeps all its other properties. |
| Bios.Overwrite | bios/main.c:129 | A copy into memory keeps the size of memory. |
| Bios.OverwriteAt | bios/main.c:129 | After a copy, the destination holds the copied bytes and every other address is as it was. |
| Bios.OverwriteTwice | bios/main.c:238-248 | After two copies, the second wins where they overlap, the first holds elsewhere in its range, and the rest of memory is unchanged. |
| Bios.StageSecureImages | bios/main.c:238-248 | The two secure copies operate on 2^32-byte memory. |
| Bios.SecureImagesStaged | bios/main.c:235-248 | The init image is the `init_size` bytes after the header, and it ends up at `init_load_addr_lo`. The paged part is the remaining `len - 28 - init_size` bytes, and it sits at its destination except where the init image overwrote it. Nothing else in memory changes. |
| Bios.SecureStage | bios/main.c:206-254 | Each halt before the secure copies (DTB open, DTB pack, every header check) leaves memory and globals exactly as they were. Otherwise memory holds the staged images, and the globals and any later halt are `copy_ns_images`'s. On success, `entry == init_load_addr_lo`, `paged_part + pgSize` is the window end, and `fdt == dtb_addr`. |
| Bios.PagedPartExample | bios/main.c:235-236 | A 0x1300-byte blob with a 0x1000-byte init image has a 0x2e4-byte paged part ending at the window's top, whatever the header's `paged_size` field holds. |
| Bios.HandoffsAgree | bios/main.c:243-311 | After a successful `main_init_sec`, with no wrap, `main_init_ns` behaves as follows. It enters the kernel at `DRAM_START + 32 MiB`, passing in r2 the DTB address the secure monitor got. It marks as initrd the root filesystem's bounds, which are page aligned and above the DTB reservation. |
| Bios.Bios.constructor | bios/main.c:58-61 | The four globals start at zero, like static storage. |
| Bios.Bios.CopyBiosImage | bios/main.c:121-131 | Returns `dst + (end - start)` in 32-bit arithmetic. Afterwards memory is the old memory with `src[start..end]` at `dst`. |
| Bios.Bios.CopyNsImages | bios/main.c:157-178 | Updates the globals exactly as `StageNs` says, and halts where it does. |
| Bios.Bios.MainInitSec | bios/main.c:206-254 | Leaves memory and globals, and returns the secure monitor's arguments, exactly as `SecureStage` says. |
| Bios.Bios.MainInitNs | bios/main.c:309-312 | Behaves exactly as `call_kernel` (`KernelHandoff.CallKernel`) applied to the four globals. It enters the kernel exactly when every libfdt call succeeds; otherwise the first failing call names the halt. It enters at `kernel_entry` with r0 = 0, r1 = 2272 and r2 = `dtb_addr`. `/chosen` gains the initrd bounds `rootfs_start`/`rootfs_end` and the command line, and keeps every other property. |

## Left out

- The UART console (`msg_init` and `msg`, with their `\n` to `\r\n` translation, lines 78-108) and the message `check` prints (line 112). These are output only and change no model state.
- The infinite loop of `check` (line 113) is modelled as a `Halt` result that ends the operation.
- `semihosting_download_file` (lines 166, 174) is represented only by the size or error it returns. The bytes it writes to memory and its 64 MiB and 32 MiB length caps are not modelled.
- libfdt (`fdt_open_into`, `fdt_pack`, `fdt_path_offset`, `fdt_setprop_*`) is represented only by the status each call returns. Its effect on the DTB bytes in memory is not modelled. `/chosen` is an abstract map of properties, and the DTB's source address `DTB_START` is not used.
- `unreloc`, the linker symbols and `main_stack` (lines 63-70, 116-119) are link-time address tricks. The secure blob is a byte sequence of its own.
- The blob and memory are therefore separate, so a copy that overwrites the blob itself is not modelled.
- The copy of the header into the stack variable `hdr` (line 226) is modelled as decoding a value. Stack memory is not part of the memory array.
- The jump `ep(a0, a1, dtb)` (line 305) is modelled as the `KernelCall` value that records the entry point and the three registers.
- The `MAX` and `MIN` macros (lines 40-50) are unused by the file.
- `arg->paged_part` and `arg->entry` are written before `copy_ns_images` runs (lines 243-244). If it halts, they stay written but nobody can read them. The model returns no arguments on a halt.
- Uint32.RoundUp: modelled only for the `PAGE_SIZE` alignment, the only one the file uses.
- Bios.SecureStage: assumes `BlobFits`, which the source never checks. Under it, the init image fits in the blob body, so the subtraction at line 235 does not wrap. Under it, neither copy runs past 2^32, and the blob is shorter than 2^31 bytes. `Layout.PagedPartSize` states what the wrapped value would be.
- Bios.Bios.CopyBiosImage: requires that the copy stays below 2^32 (`dst + (end - start)` within memory). The source does not check this, and a `memcpy` past the top of the address space is not modelled. Its two callers in `main_init_sec` meet it through `BlobFits`.
- Bios.Bios.MainInitSec: requires the same `BlobFits` as `SecureStage`.
- The header's `paged_size` field is read but never used. The paged part's size comes from the blob length, as `Bios.PagedPartExample` shows.
