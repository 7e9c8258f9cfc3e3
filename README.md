# asr_emu_help in Dafny

A model of asr_emu_help. This helper library lets an auto-splitter find a console's
emulated RAM inside a running emulator process and read it in the console's own address
space. Three consoles are covered: Sega Genesis, PlayStation and Wii. Each console has
the same parts:

- **Session.** `State::init` runs once per tick. It attaches to the first known emulator
  process that is running and resets when the process closes. It runs the emulator's
  *locate* recipe while no RAM base is cached, and drops the cached base when the
  recipe's *keep-alive* check fails.
- **Recipes.** Per emulator, a signature scan over a module or over the process's memory
  ranges, followed by a chain of pointer reads. The chain may use a direct operand, an
  x86 RIP-relative displacement (section 2.2.1.6 of the Intel 64 and IA-32 Architectures
  Software Developer's Manual, Volume 2A), a CALL rel32 target, or a double dereference.
  Some recipes keep static data (`STATICDATA`) that their keep-alive consults. Some set
  the session's byte order.
- **Reads.** They translate a console address into an offset from the RAM base:
  - PlayStation: the two 2 MiB windows at 0 and 0x80000000;
  - Wii: MEM1 at 0 and 0x80000000, MEM2 at 0x90000000;
  - Genesis: byte reads flip the offset to its even/odd neighbour in a little-endian
    session; word reads byte-swap the value in a big-endian session.
- **Dolphin.** The Wii's two RAM banks are found by walking the memory ranges and
  picking them out by size: 32 MiB for MEM1, 64 MiB for MEM2. A proximity cut-off
  applies, and the result is all or nothing.
- **Bitness.** `shared::check_for_64_bit` tells an x86-64 build from a 32-bit one. It
  looks for the PE signature followed by the low byte of IMAGE_FILE_MACHINE_AMD64
  (0x8664), as described in section 3.3.1 of the Microsoft PE/COFF Specification, within
  the first 0x1000 bytes of the main module.

**The emulator process** is the datatype `Host.Process`, a view of one tick:

- whether the handle is open;
- memory, as a partial map from address to byte;
- module base addresses and module sizes, as two maps, because the source queries them
  separately;
- the list of memory ranges.

**Reads** from that view are little-endian decodes that fail when any byte is missing.
**`Process::attach`** is a set of process names that attach on this tick.

**The signature scanner** (`Signature::scan_process_range`) belongs to the asr library.
Here it is given a reference body: the lowest address of the range at which every
pattern byte is readable and agrees. Its contract is `FirstMatch`/`NoMatch`.

**Per console:**

- The attach list, the reads and the value types live in `Genesis`, `Ps1` and `Wii`.
- Every recipe module (`Genesis*`, `Ps1*`, `WiiDolphin`) is named after its source file.
  A recipe is a pure function. Recipes with static data also have a `StaticData` class
  whose method is proved equal to that function and updates the fields.
- `GenesisSession`, `Ps1Session` and `WiiSession` each hold:
  - the `look_for_wram`/`keep_alive` dispatch;
  - a pure `Tick` that states the transition and return-value contract of `State::init`;
  - a `State` class whose `Init` method is proved equal to `Tick`.

## Model

| member | source | states |
|---|---|---|
| Host.FirstLoaded | src/ps1/retroarch.rs:23-26 | the first name whose module address resolves: none resolves before it, and None exactly when none resolves |
| Host.FirstResolving | src/ps1/psxfin.rs:11-14 | the first name whose module address and size both resolve, with none before it; None exactly when none does |
| Host.ByteSwap | src/genesis.rs:170 | `from_be` on the little-endian host: the result fits the width |
| Host.ByteSwapDecode | src/genesis.rs:170 | swapping a decoded value equals decoding the reversed bytes |
| Host.ByteSwapInvolutive | src/wii.rs:154 | swapping twice gives back the value |
| Host.ByteSwap16 | src/genesis.rs:192 | the 16-bit swap exchanges the high and low byte |
| Host.Signed | src/genesis.rs:154 | two's-complement reading of an n-byte pattern: in range, equal to the pattern when non-negative, pattern minus 256^n otherwise |
| Host.ToU64 | src/ps1/xebra.rs:16 | `as u64`: the result is below 2^64 and congruent to the input mod 2^64, and equals it when it is in range |
| Host.ToI32 | src/ps1/xebra.rs:12 | `as i32`: a value in the i32 range congruent to the input mod 2^32 |
| Host.BytesAt | src/genesis.rs:112 | a raw read of n bytes succeeds exactly when every byte is present, and yields them in order |
| Host.U8At | src/genesis/fusion.rs:15 | a u8 read succeeds exactly when the byte is present, and yields it |
| Host.U16At | src/genesis.rs:166 | a u16 read succeeds exactly when both bytes are present; it is their little-endian value |
| Host.U32At | src/ps1/epsxe.rs:13 | a u32 read succeeds exactly when its four bytes are readable; the value is below 2^32 and encodes back to those bytes |
| Host.U64At | src/ps1/duckstation.rs:25 | a u64 read succeeds exactly when its eight bytes are readable; the value is below 2^64 and encodes back to those bytes |
| Host.I32At | src/ps1/xebra.rs:13 | an i32 read is the u32 read taken as two's complement |
| Host.DoubleDeref | src/genesis/segaclassics.rs:26-27 | a u32 pointer followed to the u32 it points at; it fails if either read fails |
| Signature.Bytes | src/ps1/epsxe.rs:6 | exact signature bytes, in order |
| Signature.Wild | src/ps1/psxfin.rs:4 | `??` bytes match anything |
| Signature.ScanProcessRange | src/ps1/epsxe.rs:12 | the returned address is the first in the range where the pattern matches; None exactly when it matches nowhere |
| Signature.FirstMatchUnique | src/ps1/epsxe.rs:12 | the first match in a range is unique |
| Signature.ScanLocal | src/shared/mod.rs:5 | the scan depends only on the bytes inside the scanned range |
| Signature.ScanRegions | src/genesis/blastem.rs:9-11 | `filter(..).find_map(scan)`: the result is the scan of the first admitted region with a match |
| Signature.ScanRegionsNone | src/genesis/blastem.rs:9-11 | the region scan fails exactly when no admitted region holds a match |
| Signature.ScanRegionsFirstHit | src/ps1/pcsx_redux.rs:47-50 | the first admitted region with a match decides: its first match is returned and later regions are not consulted |
| Signature.ScanRegionsSkip | src/genesis/blastem.rs:10 | a region the filter turns away does not influence the result |
| Signature.ScanRegionsSpec | src/ps1/pcsx_redux.rs:47-50 | the region scan returns `m` exactly when `m` is the first match in the first admitted region with one |
| Signature.ScanModule | src/genesis/fusion.rs:11-13 | None exactly when the module does not resolve or holds no match; otherwise the first match in its image |
| Signature.ModuleMatchIsScan | src/genesis/gens.rs:10-12 | a first match in the module's image determines the scan's result |
| X86.RipTarget | src/ps1/duckstation.rs:20-21 | the RIP-relative target `a + 4 + disp32`, as u64; None exactly when the displacement is unreadable |
| X86.RipTargetExact | src/genesis/retroarch.rs:55-56 | a target inside the 64-bit space is the exact sum |
| Shared.CheckFor64Bit | src/shared/mod.rs:3-6 | true exactly when the PE/AMD64 pattern occurs within the first 0x1000 bytes of the module |
| Shared.Sig64Bytes | src/shared/mod.rs:4 | the pattern is five exact bytes: "PE\0\0" and 0x64 |
| Shared.CheckFor64BitSpec | src/shared/mod.rs:4-5 | true exactly when some address of the header page starts the five bytes |
| Shared.CheckFor64BitLocal | src/shared/mod.rs:5 | the result depends only on the 0x1000-byte header page, whatever the module's size |
| Genesis.AttachProcess | src/genesis.rs:25-34 | the emulator of the first `PROCESS_NAMES` entry that attaches, none before it; no RAM base and little-endian |
| Genesis.AttachIgnoresLaterNames | src/genesis.rs:26 | names after the first one that attaches are never consulted |
| Genesis.NamesOfProcessNames | src/genesis.rs:216-223 | the names tried for each emulator are exactly its `PROCESS_NAMES` entries, in list order |
| Genesis.ReadIgnoringEndianness | src/genesis.rs:108-113 | Err without a session or RAM base; otherwise the raw bytes at `wram + offset` with no conversion |
| Genesis.ByteOffset | src/genesis.rs:124-131 | big-endian: the offset itself; little-endian: the other byte of the same 16-bit pair |
| Genesis.ByteOffsetInvolutive | src/genesis.rs:124-131 | flipping twice gives back the offset |
| Genesis.ByteOffsetExamples | src/genesis.rs:126-130 | address 0 is read at host offset 1 and address 1 at offset 0 |
| Genesis.ReadU8 | src/genesis.rs:119-134 | Err without a RAM base; otherwise the byte at `wram + flipped offset`, Err if it is missing |
| Genesis.ReadI8 | src/genesis.rs:140-155 | the byte of `read_u8` read as two's complement, failing exactly when it fails |
| Genesis.ReadU16 | src/genesis.rs:161-177 | the offset is never flipped; big-endian sessions read the two bytes most significant first, others least significant first; a failed read passes through |
| Genesis.ReadI16 | src/genesis.rs:183-199 | the word of `read_u16` read as two's complement, failing exactly when it fails |
| Genesis.ReadU16Swapped | src/genesis.rs:166-173 | the big-endian word is the byte swap of the little-endian one, and both fail together |
| GenesisBlastEm.Wram | src/genesis/blastem.rs:9-16 | the u32 at match + 11 in the first writable 0x101000-byte region with a match; None when no such region matches |
| GenesisBlastEm.BlastEm | src/genesis/blastem.rs:4-17 | little-endian whatever the outcome; the RAM is `Wram` |
| GenesisBlastEm.BlastEmSkipsOtherRegions | src/genesis/blastem.rs:10 | removing a read-only or differently sized region changes nothing |
| GenesisFusion.Fusion | src/genesis/fusion.rs:6-21 | the u32 at `p + u8 at p + 3` with `p` = match + 1; big-endian only when both reads succeed, the byte order unchanged otherwise |
| GenesisGens.Gens | src/genesis/gens.rs:5-22 | the u32 at match + 11; the byte at match + 15 decides the byte order (big-endian exactly when it is 0x86); None when that byte is unreadable |
| GenesisGens.GensEndiannessBeforeRead | src/genesis/gens.rs:14-20 | the byte order is set even when the pointer read fails |
| GenesisRetroarch.MainModule | src/genesis/retroarch.rs:23-26 | the base of the first RetroArch name whose module address resolves |
| GenesisRetroarch.SelectCore | src/genesis/retroarch.rs:30-32 | the first supported core that is loaded, none before it |
| GenesisRetroarch.ScanCore | src/genesis/retroarch.rs:53-62 | 64-bit: the RIP-relative target at match + 3, with no dereference; 32-bit: the u32 at match + 1 |
| GenesisRetroarch.CoreWram | src/genesis/retroarch.rs:36-80 | BlastEm uses the region scan whatever the bitness; GPGX and Picodrive use `ScanCore` with their own signatures |
| GenesisRetroarch.CoreBase | src/genesis/retroarch.rs:34 | the value stored in `core_base`: the chosen core's base, once the main module and a core are found |
| GenesisRetroarch.Locate | src/genesis/retroarch.rs:12-81 | None with the byte order untouched unless the main module and a core are found; otherwise little-endian and the core's recipe, with the bitness from the main module |
| GenesisRetroarch.ScanCoreRipExact | src/genesis/retroarch.rs:55-57 | a 64-bit RAM address is the exact `m + 7 + disp32` |
| GenesisRetroarch.StaticData.constructor | src/genesis/retroarch.rs:4-6 | `core_base` starts at 0 |
| GenesisRetroarch.StaticData.Retroarch | src/genesis/retroarch.rs:12-81 | returns `Locate`; `core_base` is overwritten once a core is chosen, before any scan |
| GenesisRetroarch.StaticData.KeepAlive | src/genesis/retroarch.rs:83-86 | true exactly when a byte at `core_base` is readable |
| GenesisSegaClassics.Operand | src/genesis/segaclassics.rs:16-24 | Game Room's signature + 2 when its module resolves, with no fallback; otherwise Genesis Classics' + 8 |
| GenesisSegaClassics.SegaClassics | src/genesis/segaclassics.rs:6-32 | the double dereference of the operand; little-endian only on success |
| GenesisSegaClassics.GameRoomShadowsClassics | src/genesis/segaclassics.rs:16-19 | once Game Room resolves, the Classics module's address and size do not matter |
| GenesisSession.CoreBaseAfter | src/genesis.rs:36-44 | only the RetroArch recipe writes `core_base` |
| GenesisSession.KeepAlive | src/genesis.rs:46-54 | only RetroArch can lose its RAM; every other keep-alive is true |
| GenesisSession.Attached | src/genesis.rs:59-61 | attach is tried only while there is no session |
| GenesisSession.KeepStep | src/genesis.rs:80-82 | a failed keep-alive clears the RAM base |
| GenesisSession.Tick | src/genesis.rs:58-85 | true exactly when a session with a RAM base remains; no attach means no change; a closed process resets; locate only while no base is cached; a failed locate skips keep-alive; the emulator kind never changes |
| GenesisSession.TickStable | src/genesis.rs:58-85 | a ready session is a fixed point of the tick |
| GenesisSession.TickRelocatesAfterLoss | src/genesis.rs:72-82 | after a lost RAM, the next ready tick holds the newly located base |
| GenesisSession.LookForWram | src/genesis.rs:36-44 | the dispatched recipe's result, and the RetroArch anchor as `CoreBaseAfter` |
| GenesisSession.State.constructor | src/genesis.rs:9-11 | no session at start |
| GenesisSession.State.Init | src/genesis.rs:58-85 | the new session, anchor and return value are those of `Tick` |
| Ps1.AttachProcess | src/ps1.rs:25-33 | the emulator of the first `PROCESS_NAMES` entry that attaches, none before it; no RAM base |
| Ps1.AttachIgnoresLaterNames | src/ps1.rs:26 | names after the first one that attaches are never consulted |
| Ps1.ResolvedModuleFirst | src/ps1/duckstation.rs:15-18 | the module is the base and size of the first entry of that emulator whose address and size both resolve, and there is none exactly when no entry resolves |
| Ps1.NamesOfProcessNames | src/ps1.rs:158-166 | the names tried for each emulator are exactly its `PROCESS_NAMES` entries, in list order |
| Ps1.TickRateFor | src/ps1.rs:45-49 | fast exactly when the RAM was found |
| Ps1.AcceptedWindows | src/ps1.rs:123-125 | the accepted offsets are exactly 0..=0x1FFFFF and 0x80000000..=0x801FFFFF |
| Ps1.RamOffset | src/ps1.rs:137-143 | at most 0x1FFFFF; KSEG0 offsets have 0x80000000 subtracted, the others are kept |
| Ps1.Read | src/ps1.rs:122-146 | Err outside the windows, or without a session or RAM base; otherwise the raw bytes at `wram + offset`, with no byte-order conversion |
| Ps1.ReadMirrored | src/ps1.rs:137-145 | `o` and `o + 0x80000000` read the same bytes |
| Ps1.RamOffsetOnto | src/ps1.rs:137-145 | each byte of the 2 MiB RAM is reached from both windows |
| Ps1Epsxe.Epsxe | src/ps1/epsxe.rs:4-15 | the u32 at match + 5, with no dereference |
| Ps1PsxFin.FirstSig | src/ps1/psxfin.rs:18-28 | the first signature of the list that matches, none before it |
| Ps1PsxFin.Deref | src/ps1/psxfin.rs:30-36 | one more dereference, and 0 counts as not found |
| Ps1PsxFin.Search | src/ps1/psxfin.rs:18-36 | the first matching signature's operand (+2 for v1.13, +1 otherwise) is dereferenced twice; no fallback after a failed read |
| Ps1PsxFin.PsxFin | src/ps1/psxfin.rs:3-37 | None unless the module resolves; then `Search`; any result is nonzero |
| Ps1PsxFin.EarlierSignatureWins | src/ps1/psxfin.rs:18-19 | once v1.13's signature matches, the later ones are never consulted |
| Ps1Xebra.CallTarget | src/ps1/xebra.rs:12-13 | the CALL rel32 target `p + 4 + i32 at p` |
| Ps1Xebra.Chain | src/ps1/xebra.rs:14-16 | i32 at target + 0x16A, then the i32 it points at, sign-extended to u64 |
| Ps1Xebra.Xebra | src/ps1/xebra.rs:4-17 | the chain from `(match as i32) + 1`; the result lies below 2^31 or in the top 2 GiB |
| Ps1Xebra.XebraSignExtends | src/ps1/xebra.rs:16 | a negative i32 becomes 2^64 + value |
| Ps1Xebra.SmallMatchExact | src/ps1/xebra.rs:12 | a match below 2^31 survives the i32 cast |
| Ps1Retroarch.MainModule | src/ps1/retroarch.rs:23-26 | the base of the first RetroArch name whose module address resolves |
| Ps1Retroarch.SelectCore | src/ps1/retroarch.rs:30-32 | the first supported core that is loaded, none before it |
| Ps1Retroarch.RipPointer | src/ps1/retroarch.rs:38-44 | the u64 at the RIP-relative target of match + 3 |
| Ps1Retroarch.RipDoublePointer | src/ps1/retroarch.rs:71-78 | the RIP-relative target holds a u64 pointer to the u64 RAM address |
| Ps1Retroarch.OperandPointer | src/ps1/retroarch.rs:45-51 | the u32 at the u32 operand at match + k |
| Ps1Retroarch.CoreWram | src/ps1/retroarch.rs:36-89 | each core's 64- and 32-bit recipe, with operand offsets 1, 1 and 9 |
| Ps1Retroarch.CoreAddr | src/ps1/retroarch.rs:34 | the value stored in `core_addr`: the chosen core's base |
| Ps1Retroarch.Locate | src/ps1/retroarch.rs:12-90 | None unless RetroArch and a core resolve; otherwise the core's recipe, with the bitness from the main module |
| Ps1Retroarch.RipPointerExact | src/ps1/retroarch.rs:40-43 | the pointer cell is the exact `m + 7 + disp32` |
| Ps1Retroarch.StaticData.constructor | src/ps1/retroarch.rs:4-6 | `core_addr` starts at 0 |
| Ps1Retroarch.StaticData.Retroarch | src/ps1/retroarch.rs:12-90 | returns `Locate`; `core_addr` is overwritten once a core is chosen |
| Ps1Retroarch.StaticData.KeepAlive | src/ps1/retroarch.rs:92-95 | true exactly when a byte at `core_addr` is readable |
| Ps1PcsxRedux.Locate64 | src/ps1/pcsx_redux.rs:28-43 | the bitness field is untouched; no match writes nothing |
| Ps1PcsxRedux.Locate32 | src/ps1/pcsx_redux.rs:44-58 | the bitness field is untouched |
| Ps1PcsxRedux.Locate64Writes | src/ps1/pcsx_redux.rs:32-35 | `addr_base` = match + 2 is written before the cell is read, and `addr` as soon as the cell is read, whatever fails later |
| Ps1PcsxRedux.Locate64Result | src/ps1/pcsx_redux.rs:32-43 | with both signatures matching, the RAM is the u64 at the u64 at `addr + u8 at m1 + 8` (`addr` the u64 at m0 + 2), and none exactly where one of those reads fails |
| Ps1PcsxRedux.Locate64NoOffset | src/ps1/pcsx_redux.rs:37 | no match of the offset signature gives no RAM |
| Ps1PcsxRedux.Locate32Spec | src/ps1/pcsx_redux.rs:47-57 | the first writable region's match decides; `addr_base` = m + 2 and the result is the zero-extended u32 there, also stored in `addr` |
| Ps1PcsxRedux.Locate | src/ps1/pcsx_redux.rs:16-59 | nothing is written unless the module resolves; then the bitness is stored, and the result and statics are the 64-bit branch's over the module when the header says 64-bit, the 32-bit branch's otherwise |
| Ps1PcsxRedux.KeepAlive | src/ps1/pcsx_redux.rs:61-74 | false while `addr_base` is 0; otherwise the u64 (64-bit) or zero-extended u32 at `addr_base` reads and equals `addr` |
| Ps1PcsxRedux.KeepAliveAfterLocate | src/ps1/pcsx_redux.rs:61-74 | on unchanged memory, a successful search leaves static data the keep-alive accepts |
| Ps1PcsxRedux.StaticData.constructor | src/ps1/pcsx_redux.rs:4-8 | 32-bit, `addr_base` 0 and `addr` 0 at start |
| Ps1PcsxRedux.StaticData.PcsxRedux | src/ps1/pcsx_redux.rs:16-59 | the result and the new static fields are those of `Locate` |
| Ps1PcsxRedux.StaticData.Search64 | src/ps1/pcsx_redux.rs:28-43 | the result and the new static fields are those of `Locate64` |
| Ps1PcsxRedux.StaticData.Search32 | src/ps1/pcsx_redux.rs:44-58 | the result and the new static fields are those of `Locate32` |
| Ps1Duckstation.Anchor | src/ps1/duckstation.rs:15-21 | the RIP-relative target at match + 3 in the first resolving DuckStation module |
| Ps1Duckstation.Locate | src/ps1/duckstation.rs:25-27 | the u64 at the anchor, None exactly when it is unreadable |
| Ps1Duckstation.KeepAlive | src/ps1/duckstation.rs:30-39 | true exactly when the u64 at the anchor reads; it then replaces the RAM base, otherwise the session is unchanged |
| Ps1Duckstation.KeepAliveAfterLocate | src/ps1/duckstation.rs:30-39 | right after a search, the keep-alive succeeds and keeps the base just found |
| Ps1Duckstation.StaticData.constructor | src/ps1/duckstation.rs:3-5 | the anchor starts at 0 |
| Ps1Duckstation.StaticData.Duckstation | src/ps1/duckstation.rs:11-28 | returns `Locate`; the anchor is stored before it is dereferenced |
| Ps1Session.Located | src/ps1.rs:35-43 | only the chosen recipe's static data changes |
| Ps1Session.KeepAlive | src/ps1.rs:54-63 | ePSXe, pSX and XEBRA always keep their RAM; the other three use their own checks; only DuckStation's changes the session |
| Ps1Session.Attached | src/ps1.rs:68-70 | attach is tried only while there is no session |
| Ps1Session.KeepStep | src/ps1.rs:89-91 | a failed keep-alive clears the RAM base |
| Ps1Session.Tick | src/ps1.rs:67-94 | true exactly when a session with a RAM base remains; a closed process resets; locate only while no base is cached, and then the tick rate follows its result; the emulator kind never changes |
| Ps1Session.FoundIsReady | src/ps1.rs:81-93 | for every emulator but RetroArch, a successful search makes the tick return true |
| Ps1Session.TickStable | src/ps1.rs:67-94 | a ready session is a fixed point of the tick |
| Ps1Session.State.constructor | src/ps1.rs:10-12 | no session, no tick rate requested, and every recipe's static data at its initial value |
| Ps1Session.State.LookForWram | src/ps1.rs:35-52 | the recipe's result and static data are those of `Located`; the tick rate is fast exactly when the RAM was found |
| Ps1Session.State.RunRecipe | src/ps1.rs:36-43 | the dispatched recipe's result and static data are those of `Located`, and only that recipe's static data changes |
| Ps1Session.State.Init | src/ps1.rs:67-94 | the new session, tick rate, static data and return value are those of `Tick` |
| Wii.AttachProcess | src/wii.rs:27-39 | a session exactly when Dolphin.exe attaches, with no banks and big-endian |
| Wii.Mem1Offset | src/wii.rs:147-151 | at most 0x017FFFFF; the high form has 0x80000000 subtracted |
| Wii.Mem2Offset | src/wii.rs:179 | at most 0x03FFFFFF; `address - 0x90000000` |
| Wii.ReadAt | src/wii.rs:153-154 | succeeds exactly when the bytes are readable; a big-endian session reads them most significant first |
| Wii.ReadFromMem1 | src/wii.rs:136-155 | Err outside MEM1's windows or without MEM1; otherwise exactly the read at MEM1 + offset, byte order applied |
| Wii.ReadFromMem2 | src/wii.rs:168-183 | Err outside 0x90000000..=0x93FFFFFF or without MEM2; otherwise exactly the read at MEM2 + offset, byte order applied |
| Wii.Read | src/wii.rs:108-123 | Err outside the three windows before any state is consulted; MEM1's windows go to `read_from_mem_1` and MEM2's to `read_from_mem_2` |
| Wii.AcceptedWindows | src/wii.rs:109-122 | the accepted addresses are exactly the three windows, each routed to a bank function that accepts it |
| Wii.Mem1Mirrored | src/wii.rs:147-153 | `a` and `a + 0x80000000` read the same value for `a <= 0x017FFFFF` |
| Wii.Boundaries | src/wii.rs:139-179 | 0x817FFFFF is MEM1's last byte, 0x81800000 is refused, 0x90000000 is MEM2's offset 0 |
| Wii.Mem2RefusesOffsets | src/wii.rs:171-173 | `read_from_mem_2` refuses offsets up to 0x03FFFFFF |
| Wii.BigEndianSwaps | src/wii.rs:154 | a big-endian read succeeds exactly when the little-endian one does, and its value is the byte-swap of the little-endian value (and swaps back to it) |
| WiiDolphin.Step | src/wii/dolphin.rs:12-35 | MEM2 is taken at most once; each 32 MiB region replaces MEM1; the loop exits once both are known or at the cut-off |
| WiiDolphin.Result | src/wii/dolphin.rs:39-43 | both banks or neither; 0 counts as not found |
| WiiDolphin.Discover | src/wii/dolphin.rs:39-43 | never a partial result |
| WiiDolphin.RunOrigins | src/wii/dolphin.rs:16-28 | each address found is the start value or the address of a region of its bank's size |
| WiiDolphin.DiscoverSizes | src/wii/dolphin.rs:16-28 | on success, MEM1 is a 0x2000000-byte region's address and MEM2 a 0x4000000-byte region's |
| WiiDolphin.RunFromReached | src/wii/dolphin.rs:11-36 | the loop from region 0 is the loop resumed wherever it has reached |
| WiiDolphin.TooFarEndsSearch | src/wii/dolphin.rs:16-20 | a 64 MiB region more than 0x10000000 above the MEM1 candidate ends the scan with nothing found |
| WiiDolphin.Mem2AcceptedUnchecked | src/wii/dolphin.rs:16-22 | before any MEM1 candidate, a 64 MiB region is taken unchecked |
| WiiDolphin.ReachedInvariant | src/wii/dolphin.rs:16-35 | the loop never continues with both known, and MEM2 never changes once set |
| WiiDolphin.NearPairFound | src/wii/dolphin.rs:11-43 | a 32 MiB region followed by a 64 MiB one within reach gives both banks |
| WiiDolphin.FarPairNotFound | src/wii/dolphin.rs:16-20 | the same pair out of reach gives neither |
| WiiDolphin.Dolphin | src/wii/dolphin.rs:3-45 | the loop computes `Discover` over the memory ranges; big-endian unconditionally; both or neither |
| WiiDolphin.KeepAlive | src/wii/dolphin.rs:47-52 | false when either bank is missing; otherwise true exactly when a byte at each base is readable |
| WiiSession.Located | src/wii.rs:41-45 | the banks `dolphin` finds, with the byte order set to big-endian |
| WiiSession.Attached | src/wii.rs:56-58 | attach is tried only while there is no session |
| WiiSession.KeepStep | src/wii.rs:77-80 | a failed keep-alive clears both banks |
| WiiSession.Tick | src/wii.rs:55-83 | true exactly when both banks are known; a closed process resets; both banks are relocated when either is missing, and a partial result ends the tick; the banks stay all or nothing |
| WiiSession.AlwaysBigEndian | src/wii.rs:37 | the session stays big-endian from attach on |
| WiiSession.FoundIsReady | src/wii.rs:69-82 | a successful search on readable regions makes the tick return true |
| WiiSession.TickStable | src/wii.rs:55-83 | a ready session is a fixed point of the tick |
| WiiSession.State.constructor | src/wii.rs:10-12 | no session at start |
| WiiSession.State.Init | src/wii.rs:55-83 | the new session and return value are those of `Tick` |

## Left out

- The asr library's internals: `Process::attach`, `is_open`, `read`, module lookup, `memory_ranges` and the signature scanner. They are inputs: a set of attachable names, the `Host.Process` view of one tick, and a reference scanner.
- The `Mutex`/spinlock guards around `STATE` and `STATICDATA`. The model is single-threaded, with plain fields and classes.
- `asr::set_tick_rate(120.0)` and `(0.4)`: floating point. Modelled as the two-valued `TickRate` (Fast/Slow).
- `CheckedBitPattern` genericity: reads are modelled at fixed widths (u8, u16, u32, u64, i32 and byte strings).
- Integer-overflow panics, for example `mem_1_addr + 0x10000000` at src/wii/dolphin.rs:18 and the i64 sums of the RIP-relative recipes: the model's sums are exact. Explicit `as` casts are modelled by `ToU64`/`ToI32`.
- The byte-order enum is spelled `Endianess` in src/genesis/gens.rs, src/genesis/fusion.rs and src/genesis/segaclassics.rs, but `Endianness` in src/genesis.rs. The model has one two-valued type.
- GenesisSession.KeepAlive: src/genesis.rs:50 passes an argument to `fusion::keep_alive`, which takes none (src/genesis/fusion.rs:23). The model follows the callee and answers true.
- The genesis reads make no range check on the offset; none is modelled.
- Wii.ReadFromMem2: the doc comment at src/wii.rs:166 says addresses up to 0x03FFFFFF are offsets into MEM2, but the code refuses them (src/wii.rs:171). The model follows the code.
- `update()` and the feature gating in src/lib.rs only take the lock and call `init`; `Init` is modelled directly.
