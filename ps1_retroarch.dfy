/** src/ps1/retroarch.rs: locating the RAM of a PlayStation core running inside
    RetroArch, and the `core_addr` anchor its keep-alive probes. */
module Ps1Retroarch {
  import opened Wrappers
  import opened Host
  import opened Signature
  import opened Ps1
  import Shared
  import X86

  /** The cores tried, in this order: Beetle PSX HW, Beetle PSX, SwanStation and
      PCSX ReARMed. */
  const SupportedCores: seq<string> := [
    "mednafen_psx_hw_libretro.dll",
    "mednafen_psx_libretro.dll",
    "swanstation_libretro.dll",
    "pcsx_rearmed_libretro.dll"
  ]

  /** Beetle PSX, 64-bit: `48 8B 05 ?? ?? ?? ?? 41 81 E4 FF FF 1F 00` (a RIP-relative MOV). */
  const MednafenSig64: Pattern := Bytes([0x48, 0x8B, 0x05]) + Wild(4) + Bytes([0x41, 0x81, 0xE4, 0xFF, 0xFF, 0x1F, 0x00])

  /** Beetle PSX, 32-bit: `A1 ?? ?? ?? ?? 81 E3 FF FF 1F 00`. */
  const MednafenSig32: Pattern := Bytes([0xA1]) + Wild(4) + Bytes([0x81, 0xE3, 0xFF, 0xFF, 0x1F, 0x00])

  /** SwanStation, 64-bit: `48 89 0D ?? ?? ?? ?? 89 35 ?? ?? ?? ?? 89 3D` (a RIP-relative MOV). */
  const SwanSig64: Pattern := Bytes([0x48, 0x89, 0x0D]) + Wild(4) + Bytes([0x89, 0x35]) + Wild(4) + Bytes([0x89, 0x3D])

  /** SwanStation, 32-bit: `A1 ?? ?? ?? ?? 23 CB 8B`. */
  const SwanSig32: Pattern := Bytes([0xA1]) + Wild(4) + Bytes([0x23, 0xCB, 0x8B])

  /** PCSX ReARMed, 64-bit: `48 8B 35 ?? ?? ?? ?? 81 E2` (a RIP-relative MOV). */
  const RearmedSig64: Pattern := Bytes([0x48, 0x8B, 0x35]) + Wild(4) + Bytes([0x81, 0xE2])

  /** PCSX ReARMed, 32-bit: `FF FF 1F 00 89 ?? ?? ?? A1`; the operand follows the match. */
  const RearmedSig32: Pattern := Bytes([0xFF, 0xFF, 0x1F, 0x00, 0x89]) + Wild(3) + Bytes([0xA1])

  /** The address of RetroArch's main module: the first `ProcessNames` entry of the
      RetroArch kind whose module address resolves. */
  function MainModule(host: Process): (r: Option<nat>)
    ensures r.None? <==> forall i :: 0 <= i < |NamesOf(Retroarch)| ==> NamesOf(Retroarch)[i] !in host.moduleBase
    ensures r.Some? ==> exists i :: 0 <= i < |NamesOf(Retroarch)| && NamesOf(Retroarch)[i] in host.moduleBase
                                    && r.value == host.moduleBase[NamesOf(Retroarch)[i]]
  {
    var i :- FirstLoaded(host, NamesOf(Retroarch));
    Some(host.moduleBase[NamesOf(Retroarch)[i]])
  }

  /** The supported core that is used: the first of `SupportedCores` that is loaded. */
  function SelectCore(host: Process): (r: Option<nat>)
    ensures r.None? <==> forall i :: 0 <= i < |SupportedCores| ==> SupportedCores[i] !in host.moduleBase
    ensures r.Some? ==> r.value < |SupportedCores| && SupportedCores[r.value] in host.moduleBase
    ensures r.Some? ==> forall j :: 0 <= j < r.value ==> SupportedCores[j] !in host.moduleBase
  {
    FirstLoaded(host, SupportedCores)
  }

  /** The 64-bit recipe of Beetle PSX and SwanStation: the RAM address is the u64
      stored at the target of the RIP-relative operand at match + 3. */
  function RipPointer(host: Process, name: string, sig: Pattern): (r: Option<nat>)
    ensures NoModuleMatch(host, name, sig) ==> r.None?
    ensures forall m: nat :: ModuleMatch(host, name, sig, m) ==>
      && (X86.RipTarget(host, m + 3).None? ==> r.None?)
      && (X86.RipTarget(host, m + 3).Some? ==> r == U64At(host, X86.RipTarget(host, m + 3).value))
  {
    match ScanModule(host, name, sig)
    case None => None
    case Some(m) =>
      match X86.RipTarget(host, m + 3)
      case None => None
      case Some(t) => U64At(host, t)
  }

  /** The 64-bit recipe of PCSX ReARMed: the RIP-relative target holds a u64 pointer,
      and the u64 it points at is the RAM address. */
  function RipDoublePointer(host: Process, name: string, sig: Pattern): (r: Option<nat>)
    ensures NoModuleMatch(host, name, sig) ==> r.None?
    ensures forall m: nat :: ModuleMatch(host, name, sig, m) ==>
      var t := X86.RipTarget(host, m + 3);
      && (t.None? ==> r.None?)
      && (t.Some? && U64At(host, t.value).None? ==> r.None?)
      && (t.Some? && U64At(host, t.value).Some? ==> r == U64At(host, U64At(host, t.value).value))
    ensures r.Some? ==> r.value < U64_LIMIT
  {
    match RipPointer(host, name, sig)
    case None => None
    case Some(ptr) => U64At(host, ptr)
  }

  /** The 32-bit recipe: the u32 operand at match + `k` points at the u32 RAM address
      (both zero-extended). */
  function OperandPointer(host: Process, name: string, sig: Pattern, k: nat): (r: Option<nat>)
    ensures NoModuleMatch(host, name, sig) ==> r.None?
    ensures forall m: nat :: ModuleMatch(host, name, sig, m) ==> r == DoubleDeref(host, m + k)
    ensures r.Some? ==> r.value < U32_LIMIT
  {
    match ScanModule(host, name, sig)
    case None => None
    case Some(m) => DoubleDeref(host, m + k)
  }

  /** The recipe of each core (index into `SupportedCores`) for the given bitness. */
  function CoreWram(host: Process, core: nat, is64: bool): (r: Option<nat>)
    requires core < |SupportedCores|
    ensures core <= 1 && is64 ==> r == RipPointer(host, SupportedCores[core], MednafenSig64)
    ensures core <= 1 && !is64 ==> r == OperandPointer(host, SupportedCores[core], MednafenSig32, 1)
    ensures core == 2 && is64 ==> r == RipPointer(host, SupportedCores[core], SwanSig64)
    ensures core == 2 && !is64 ==> r == OperandPointer(host, SupportedCores[core], SwanSig32, 1)
    ensures core == 3 && is64 ==> r == RipDoublePointer(host, SupportedCores[core], RearmedSig64)
    ensures core == 3 && !is64 ==> r == OperandPointer(host, SupportedCores[core], RearmedSig32, 9)
  {
    var name := SupportedCores[core];
    if core <= 1 then
      if is64 then RipPointer(host, name, MednafenSig64) else OperandPointer(host, name, MednafenSig32, 1)
    else if core == 2 then
      if is64 then RipPointer(host, name, SwanSig64) else OperandPointer(host, name, SwanSig32, 1)
    else
      if is64 then RipDoublePointer(host, name, RearmedSig64) else OperandPointer(host, name, RearmedSig32, 9)
  }

  /** The value `retroarch` stores in `core_addr`: the chosen core's address, once the
      main module and a core have been found, before any scan. */
  function CoreAddr(host: Process): (r: Option<nat>)
    ensures r.Some? <==> MainModule(host).Some? && SelectCore(host).Some?
    ensures r.Some? ==> r.value == host.moduleBase[SupportedCores[SelectCore(host).value]]
  {
    var _ :- MainModule(host);
    var core :- SelectCore(host);
    Some(host.moduleBase[SupportedCores[core]])
  }

  /** `retroarch::retroarch` without its write to `core_addr`. The bitness comes from
      the PE header of RetroArch's main module. */
  function Locate(host: Process): (r: Option<nat>)
    ensures MainModule(host).None? || SelectCore(host).None? ==> r.None?
    ensures MainModule(host).Some? && SelectCore(host).Some? ==>
      r == CoreWram(host, SelectCore(host).value, Shared.CheckFor64Bit(host, MainModule(host).value))
  {
    var main :- MainModule(host);
    var core :- SelectCore(host);
    CoreWram(host, core, Shared.CheckFor64Bit(host, main))
  }

  /** A 64-bit Beetle PSX or SwanStation build whose displacement lands inside the
      address space reads the RAM address at exactly match + 7 + displacement. */
  lemma RipPointerExact(host: Process, name: string, sig: Pattern, m: nat)
    requires ModuleMatch(host, name, sig, m)
    requires Readable(host, m + 3, 4) && 0 <= m + 7 + I32At(host, m + 3).value < U64_LIMIT
    ensures RipPointer(host, name, sig) == U64At(host, m + 7 + I32At(host, m + 3).value)
  {
    X86.RipTargetExact(host, m + 3);
  }

  /** `STATICDATA`: the chosen core's base address, written by `retroarch` and read by
      `keep_alive`. */
  class StaticData {
    var coreAddr: nat

    constructor()
      ensures coreAddr == 0
    {
      coreAddr := 0;
    }

    /** `retroarch::retroarch`: `core_addr` is overwritten as soon as a core is chosen,
        even when the scan that follows fails. */
    method Retroarch(host: Process) returns (r: Option<nat>)
      modifies this
      ensures r == Locate(host)
      ensures coreAddr == (if CoreAddr(host).Some? then CoreAddr(host).value else old(coreAddr))
    {
      var base := CoreAddr(host);
      if base.Some? {
        coreAddr := base.value;
      }
      r := Locate(host);
    }

    /** `retroarch::keep_alive`: the core is still mapped at `core_addr`. */
    function KeepAlive(host: Process): (r: bool)
      reads this
      ensures r <==> coreAddr in host.mem
    {
      Probe(host, coreAddr)
    }
  }
}
