/** src/genesis/retroarch.rs: locating the RAM of a Genesis core running inside
    RetroArch, and the `core_base` anchor its keep-alive probes. */
module GenesisRetroarch {
  import opened Wrappers
  import opened Host
  import opened Signature
  import opened Genesis
  import Shared
  import X86
  import GenesisBlastEm

  /** The cores tried, in this order. */
  const SupportedCores: seq<string> := [
    "blastem_libretro.dll",
    "genesis_plus_gx_libretro.dll",
    "genesis_plus_gx_wide_libretro.dll",
    "picodrive_libretro.dll"
  ]

  /** Genesis Plus GX, 64-bit: `48 8D 0D ?? ?? ?? ?? 4C 8B 2D` (a RIP-relative LEA). */
  const GpgxSig64: Pattern := Bytes([0x48, 0x8D, 0x0D]) + Wild(4) + Bytes([0x4C, 0x8B, 0x2D])

  /** Genesis Plus GX, 32-bit: `A3 ?? ?? ?? ?? 29 F9`. */
  const GpgxSig32: Pattern := Bytes([0xA3]) + Wild(4) + Bytes([0x29, 0xF9])

  /** Picodrive, 64-bit: `48 8D 0D ?? ?? ?? ?? 41 B8` (a RIP-relative LEA). */
  const PicoSig64: Pattern := Bytes([0x48, 0x8D, 0x0D]) + Wild(4) + Bytes([0x41, 0xB8])

  /** Picodrive, 32-bit: `B9 ?? ?? ?? ?? C1 EF 10`. */
  const PicoSig32: Pattern := Bytes([0xB9]) + Wild(4) + Bytes([0xC1, 0xEF, 0x10])

  /** The address of RetroArch's main module: the first `ProcessNames` entry of the
      RetroArch kind whose module address resolves. */
  function MainModule(host: Process): (r: Option<nat>)
    ensures r.None? <==> forall i :: 0 <= i < |NamesOf(Retroarch)| ==> NamesOf(Retroarch)[i] !in host.moduleBase
    ensures r.Some? ==> exists i :: 0 <= i < |NamesOf(Retroarch)| && NamesOf(Retroarch)[i] in host.moduleBase
                                    && r.value == host.moduleBase[NamesOf(Retroarch)[i]]
  {
    var i :- FirstLoaded(host, NamesOf(Retroarch));
    Some(host.moduleBase[NamesOf(Retroarch)[i]])
  }

  /** The supported core that is used: the first of `SupportedCores` that is loaded. */
  function SelectCore(host: Process): (r: Option<nat>)
    ensures r.None? <==> forall i :: 0 <= i < |SupportedCores| ==> SupportedCores[i] !in host.moduleBase
    ensures r.Some? ==> r.value < |SupportedCores| && SupportedCores[r.value] in host.moduleBase
    ensures r.Some? ==> forall j :: 0 <= j < r.value ==> SupportedCores[j] !in host.moduleBase
  {
    FirstLoaded(host, SupportedCores)
  }

  /** The recipe shared by Genesis Plus GX and Picodrive: scan the core's own module
      (whose size must then resolve) with the 64-bit or the 32-bit signature. In a
      64-bit build the RAM address is the target of the RIP-relative LEA, not
      dereferenced; in a 32-bit build it is the u32 immediate after the opcode byte. */
  function ScanCore(host: Process, name: string, sig64: Pattern, sig32: Pattern, is64: bool): (r: Option<nat>)
    ensures is64 ==>
      && (NoModuleMatch(host, name, sig64) ==> r.None?)
      && forall m: nat :: ModuleMatch(host, name, sig64, m) ==> r == X86.RipTarget(host, m + 3)
    ensures !is64 ==>
      && (NoModuleMatch(host, name, sig32) ==> r.None?)
      && forall m: nat :: ModuleMatch(host, name, sig32, m) ==> r == U32At(host, m + 1)
  {
    if is64 then
      match ScanModule(host, name, sig64)
      case None => None
      case Some(m) => X86.RipTarget(host, m + 3)
    else
      match ScanModule(host, name, sig32)
      case None => None
      case Some(m) => U32At(host, m + 1)
  }

  /** The recipe of each core (index into `SupportedCores`). BlastEm's region scan does
      not look at the bitness. */
  function CoreWram(host: Process, core: nat, is64: bool): (r: Option<nat>)
    requires core < |SupportedCores|
    ensures core == 0 ==> r == GenesisBlastEm.Wram(host)
    ensures core == 1 || core == 2 ==> r == ScanCore(host, SupportedCores[core], GpgxSig64, GpgxSig32, is64)
    ensures core == 3 ==> r == ScanCore(host, SupportedCores[core], PicoSig64, PicoSig32, is64)
  {
    if core == 0 then GenesisBlastEm.Wram(host)
    else if core == 1 || core == 2 then ScanCore(host, SupportedCores[core], GpgxSig64, GpgxSig32, is64)
    else ScanCore(host, SupportedCores[core], PicoSig64, PicoSig32, is64)
  }

  /** The value `retroarch` stores in `core_base`: the chosen core's address, once the
      main module and a core have been found, before any scan. */
  function CoreBase(host: Process): (r: Option<nat>)
    ensures r.Some? <==> MainModule(host).Some? && SelectCore(host).Some?
    ensures r.Some? ==> r.value == host.moduleBase[SupportedCores[SelectCore(host).value]]
  {
    var _ :- MainModule(host);
    var core :- SelectCore(host);
    Some(host.moduleBase[SupportedCores[core]])
  }

  /** `retroarch::retroarch` without its write to `core_base`: every supported core
      sets little-endian before its scan (so a failed scan still leaves it), and the
      bitness comes from the PE header of RetroArch's main module. */
  function Locate(host: Process, e: Endianness): (r: Outcome)
    ensures MainModule(host).None? || SelectCore(host).None? ==> r == Outcome(None, e)
    ensures MainModule(host).Some? && SelectCore(host).Some? ==>
      r == Outcome(CoreWram(host, SelectCore(host).value, Shared.CheckFor64Bit(host, MainModule(host).value)), LittleEndian)
  {
    match MainModule(host)
    case None => Outcome(None, e)
    case Some(main) =>
      var is64 := Shared.CheckFor64Bit(host, main);
      match SelectCore(host)
      case None => Outcome(None, e)
      case Some(core) => Outcome(CoreWram(host, core, is64), LittleEndian)
  }

  /** In a 64-bit build the RAM address is the LEA target itself: a displacement
      that lands inside the address space gives exactly match + 7 + displacement. */
  lemma ScanCoreRipExact(host: Process, name: string, sig64: Pattern, sig32: Pattern, m: nat)
    requires ModuleMatch(host, name, sig64, m)
    requires Readable(host, m + 3, 4) && 0 <= m + 7 + I32At(host, m + 3).value < U64_LIMIT
    ensures ScanCore(host, name, sig64, sig32, true) == Some(m + 7 + I32At(host, m + 3).value)
  {
    X86.RipTargetExact(host, m + 3);
  }

  /** `STATICDATA`: the core's base address, written by `retroarch` and read by
      `keep_alive`. */
  class StaticData {
    var coreBase: nat

    constructor()
      ensures coreBase == 0
    {
      coreBase := 0;
    }

    /** `retroarch::retroarch`: `core_base` is overwritten as soon as a core is chosen,
        even when the scan that follows fails. */
    method Retroarch(host: Process, e: Endianness) returns (r: Outcome)
      modifies this
      ensures r == Locate(host, e)
      ensures coreBase == (if CoreBase(host).Some? then CoreBase(host).value else old(coreBase))
    {
      var base := CoreBase(host);
      if base.Some? {
        coreBase := base.value;
      }
      r := Locate(host, e);
    }

    /** `retroarch::keep_alive`: the core is still mapped at `core_base`. */
    function KeepAlive(host: Process): (r: bool)
      reads this
      ensures r <==> coreBase in host.mem
    {
      Probe(host, coreBase)
    }
  }
}
