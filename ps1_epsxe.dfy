/** src/ps1/epsxe.rs: locating the RAM of ePSXe. */
module Ps1Epsxe {
  import opened Wrappers
  import opened Host
  import opened Signature

  const Name: string := "ePSXe.exe"

  /** `C1 E1 10 8D 89` */
  const Sig: Pattern := Bytes([0xC1, 0xE1, 0x10, 0x8D, 0x89])

  /** `epsxe::epsxe`: the RAM address is the u32 operand right after the match, that
      is at match + 5, zero-extended and not dereferenced further. */
  function Epsxe(host: Process): (r: Option<nat>)
    ensures NoModuleMatch(host, Name, Sig) ==> r.None?
    ensures forall m: nat :: ModuleMatch(host, Name, Sig, m) ==> r == U32At(host, m + |Sig|)
    ensures r.Some? ==> r.value < U32_LIMIT
  {
    match ScanModule(host, Name, Sig)
    case None => None
    case Some(m) => U32At(host, m + 5)
  }
}
