/** src/genesis/fusion.rs: locating the RAM of Kega Fusion. */
module GenesisFusion {
  import opened Wrappers
  import opened Host
  import opened Signature
  import opened Genesis

  const Name: string := "Fusion.exe"

  /** `75 2F 6A 01` */
  const Sig: Pattern := Bytes([0x75, 0x2F, 0x6A, 0x01])

  /** `fusion::fusion`. With `p` = match + 1, the byte at `p` (unsigned) locates the
      RAM pointer at `p + byte + 3`; the pointer is zero-extended. Big-endian is set
      only once both reads have succeeded. */
  function Fusion(host: Process, e: Endianness): (r: Outcome)
    ensures NoModuleMatch(host, Name, Sig) ==> r == Outcome(None, e)
    ensures forall m: nat :: ModuleMatch(host, Name, Sig, m) ==>
      && (m + 1 !in host.mem ==> r == Outcome(None, e))
      && (m + 1 in host.mem ==> r.wram == U32At(host, m + 1 + host.mem[m + 1] + 3))
    ensures r.wram.Some? ==> r.endianness == BigEndian
    ensures r.wram.None? ==> r.endianness == e
    ensures r.wram.Some? ==> r.wram.value < U32_LIMIT
  {
    match ScanModule(host, Name, Sig)
    case None => Outcome(None, e)
    case Some(m) =>
      var ptr := m + 1;
      match U8At(host, ptr)
      case None => Outcome(None, e)
      case Some(rel) =>
        match U32At(host, ptr + rel + 3)
        case None => Outcome(None, e)
        case Some(wram) => Outcome(Some(wram), BigEndian)
  }
}
