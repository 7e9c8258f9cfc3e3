/** src/genesis/gens.rs: locating the RAM of Gens. */
module GenesisGens {
  import opened Wrappers
  import opened Host
  import opened Signature
  import opened Genesis

  const Name: string := "gens.exe"

  /** `72 ?? 81 ?? FF FF 00 00 66 8B ?? ????????` */
  const Sig: Pattern := [Exact(0x72), Any, Exact(0x81), Any] + Bytes([0xFF, 0xFF, 0x00, 0x00, 0x66, 0x8B]) + Wild(5)

  /** `gens::gens`. The RAM pointer is the operand at match + 11; the opcode byte at
      match + 15 selects the endianness (0x86: big-endian), which is written before
      the pointer is read and so survives a failed read. The pointer is zero-extended. */
  function Gens(host: Process, e: Endianness): (r: Outcome)
    ensures NoModuleMatch(host, Name, Sig) ==> r == Outcome(None, e)
    ensures forall m: nat :: ModuleMatch(host, Name, Sig, m) ==>
      && (m + 15 !in host.mem ==> r == Outcome(None, e))
      && (m + 15 in host.mem ==>
            && r.wram == U32At(host, m + 11)
            && (r.endianness == BigEndian <==> host.mem[m + 15] == 0x86))
    ensures r.wram.Some? ==> r.wram.value < U32_LIMIT
  {
    match ScanModule(host, Name, Sig)
    case None => Outcome(None, e)
    case Some(m) =>
      var ptr := m + 11;
      match U8At(host, ptr + 4)
      case None => Outcome(None, e)
      case Some(op) =>
        var e' := if op == 0x86 then BigEndian else LittleEndian;
        Outcome(U32At(host, ptr), e')
  }

  /** The endianness depends on the opcode byte alone: a readable byte at match + 15
      sets it even when the RAM pointer at match + 11 cannot be read. */
  lemma GensEndiannessBeforeRead(host: Process, e: Endianness, m: nat)
    requires ModuleMatch(host, Name, Sig, m)
    requires m + 15 in host.mem && !Readable(host, m + 11, 4)
    ensures Gens(host, e).wram == None
    ensures Gens(host, e).endianness == (if host.mem[m + 15] == 0x86 then BigEndian else LittleEndian)
  {
  }
}
