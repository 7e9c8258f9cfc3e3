/** src/genesis/blastem.rs: locating the RAM of BlastEm. The same scan is reused by the
    BlastEm core of RetroArch. */
module GenesisBlastEm {
  import opened Wrappers
  import opened Host
  import opened Signature
  import opened Genesis

  /** `72 0E 81 E1 FF FF 00 00 66 8B 89 ?? ?? ?? ?? C3` */
  const Sig: Pattern := Bytes([0x72, 0x0E, 0x81, 0xE1, 0xFF, 0xFF, 0x00, 0x00, 0x66, 0x8B, 0x89]) + Wild(4) + Bytes([0xC3])

  /** BlastEm's RAM lives in a writable mapping of exactly this size. */
  const RegionSize: nat := 0x101000

  const Filter: RegionFilter := WritableOfSize(RegionSize)

  /** The scan of the writable 0x101000-byte regions, then the u32 at match + 11. The
      first region with a match decides; the regions after it are never scanned. */
  function Wram(host: Process): (r: Option<nat>)
    ensures ScanRegions(host, Sig, Filter).None? ==> r.None?
    ensures forall m: nat :: RegionMatch(host, Sig, Filter, m) ==> r == U32At(host, m + 11)
    ensures r.Some? ==> r.value < U32_LIMIT
  {
    ScanRegionsSpec(host, Sig, Filter);
    match ScanRegions(host, Sig, Filter)
    case None => None
    case Some(m) => U32At(host, m + 11)
  }

  /** `blastem::blastem`: little-endian is set before anything else is tried. */
  function BlastEm(host: Process): (r: Outcome)
    ensures r.endianness == LittleEndian
    ensures r.wram == Wram(host)
  {
    Outcome(Wram(host), LittleEndian)
  }

  /** Regions that the filter turns away (read-only, or of another size) have no
      influence on the result: dropping one changes nothing. */
  lemma BlastEmSkipsOtherRegions(host: Process, k: nat)
    requires k < |host.regions| && !Admits(Filter, host.regions[k])
    ensures Wram(host.(regions := host.regions[..k] + host.regions[k + 1..])) == Wram(host)
  {
    ScanRegionsSkip(host, Sig, Filter, k);
  }
}
