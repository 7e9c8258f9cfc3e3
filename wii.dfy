/** src/wii.rs: the Wii session's data, the emulator it recognises and the reads it
    serves. The console has two RAM banks: MEM1 (24 MiB) answers at 0x80000000 and,
    as an offset, at 0; MEM2 (64 MiB) answers at 0x90000000. Values are stored in the
    console's big-endian order. */
module Wii {
  import opened Wrappers
  import opened Host
  import opened Sequences

  datatype Emulator = Dolphin

  /** One attached emulator: its kind, the two cached bank bases and the byte order of
      the values read. The process handle itself is the `Process` view passed to each
      operation. */
  datatype ProcessInfo = ProcessInfo(emulator: Emulator, mem1: Option<nat>, mem2: Option<nat>, endianness: Endian)

  /** Process names tried by attach, in priority order. */
  const ProcessNames: seq<(string, Emulator)> := [("Dolphin.exe", Dolphin)]

  /** `ProcessInfo::attach_process`: the first name `Process::attach` succeeds for
      (`running` is the set of those names); the list holds Dolphin alone. The banks
      are not yet located and the byte order is big-endian. */
  function AttachProcess(running: set<string>): (r: Option<ProcessInfo>)
    ensures r.Some? <==> "Dolphin.exe" in running
    ensures r.Some? ==> r.value == ProcessInfo(Dolphin, None, None, Big)
  {
    var i := FirstIndex(ProcessNames, (n: (string, Emulator)) => n.0 in running);
    if i == |ProcessNames| then None else Some(ProcessInfo(ProcessNames[i].1, None, None, Big))
  }

  const Mem1Shift: nat := 0x8000_0000
  const Mem2Shift: nat := 0x9000_0000

  /** The addresses `read` accepts: its guard negated. */
  predicate Accepted(address: u32) {
    !((address > 0x017F_FFFF && address < 0x8000_0000)
      || (address > 0x817F_FFFF && address < 0x9000_0000)
      || address > 0x93FF_FFFF)
  }

  /** The addresses `read_from_mem_1` accepts. */
  predicate Mem1Accepted(address: u32) {
    !((address > 0x017F_FFFF && address < Mem1Shift) || address > 0x817F_FFFF)
  }

  /** The addresses `read_from_mem_2` accepts: 0x90000000 through 0x93FFFFFF only (the
      offset form that the function's documentation mentions is refused). */
  predicate Mem2Accepted(address: u32) {
    !(address < Mem2Shift || address > 0x93FF_FFFF)
  }

  /** The offset into MEM1 of an accepted address: the high form has its base
      subtracted. */
  function Mem1Offset(address: u32): (r: nat)
    requires Mem1Accepted(address)
    ensures r <= 0x017F_FFFF
    ensures address < Mem1Shift ==> r == address
    ensures address >= Mem1Shift ==> r + Mem1Shift == address
  {
    if address >= Mem1Shift then address - Mem1Shift else address
  }

  /** The offset into MEM2 of an accepted address. */
  function Mem2Offset(address: u32): (r: nat)
    requires Mem2Accepted(address)
    ensures r <= 0x03FF_FFFF
    ensures r + Mem2Shift == address
  {
    address - Mem2Shift
  }

  /** `value.from_endian(e)` for an `n`-byte value read on the little-endian host: a
      big-endian session reverses the bytes. */
  function FromEndian(v: nat, n: nat, e: Endian): nat {
    if e == Big then ByteSwap(v, n) else v
  }

  /** The read of an `n`-byte value at `base + offset`, converted to the session's byte
      order. */
  function ReadAt(info: ProcessInfo, host: Process, base: nat, offset: nat, n: nat): (r: Result<nat>)
    ensures r.Ok? <==> Readable(host, base + offset, n)
    ensures r.Ok? ==> r.value < Pow256(n)
    ensures r.Ok? && info.endianness == Big ==>
      r.value == DecodeLE(Reverse(BytesAt(host, base + offset, n).value))
    ensures r.Ok? && info.endianness == Little ==>
      r.value == DecodeLE(BytesAt(host, base + offset, n).value)
  {
    match BytesAt(host, base + offset, n)
    case None => Err
    case Some(bs) =>
      ByteSwapDecode(bs);
      Ok(FromEndian(DecodeLE(bs), n, info.endianness))
  }

  /** `read_from_mem_1` of an `n`-byte value. */
  function ReadFromMem1(proc: Option<ProcessInfo>, host: Process, address: u32, n: nat): (r: Result<nat>)
    ensures !Mem1Accepted(address) ==> r == Err
    ensures proc.None? || proc.value.mem1.None? ==> r == Err
    ensures Mem1Accepted(address) && proc.Some? && proc.value.mem1.Some? ==>
      r == ReadAt(proc.value, host, proc.value.mem1.value, Mem1Offset(address), n)
  {
    if !Mem1Accepted(address) then Err
    else if proc.None? || proc.value.mem1.None? then Err
    else ReadAt(proc.value, host, proc.value.mem1.value, Mem1Offset(address), n)
  }

  /** `read_from_mem_2` of an `n`-byte value. */
  function ReadFromMem2(proc: Option<ProcessInfo>, host: Process, address: u32, n: nat): (r: Result<nat>)
    ensures !Mem2Accepted(address) ==> r == Err
    ensures proc.None? || proc.value.mem2.None? ==> r == Err
    ensures Mem2Accepted(address) && proc.Some? && proc.value.mem2.Some? ==>
      r == ReadAt(proc.value, host, proc.value.mem2.value, Mem2Offset(address), n)
  {
    if !Mem2Accepted(address) then Err
    else if proc.None? || proc.value.mem2.None? then Err
    else ReadAt(proc.value, host, proc.value.mem2.value, Mem2Offset(address), n)
  }

  /** `wii::read` of an `n`-byte value: an address outside the three windows is
      refused before the session is consulted; MEM1's two windows go to
      `read_from_mem_1` and MEM2's to `read_from_mem_2`. */
  function Read(proc: Option<ProcessInfo>, host: Process, address: u32, n: nat): (r: Result<nat>)
    ensures !Accepted(address) ==> r == Err
    ensures Accepted(address) && address < Mem2Shift ==> r == ReadFromMem1(proc, host, address, n)
    ensures Accepted(address) && address >= Mem2Shift ==> r == ReadFromMem2(proc, host, address, n)
  {
    if !Accepted(address) then Err
    else if address <= 0x017F_FFFF || (address >= 0x8000_0000 && address <= 0x817F_FFFF) then
      ReadFromMem1(proc, host, address, n)
    else if address >= 0x9000_0000 && address <= 0x93FF_FFFF then
      ReadFromMem2(proc, host, address, n)
    else
      assert false; Err
  }

  /** The accepted addresses are exactly MEM1's two windows and MEM2's window, and the
      dispatch of `read` sends each to the bank function that accepts it. */
  lemma AcceptedWindows(address: u32)
    ensures Accepted(address) <==>
      address <= 0x017F_FFFF || 0x8000_0000 <= address <= 0x817F_FFFF || 0x9000_0000 <= address <= 0x93FF_FFFF
    ensures Accepted(address) && address < Mem2Shift ==> Mem1Accepted(address)
    ensures Accepted(address) && address >= Mem2Shift ==> Mem2Accepted(address)
  {
  }

  /** An offset into MEM1 and its 0x80000000 form read the same value. */
  lemma Mem1Mirrored(proc: Option<ProcessInfo>, host: Process, a: u32, n: nat)
    requires a <= 0x017F_FFFF
    ensures Read(proc, host, a, n) == Read(proc, host, a + Mem1Shift, n)
  {
    assert Mem1Offset(a) == Mem1Offset(a + Mem1Shift);
  }

  /** 0x817FFFFF is the last MEM1 address; 0x81800000 is refused. 0x90000000 is MEM2's
      first byte. */
  lemma Boundaries(proc: Option<ProcessInfo>, host: Process, n: nat)
    ensures Accepted(0x817F_FFFF) && Mem1Offset(0x817F_FFFF) == 0x017F_FFFF
    ensures Read(proc, host, 0x8180_0000, n) == Err
    ensures Mem2Offset(0x9000_0000) == 0
  {
  }

  /** `read_from_mem_2` refuses the offset form: addresses up to 0x03FFFFFF are not
      read as offsets into MEM2. */
  lemma Mem2RefusesOffsets(proc: Option<ProcessInfo>, host: Process, a: u32, n: nat)
    requires a <= 0x03FF_FFFF
    ensures ReadFromMem2(proc, host, a, n) == Err
  {
  }

  /** A big-endian session reads the same cells as a little-endian one, and each value
      it reads is the byte-swap of the little-endian value; swapping back gives that
      value again. */
  lemma BigEndianSwaps(info: ProcessInfo, host: Process, base: nat, offset: nat, n: nat)
    ensures var big := ReadAt(info.(endianness := Big), host, base, offset, n);
      var little := ReadAt(info.(endianness := Little), host, base, offset, n);
      && (big.Ok? <==> little.Ok?)
      && (big.Ok? ==> big.value == ByteSwap(little.value, n) && ByteSwap(big.value, n) == little.value)
  {
    var little := ReadAt(info.(endianness := Little), host, base, offset, n);
    if little.Ok? {
      ByteSwapInvolutive(little.value, n);
    }
  }
}
