/** src/genesis.rs: the Sega Genesis session's data, the emulators it recognises and
    the reads it serves. The RAM is an array of 16-bit big-endian words; an emulator
    that stores the words little-endian swaps the two bytes of every word, so
    single-byte reads flip the low address bit and word reads swap the value. */
module Genesis {
  import opened Wrappers
  import opened Host
  import opened Sequences

  datatype Emulator = Retroarch | SegaClassics | Fusion | Gens | BlastEm

  /** The session's byte order (spelled `Endianess` in some of the source files). */
  datatype Endianness = LittleEndian | BigEndian

  /** One attached emulator: its kind, the cached RAM base and the byte order. The
      process handle itself is the `Process` view passed to each operation. */
  datatype ProcessInfo = ProcessInfo(emulator: Emulator, wramBase: Option<nat>, endianness: Endianness)

  /** What a locate recipe hands back: the RAM address it found, if any, and the
      endianness it leaves in the `ProcessInfo` it was given (`&mut` access). */
  datatype Outcome = Outcome(wram: Option<nat>, endianness: Endianness)

  /** Process names tried by attach, in priority order. */
  const ProcessNames: seq<(string, Emulator)> := [
    ("retroarch.exe", Retroarch),
    ("SEGAGameRoom.exe", SegaClassics),
    ("SEGAGenesisClassics.exe", SegaClassics),
    ("Fusion.exe", Fusion),
    ("gens.exe", Gens),
    ("blastem.exe", BlastEm)
  ]

  /** The names of `ProcessNames` that belong to emulator `e`, in list order. */
  function NamesOf(e: Emulator): seq<string> {
    match e
    case Retroarch => ["retroarch.exe"]
    case SegaClassics => ["SEGAGameRoom.exe", "SEGAGenesisClassics.exe"]
    case Fusion => ["Fusion.exe"]
    case Gens => ["gens.exe"]
    case BlastEm => ["blastem.exe"]
  }

  /** The entries of `names` of kind `e`, in list order. */
  function NamesIn(names: seq<(string, Emulator)>, e: Emulator): seq<string> {
    if names == [] then []
    else (if names[0].1 == e then [names[0].0] else []) + NamesIn(names[1..], e)
  }

  /** `NamesOf` lists exactly the entries of `ProcessNames` of each kind, in order. */
  lemma NamesOfProcessNames(e: Emulator)
    ensures NamesOf(e) == NamesIn(ProcessNames, e)
  {
  }

  /** The position in `ProcessNames` of the first name `Process::attach` succeeds for;
      `running` is the set of names it succeeds for. */
  function AttachIndex(running: set<string>): nat {
    FirstIndex(ProcessNames, (n: (string, Emulator)) => n.0 in running)
  }

  /** `ProcessInfo::attach_process`. */
  function AttachProcess(running: set<string>): (r: Option<ProcessInfo>)
    ensures r.None? <==> forall i :: 0 <= i < |ProcessNames| ==> ProcessNames[i].0 !in running
    ensures r.Some? ==> exists i :: (0 <= i < |ProcessNames| && ProcessNames[i].0 in running
      && r.value.emulator == ProcessNames[i].1
      && forall j :: 0 <= j < i ==> ProcessNames[j].0 !in running)
    ensures r.Some? ==> r.value.wramBase == None && r.value.endianness == LittleEndian
  {
    var i := AttachIndex(running);
    if i == |ProcessNames| then None else Some(ProcessInfo(ProcessNames[i].1, None, LittleEndian))
  }

  /** Attach stops at the first name that attaches: whether later names would attach
      does not matter. */
  lemma AttachIgnoresLaterNames(running: set<string>, running': set<string>)
    requires forall j :: 0 <= j < |ProcessNames| && j <= AttachIndex(running) ==>
      (ProcessNames[j].0 in running <==> ProcessNames[j].0 in running')
    ensures AttachProcess(running') == AttachProcess(running)
  {
    FirstIndexLocal(ProcessNames, (n: (string, Emulator)) => n.0 in running,
                    (n: (string, Emulator)) => n.0 in running');
  }

  /** The RAM base of an attached session whose RAM has been located. */
  function Wram(proc: Option<ProcessInfo>): Option<nat> {
    if proc.Some? then proc.value.wramBase else None
  }

  /** `read_ignoring_endianness`: `n` raw bytes at `wram + offset`, no conversion. */
  function ReadIgnoringEndianness(proc: Option<ProcessInfo>, host: Process, offset: u32, n: nat): (r: Result<seq<byte>>)
    ensures Wram(proc).None? ==> r == Err
    ensures Wram(proc).Some? ==> (r.Ok? <==> Readable(host, Wram(proc).value + offset, n))
    ensures r.Ok? ==> (|r.value| == n &&
      forall i :: 0 <= i < n ==> r.value[i] == host.mem[Wram(proc).value + offset + i])
  {
    var wram :- OkOr(Wram(proc));
    OkOr(BytesAt(host, wram + offset, n))
  }

  /** The offset a single-byte read uses: the even/odd neighbour of `offset` (the low
      bit flipped) in a little-endian session, `offset` itself in a big-endian one. */
  function ByteOffset(offset: u32, e: Endianness): (r: u32)
    ensures e == BigEndian ==> r == offset
    ensures e == LittleEndian ==> r / 2 == offset / 2 && r % 2 != offset % 2
  {
    if e == LittleEndian then (if offset % 2 == 0 then offset + 1 else offset - 1) else offset
  }

  lemma ByteOffsetInvolutive(offset: u32, e: Endianness)
    ensures ByteOffset(ByteOffset(offset, e), e) == offset
  {
  }

  /** Console address 0 is host offset 1 and address 1 is host offset 0. */
  lemma ByteOffsetExamples()
    ensures ByteOffset(0, LittleEndian) == 1 && ByteOffset(1, LittleEndian) == 0
  {
  }

  /** The host address a single-byte read at `offset` uses. */
  function ByteAddress(info: ProcessInfo, offset: u32): nat
    requires info.wramBase.Some?
  {
    info.wramBase.value + ByteOffset(offset, info.endianness)
  }

  /** `read_u8`. No range check is made on `offset`. */
  function ReadU8(proc: Option<ProcessInfo>, host: Process, offset: u32): (r: Result<nat>)
    ensures Wram(proc).None? ==> r == Err
    ensures Wram(proc).Some? ==> (r.Ok? <==> ByteAddress(proc.value, offset) in host.mem)
    ensures r.Ok? ==> r.value == host.mem[ByteAddress(proc.value, offset)]
  {
    var wram :- OkOr(Wram(proc));
    OkOr(U8At(host, wram + ByteOffset(offset, proc.value.endianness)))
  }

  /** `read_i8`: the same byte as `read_u8`, read as two's complement. */
  function ReadI8(proc: Option<ProcessInfo>, host: Process, offset: u32): (r: Result<int>)
    ensures Wram(proc).None? ==> r == Err
    ensures r.Ok? <==> ReadU8(proc, host, offset).Ok?
    ensures r.Ok? ==> -128 <= r.value < 128 && (r.value - ReadU8(proc, host, offset).value) % 256 == 0
  {
    var wram :- OkOr(Wram(proc));
    var b :- OkOr(U8At(host, wram + ByteOffset(offset, proc.value.endianness)));
    assert Pow256(1) == 256;
    Ok(Signed(b, 1))
  }

  /** The 16-bit word of a `read_u16`/`read_i16`: the host value, byte-swapped
      (`u16::from_be`) in a big-endian session. Failed reads pass through. */
  function Word(info: ProcessInfo, host: Process, offset: u32): Result<nat>
    requires info.wramBase.Some?
  {
    var v :- OkOr(U16At(host, info.wramBase.value + offset));
    if info.endianness == BigEndian then Ok(ByteSwap(v, 2)) else Ok(v)
  }

  /** `read_u16`: the offset is never flipped; a big-endian session reads the two
      bytes most significant first, a little-endian one least significant first. */
  function ReadU16(proc: Option<ProcessInfo>, host: Process, offset: u32): (r: Result<nat>)
    ensures Wram(proc).None? ==> r == Err
    ensures Wram(proc).Some? ==> var a := Wram(proc).value + offset;
      && (r.Ok? <==> a in host.mem && a + 1 in host.mem)
      && (r.Ok? && proc.value.endianness == BigEndian ==> r.value == host.mem[a] as int * 256 + host.mem[a + 1] as int)
      && (r.Ok? && proc.value.endianness == LittleEndian ==> r.value == host.mem[a] as int + 256 * host.mem[a + 1] as int)
  {
    var wram :- OkOr(Wram(proc));
    var v := U16At(host, wram + offset);
    if v.Some? then ByteSwap16(v.value); Word(proc.value, host, offset) else Err
  }

  /** `read_i16`: the word of `read_u16` read as two's complement (`i16::from_be`
      swaps the bytes of the signed value's bit pattern). */
  function ReadI16(proc: Option<ProcessInfo>, host: Process, offset: u32): (r: Result<int>)
    ensures Wram(proc).None? ==> r == Err
    ensures r.Ok? <==> ReadU16(proc, host, offset).Ok?
    ensures r.Ok? ==> -0x8000 <= r.value < 0x8000 && (r.value - ReadU16(proc, host, offset).value) % 0x1_0000 == 0
  {
    var wram :- OkOr(Wram(proc));
    var w :- Word(proc.value, host, offset);
    assert Pow256(2) == 0x1_0000;
    Ok(Signed(w, 2))
  }

  /** A big-endian session's word is the byte-swap of the little-endian session's. */
  lemma ReadU16Swapped(info: ProcessInfo, host: Process, offset: u32)
    requires info.wramBase.Some?
    ensures var big := ReadU16(Some(info.(endianness := BigEndian)), host, offset);
            var little := ReadU16(Some(info.(endianness := LittleEndian)), host, offset);
      && (big.Ok? <==> little.Ok?)
      && (big.Ok? ==> big.value == ByteSwap(little.value, 2))
  {
    var v := U16At(host, info.wramBase.value + offset);
    if v.Some? { ByteSwap16(v.value); }
  }
}
