/** src/ps1.rs: the PlayStation session's data, the emulators it recognises and the
    reads it serves. The console's 2 MiB of RAM answer at offset 0 and, mirrored, at
    the KSEG0 address 0x80000000; any other offset is refused. */
module Ps1 {
  import opened Wrappers
  import opened Host
  import opened Sequences

  datatype Emulator = Epsxe | PsxFin | Duckstation | Retroarch | PcsxRedux | Xebra

  /** One attached emulator: its kind and the cached RAM base. The process handle
      itself is the `Process` view passed to each operation. */
  datatype ProcessInfo = ProcessInfo(emulator: Emulator, wramBase: Option<nat>)

  /** The two tick rates `look_for_wram` requests: 120 Hz after a successful search,
      0.4 Hz after a failed one. */
  datatype TickRate = Fast | Slow

  /** Process names tried by attach, in priority order. */
  const ProcessNames: seq<(string, Emulator)> := [
    ("ePSXe.exe", Epsxe),
    ("psxfin.exe", PsxFin),
    ("duckstation-qt-x64-ReleaseLTCG.exe", Duckstation),
    ("duckstation-nogui-x64-ReleaseLTCG.exe", Duckstation),
    ("retroarch.exe", Retroarch),
    ("pcsx-redux.main", PcsxRedux),
    ("XEBRA.EXE", Xebra)
  ]

  /** The names of `ProcessNames` that belong to emulator `e`, in list order. */
  function NamesOf(e: Emulator): seq<string> {
    match e
    case Epsxe => ["ePSXe.exe"]
    case PsxFin => ["psxfin.exe"]
    case Duckstation => ["duckstation-qt-x64-ReleaseLTCG.exe", "duckstation-nogui-x64-ReleaseLTCG.exe"]
    case Retroarch => ["retroarch.exe"]
    case PcsxRedux => ["pcsx-redux.main"]
    case Xebra => ["XEBRA.EXE"]
  }

  /** The entries of `names` of kind `e`, in list order. */
  function NamesIn(names: seq<(string, Emulator)>, e: Emulator): seq<string> {
    if names == [] then []
    else (if names[0].1 == e then [names[0].0] else []) + NamesIn(names[1..], e)
  }

  /** `NamesOf` lists exactly the entries of `ProcessNames` of each kind, in order. */
  lemma NamesOfProcessNames(e: Emulator)
    ensures NamesOf(e) == NamesIn(ProcessNames, e)
  {
  }

  /** The position in `ProcessNames` of the first name `Process::attach` succeeds for;
      `running` is the set of names it succeeds for. */
  function AttachIndex(running: set<string>): nat {
    FirstIndex(ProcessNames, (n: (string, Emulator)) => n.0 in running)
  }

  /** `ProcessInfo::attach_process`. */
  function AttachProcess(running: set<string>): (r: Option<ProcessInfo>)
    ensures r.None? <==> forall i :: 0 <= i < |ProcessNames| ==> ProcessNames[i].0 !in running
    ensures r.Some? ==> exists i :: (0 <= i < |ProcessNames| && ProcessNames[i].0 in running
      && r.value.emulator == ProcessNames[i].1
      && forall j :: 0 <= j < i ==> ProcessNames[j].0 !in running)
    ensures r.Some? ==> r.value.wramBase == None
  {
    var i := AttachIndex(running);
    if i == |ProcessNames| then None else Some(ProcessInfo(ProcessNames[i].1, None))
  }

  /** Attach stops at the first name that attaches: whether later names would attach
      does not matter. */
  lemma AttachIgnoresLaterNames(running: set<string>, running': set<string>)
    requires forall j :: 0 <= j < |ProcessNames| && j <= AttachIndex(running) ==>
      (ProcessNames[j].0 in running <==> ProcessNames[j].0 in running')
    ensures AttachProcess(running') == AttachProcess(running)
  {
    FirstIndexLocal(ProcessNames, (n: (string, Emulator)) => n.0 in running,
                    (n: (string, Emulator)) => n.0 in running');
  }

  /** The first `ProcessNames` entry of kind `e` whose module address and size both
      resolve, as (address, size): the module the pSX, DuckStation and PCSX-Redux
      recipes scan. */
  function ResolvedModule(host: Process, e: Emulator): Option<(nat, nat)> {
    var i :- FirstResolving(host, NamesOf(e));
    Some((host.moduleBase[NamesOf(e)[i]], host.moduleSize[NamesOf(e)[i]]))
  }

  /** The module is that of the first entry of kind `e` whose address and size both
      resolve, and there is none exactly when no such entry resolves. */
  lemma ResolvedModuleFirst(host: Process, e: Emulator)
    ensures var r := ResolvedModule(host, e);
      && (r.None? <==> forall i :: 0 <= i < |NamesOf(e)| ==> !Resolves(host, NamesOf(e)[i]))
      && (r.Some? ==> exists i :: (0 <= i < |NamesOf(e)| && Resolves(host, NamesOf(e)[i])
            && (forall j :: 0 <= j < i ==> !Resolves(host, NamesOf(e)[j]))
            && r.value == (host.moduleBase[NamesOf(e)[i]], host.moduleSize[NamesOf(e)[i]])))
  {
  }

  /** The tick rate `look_for_wram` requests after a search. */
  function TickRateFor(addr: Option<nat>): (r: TickRate)
    ensures r == Fast <==> addr.Some?
  {
    if addr.Some? then Fast else Slow
  }

  /** The KSEG0 base at which the RAM is mirrored. */
  const Kseg0: nat := 0x8000_0000

  /** The offsets `read` accepts: the guard of `read` negated. */
  predicate Accepted(offset: u32) {
    !((offset > 0x1F_FFFF && offset < 0x8000_0000) || offset > 0x801F_FFFF)
  }

  /** The accepted offsets are exactly the two 2 MiB windows. */
  lemma AcceptedWindows(offset: u32)
    ensures Accepted(offset) <==> offset <= 0x1F_FFFF || Kseg0 <= offset <= Kseg0 + 0x1F_FFFF
  {
  }

  /** The offset into the RAM that an accepted console offset reads: KSEG0 offsets
      have the base subtracted. */
  function RamOffset(offset: u32): (r: nat)
    requires Accepted(offset)
    ensures r <= 0x1F_FFFF
    ensures offset < Kseg0 ==> r == offset
    ensures offset >= Kseg0 ==> r + Kseg0 == offset
  {
    if offset >= Kseg0 then offset - Kseg0 else offset
  }

  function Wram(proc: Option<ProcessInfo>): Option<nat> {
    if proc.Some? then proc.value.wramBase else None
  }

  /** `ps1::read` of an `n`-byte value: refuses an offset outside both windows before
      looking at the session, then reads the raw bytes at `wram + RamOffset(offset)`
      (no byte-order conversion: the console is little-endian, like the host). */
  function Read(proc: Option<ProcessInfo>, host: Process, offset: u32, n: nat): (r: Result<seq<byte>>)
    ensures !Accepted(offset) ==> r == Err
    ensures Accepted(offset) && Wram(proc).None? ==> r == Err
    ensures Accepted(offset) && Wram(proc).Some? ==>
      (r.Ok? <==> Readable(host, Wram(proc).value + RamOffset(offset), n))
    ensures r.Ok? ==> (Accepted(offset) && Wram(proc).Some? && |r.value| == n &&
      forall i :: 0 <= i < n ==> r.value[i] == host.mem[Wram(proc).value + RamOffset(offset) + i])
  {
    if !Accepted(offset) then Err
    else
      var wram :- OkOr(Wram(proc));
      OkOr(BytesAt(host, wram + RamOffset(offset), n))
  }

  /** An offset and its KSEG0 mirror read the same bytes. */
  lemma ReadMirrored(proc: Option<ProcessInfo>, host: Process, offset: u32, n: nat)
    requires offset <= 0x1F_FFFF
    ensures Read(proc, host, offset, n) == Read(proc, host, offset + Kseg0, n)
  {
    assert Accepted(offset) && Accepted(offset + Kseg0);
    assert RamOffset(offset) == RamOffset(offset + Kseg0);
  }

  /** Every accepted offset lands inside the 2 MiB of RAM, and every byte of the RAM
      is reached from both windows. */
  lemma RamOffsetOnto(k: nat)
    requires k <= 0x1F_FFFF
    ensures Accepted(k) && RamOffset(k) == k
    ensures Accepted(k + Kseg0) && RamOffset(k + Kseg0) == k
  {
  }
}
