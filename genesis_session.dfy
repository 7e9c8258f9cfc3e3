/** src/genesis.rs, the session: `State::init`, the tick that attaches to an emulator,
    finds its RAM and keeps checking that the RAM is still there, and the dispatch of
    `look_for_wram`/`keep_alive` to the emulator's recipe. */
module GenesisSession {
  import opened Wrappers
  import opened Host
  import opened Genesis
  import GenesisGens
  import GenesisFusion
  import GenesisBlastEm
  import GenesisSegaClassics
  import GenesisRetroarch

  /** `ProcessInfo::look_for_wram` without its side effect: what the emulator's recipe
      finds and the endianness it leaves. */
  function Located(info: ProcessInfo, host: Process): Outcome
  {
    match info.emulator
    case Retroarch => GenesisRetroarch.Locate(host, info.endianness)
    case SegaClassics => GenesisSegaClassics.SegaClassics(host, info.endianness)
    case Fusion => GenesisFusion.Fusion(host, info.endianness)
    case Gens => GenesisGens.Gens(host, info.endianness)
    case BlastEm => GenesisBlastEm.BlastEm(host)
  }

  /** The RetroArch anchor after `look_for_wram`: only the RetroArch recipe writes it. */
  function CoreBaseAfter(info: ProcessInfo, host: Process, coreBase: nat): (r: nat)
    ensures info.emulator != Retroarch ==> r == coreBase
    ensures info.emulator == Retroarch ==>
      r == (if GenesisRetroarch.CoreBase(host).Some? then GenesisRetroarch.CoreBase(host).value else coreBase)
  {
    if info.emulator == Retroarch && GenesisRetroarch.CoreBase(host).Some? then GenesisRetroarch.CoreBase(host).value
    else coreBase
  }

  /** `ProcessInfo::keep_alive`: only RetroArch can lose its RAM (the core unloaded);
      every other recipe's keep-alive is constantly true. */
  function KeepAlive(info: ProcessInfo, host: Process, coreBase: nat): (r: bool)
    ensures info.emulator != Retroarch ==> r
    ensures info.emulator == Retroarch ==> (r <==> coreBase in host.mem)
  {
    match info.emulator
    case Retroarch => Probe(host, coreBase)
    case _ => true
  }

  /** Everything `init` can change: the session and the RetroArch anchor. */
  datatype Snapshot = Snapshot(proc: Option<ProcessInfo>, coreBase: nat)

  /** The session `init` works on once attach has been tried. */
  function Attached(proc: Option<ProcessInfo>, running: set<string>): (r: Option<ProcessInfo>)
    ensures proc.Some? ==> r == proc
    ensures proc.None? ==> r == AttachProcess(running)
  {
    if proc.None? then AttachProcess(running) else proc
  }

  /** The keep-alive step that ends a tick on an open process with a located RAM. */
  function KeepStep(info: ProcessInfo, host: Process, coreBase: nat): (r: (Snapshot, bool))
    requires info.wramBase.Some?
    ensures r.0.coreBase == coreBase
    ensures r.0.proc == Some(if KeepAlive(info, host, coreBase) then info else info.(wramBase := None))
    ensures r.1 <==> KeepAlive(info, host, coreBase)
  {
    if KeepAlive(info, host, coreBase) then (Snapshot(Some(info), coreBase), true)
    else (Snapshot(Some(info.(wramBase := None)), coreBase), false)
  }

  /** One call of `State::init`: the new session and anchor, and its return value. */
  function Tick(s: Snapshot, running: set<string>, host: Process): (r: (Snapshot, bool))
    // true exactly when a session with a located RAM remains
    ensures r.1 <==> r.0.proc.Some? && r.0.proc.value.wramBase.Some?
    // no session, and none could be attached: nothing changes
    ensures Attached(s.proc, running).None? ==> r == (s, false)
    // a closed process ends the session, whatever was cached
    ensures Attached(s.proc, running).Some? && !host.open ==> r == (Snapshot(None, s.coreBase), false)
    // a cached RAM address is kept, without a new search, while keep-alive holds
    ensures var p := Attached(s.proc, running);
      p.Some? && host.open && p.value.wramBase.Some? ==> r == KeepStep(p.value, host, s.coreBase)
    // otherwise the recipe runs; a failed search ends the tick before keep-alive
    ensures var p := Attached(s.proc, running);
      p.Some? && host.open && p.value.wramBase.None? ==>
        var out := Located(p.value, host);
        var info := p.value.(wramBase := out.wram, endianness := out.endianness);
        var cb := CoreBaseAfter(p.value, host, s.coreBase);
        && (out.wram.None? ==> r == (Snapshot(Some(info), cb), false))
        && (out.wram.Some? ==> r == KeepStep(info, host, cb))
    // the emulator kind never changes while the session lives
    ensures r.0.proc.Some? ==> Attached(s.proc, running).Some? && r.0.proc.value.emulator == Attached(s.proc, running).value.emulator
  {
    var p := Attached(s.proc, running);
    if p.None? then (Snapshot(None, s.coreBase), false)
    else if !host.open then (Snapshot(None, s.coreBase), false)
    else if p.value.wramBase.Some? then KeepStep(p.value, host, s.coreBase)
    else
      var out := Located(p.value, host);
      var info := p.value.(wramBase := out.wram, endianness := out.endianness);
      var cb := CoreBaseAfter(p.value, host, s.coreBase);
      if out.wram.None? then (Snapshot(Some(info), cb), false)
      else KeepStep(info, host, cb)
  }

  /** A ready session is a fixed point: ticking again on the same view of the process
      changes nothing and stays ready. */
  lemma TickStable(s: Snapshot, running: set<string>, host: Process)
    requires Tick(s, running, host).1
    ensures Tick(Tick(s, running, host).0, running, host) == Tick(s, running, host)
  {
  }

  /** A session whose keep-alive fails is searched again on the next tick. */
  lemma TickRelocatesAfterLoss(s: Snapshot, running: set<string>, host: Process, host': Process)
    requires var r := Tick(s, running, host); r.0.proc.Some? && !r.1
    requires host'.open
    ensures var r := Tick(s, running, host);
      var r' := Tick(r.0, running, host');
      var out := Located(r.0.proc.value, host');
      r'.1 ==> out.wram.Some? && r'.0.proc.value.wramBase == out.wram
  {
  }

  /** `look_for_wram` with its side effect on the RetroArch anchor. */
  method LookForWram(info: ProcessInfo, host: Process, statics: GenesisRetroarch.StaticData) returns (r: Outcome)
    modifies statics
    ensures r == Located(info, host)
    ensures statics.coreBase == CoreBaseAfter(info, host, old(statics.coreBase))
  {
    match info.emulator {
      case Retroarch => r := statics.Retroarch(host, info.endianness);
      case SegaClassics => r := GenesisSegaClassics.SegaClassics(host, info.endianness);
      case Fusion => r := GenesisFusion.Fusion(host, info.endianness);
      case Gens => r := GenesisGens.Gens(host, info.endianness);
      case BlastEm => r := GenesisBlastEm.BlastEm(host);
    }
  }

  /** `STATE`: the current session. `retroarch` is the RetroArch recipe's static data. */
  class State {
    var proc: Option<ProcessInfo>
    const retroarch: GenesisRetroarch.StaticData

    constructor()
      ensures proc == None && retroarch.coreBase == 0 && fresh(retroarch)
    {
      proc := None;
      retroarch := new GenesisRetroarch.StaticData();
    }

    /** `State::init`. `running` is the set of process names that `Process::attach`
        succeeds for on this tick, `host` the attached process as seen on this tick. */
    method Init(running: set<string>, host: Process) returns (ready: bool)
      modifies this, retroarch
      ensures (Snapshot(proc, retroarch.coreBase), ready) == Tick(Snapshot(old(proc), old(retroarch.coreBase)), running, host)
    {
      if proc.None? {
        proc := AttachProcess(running);
      }
      if proc.None? {
        return false;
      }
      if !host.open {
        proc := None;
        return false;
      }
      var game := proc.value;
      if game.wramBase.None? {
        var out := LookForWram(game, host, retroarch);
        game := game.(wramBase := out.wram, endianness := out.endianness);
        proc := Some(game);
        if game.wramBase.None? {
          return false;
        }
      }
      if !KeepAlive(game, host, retroarch.coreBase) {
        game := game.(wramBase := None);
        proc := Some(game);
      }
      ready := game.wramBase.Some?;
    }
  }
}
