/** src/ps1.rs, the session: `State::init`, the tick that attaches to an emulator,
    finds its RAM and keeps checking that the RAM is still there; the dispatch of
    `look_for_wram` (with the tick rate it requests) and `keep_alive` to the
    emulator's recipe. */
module Ps1Session {
  import opened Wrappers
  import opened Host
  import opened Ps1
  import Ps1Epsxe
  import Ps1PsxFin
  import Ps1Duckstation
  import Ps1Retroarch
  import Ps1PcsxRedux
  import Ps1Xebra

  /** The static data of the recipes that keep some, as values. */
  datatype Statics = Statics(coreAddr: nat, redux: Ps1PcsxRedux.Statics, duckAddr: nat)

  /** `ProcessInfo::look_for_wram` without its side effects: what the emulator's recipe
      finds and the static data it leaves. Only a recipe's own static data changes. */
  function Located(info: ProcessInfo, host: Process, st: Statics): (r: (Option<nat>, Statics))
    ensures info.emulator != Retroarch ==> r.1.coreAddr == st.coreAddr
    ensures info.emulator != PcsxRedux ==> r.1.redux == st.redux
    ensures info.emulator != Duckstation ==> r.1.duckAddr == st.duckAddr
  {
    match info.emulator
    case Epsxe => (Ps1Epsxe.Epsxe(host), st)
    case PsxFin => (Ps1PsxFin.PsxFin(host), st)
    case Duckstation =>
      var anchor := Ps1Duckstation.Anchor(host);
      (Ps1Duckstation.Locate(host), st.(duckAddr := if anchor.Some? then anchor.value else st.duckAddr))
    case Retroarch =>
      var core := Ps1Retroarch.CoreAddr(host);
      (Ps1Retroarch.Locate(host), st.(coreAddr := if core.Some? then core.value else st.coreAddr))
    case PcsxRedux =>
      var (addr, redux) := Ps1PcsxRedux.Locate(host, st.redux);
      (addr, st.(redux := redux))
    case Xebra => (Ps1Xebra.Xebra(host), st)
  }

  /** `ProcessInfo::keep_alive`: whether the RAM is still there, and the session after
      the check (DuckStation's refreshes the RAM base). ePSXe, pSX and XEBRA never lose
      their RAM. */
  function KeepAlive(info: ProcessInfo, host: Process, st: Statics): (r: (bool, ProcessInfo))
    ensures r.1.emulator == info.emulator
    ensures !r.0 ==> r.1 == info
    ensures r.0 && info.wramBase.Some? ==> r.1.wramBase.Some?
    ensures info.emulator in {Epsxe, PsxFin, Xebra} ==> r == (true, info)
    ensures info.emulator == Retroarch ==> r == (st.coreAddr in host.mem, info)
    ensures info.emulator == PcsxRedux ==> r == (Ps1PcsxRedux.KeepAlive(host, st.redux), info)
    ensures info.emulator == Duckstation ==> r == Ps1Duckstation.KeepAlive(host, st.duckAddr, info)
  {
    match info.emulator
    case Duckstation => Ps1Duckstation.KeepAlive(host, st.duckAddr, info)
    case Retroarch => (Probe(host, st.coreAddr), info)
    case PcsxRedux => (Ps1PcsxRedux.KeepAlive(host, st.redux), info)
    case _ => (true, info)
  }

  /** Everything `init` can change: the session, the tick rate last requested of the
      host (none before the first search) and the recipes' static data. */
  datatype Snapshot = Snapshot(proc: Option<ProcessInfo>, rate: Option<TickRate>, statics: Statics)

  /** The session `init` works on once attach has been tried. */
  function Attached(proc: Option<ProcessInfo>, running: set<string>): (r: Option<ProcessInfo>)
    ensures proc.Some? ==> r == proc
    ensures proc.None? ==> r == AttachProcess(running)
  {
    if proc.None? then AttachProcess(running) else proc
  }

  /** The keep-alive step that ends a tick on an open process with a located RAM: a
      failed keep-alive clears the RAM base. */
  function KeepStep(info: ProcessInfo, host: Process, st: Statics): (r: (ProcessInfo, bool))
    requires info.wramBase.Some?
    ensures r.1 <==> KeepAlive(info, host, st).0
    ensures r.1 ==> r.0 == KeepAlive(info, host, st).1 && r.0.wramBase.Some?
    ensures !r.1 ==> r.0 == info.(wramBase := None)
  {
    var (alive, info') := KeepAlive(info, host, st);
    if alive then (info', true) else (info.(wramBase := None), false)
  }

  /** One call of `State::init`: the new snapshot and the return value. */
  function Tick(s: Snapshot, running: set<string>, host: Process): (r: (Snapshot, bool))
    // true exactly when a session with a located RAM remains
    ensures r.1 <==> r.0.proc.Some? && r.0.proc.value.wramBase.Some?
    // no session, and none could be attached: nothing changes
    ensures Attached(s.proc, running).None? ==> r == (s, false)
    // a closed process ends the session, whatever was cached
    ensures Attached(s.proc, running).Some? && !host.open ==> r == (s.(proc := None), false)
    // a cached RAM base is kept, without a new search, while keep-alive holds
    ensures var p := Attached(s.proc, running);
      p.Some? && host.open && p.value.wramBase.Some? ==>
        var (info, ok) := KeepStep(p.value, host, s.statics);
        r == (s.(proc := Some(info)), ok)
    // otherwise the recipe runs and the tick rate follows its result; a failed
    // search ends the tick before keep-alive
    ensures var p := Attached(s.proc, running);
      p.Some? && host.open && p.value.wramBase.None? ==>
        var (addr, st) := Located(p.value, host, s.statics);
        && r.0.rate == Some(TickRateFor(addr))
        && r.0.statics == st
        && (addr.None? ==> r == (Snapshot(Some(p.value), Some(Slow), st), false))
        && (addr.Some? ==>
              var (info, ok) := KeepStep(p.value.(wramBase := addr), host, st);
              r.0.proc == Some(info) && r.1 == ok)
    // the emulator kind never changes while the session lives
    ensures r.0.proc.Some? ==> Attached(s.proc, running).Some? && r.0.proc.value.emulator == Attached(s.proc, running).value.emulator
  {
    var p := Attached(s.proc, running);
    if p.None? then (s, false)
    else if !host.open then (s.(proc := None), false)
    else if p.value.wramBase.Some? then
      var (info, ok) := KeepStep(p.value, host, s.statics);
      (s.(proc := Some(info)), ok)
    else
      var (addr, st) := Located(p.value, host, s.statics);
      var info := p.value.(wramBase := addr);
      var rate := Some(TickRateFor(addr));
      if addr.None? then (Snapshot(Some(info), rate, st), false)
      else
        var (info', ok) := KeepStep(info, host, st);
        (Snapshot(Some(info'), rate, st), ok)
  }

  /** A search that succeeds makes the session ready on the same tick for every
      emulator but RetroArch: the keep-alive that follows re-reads what the search
      has just read. (RetroArch's probes the core's base address, which the search
      itself never reads.) */
  lemma FoundIsReady(s: Snapshot, running: set<string>, host: Process)
    requires var p := Attached(s.proc, running);
      p.Some? && host.open && p.value.wramBase.None? && p.value.emulator != Retroarch
    requires Located(Attached(s.proc, running).value, host, s.statics).0.Some?
    ensures Tick(s, running, host).1
  {
    var info := Attached(s.proc, running).value;
    if info.emulator == PcsxRedux {
      Ps1PcsxRedux.KeepAliveAfterLocate(host, s.statics.redux);
    } else if info.emulator == Duckstation {
      Ps1Duckstation.KeepAliveAfterLocate(host, info);
    }
  }

  /** A ready session is a fixed point: ticking again on the same view of the process
      changes nothing and stays ready. */
  lemma TickStable(s: Snapshot, running: set<string>, host: Process)
    requires Tick(s, running, host).1
    ensures Tick(Tick(s, running, host).0, running, host) == Tick(s, running, host)
  {
  }

  /** `STATE`: the current session and the tick rate requested of the host, with the
      static data of the RetroArch, PCSX-Redux and DuckStation recipes. */
  class State {
    var proc: Option<ProcessInfo>
    var rate: Option<TickRate>
    const retroarch: Ps1Retroarch.StaticData
    const redux: Ps1PcsxRedux.StaticData
    const duckstation: Ps1Duckstation.StaticData

    constructor()
      ensures proc == None && rate == None
      ensures StaticsNow() == Statics(0, Ps1PcsxRedux.Statics(false, 0, 0), 0)
      ensures fresh(retroarch) && fresh(redux) && fresh(duckstation)
    {
      proc := None;
      rate := None;
      retroarch := new Ps1Retroarch.StaticData();
      redux := new Ps1PcsxRedux.StaticData();
      duckstation := new Ps1Duckstation.StaticData();
    }

    function StaticsNow(): Statics
      reads this, retroarch, redux, duckstation
    {
      Statics(retroarch.coreAddr, redux.Snapshot(), duckstation.addr)
    }

    /** `ProcessInfo::look_for_wram`: runs the recipe and requests the fast tick rate
        when it found the RAM, the slow one otherwise. */
    method LookForWram(info: ProcessInfo, host: Process) returns (addr: Option<nat>)
      modifies this`rate, retroarch, redux, duckstation
      ensures (addr, StaticsNow()) == Located(info, host, old(StaticsNow()))
      ensures rate == Some(TickRateFor(addr))
    {
      addr := RunRecipe(info, host);
      if addr.Some? {
        rate := Some(Fast);
      } else {
        rate := Some(Slow);
      }
    }

    /** The dispatch of `look_for_wram` to the emulator's recipe. */
    method RunRecipe(info: ProcessInfo, host: Process) returns (addr: Option<nat>)
      modifies retroarch, redux, duckstation
      ensures (addr, StaticsNow()) == Located(info, host, old(StaticsNow()))
    {
      match info.emulator {
        case Epsxe => addr := Ps1Epsxe.Epsxe(host);
        case PsxFin => addr := Ps1PsxFin.PsxFin(host);
        case Duckstation => addr := duckstation.Duckstation(host);
        case Retroarch => addr := retroarch.Retroarch(host);
        case PcsxRedux => addr := redux.PcsxRedux(host);
        case Xebra => addr := Ps1Xebra.Xebra(host);
      }
    }

    /** `State::init`. `running` is the set of process names that `Process::attach`
        succeeds for on this tick, `host` the attached process as seen on this tick. */
    method Init(running: set<string>, host: Process) returns (ready: bool)
      modifies this, retroarch, redux, duckstation
      ensures (Snapshot(proc, rate, StaticsNow()), ready) == Tick(Snapshot(old(proc), old(rate), old(StaticsNow())), running, host)
    {
      if proc.None? {
        proc := AttachProcess(running);
      }
      if proc.None? {
        return false;
      }
      if !host.open {
        proc := None;
        return false;
      }
      var game := proc.value;
      if game.wramBase.None? {
        var addr := LookForWram(game, host);
        game := game.(wramBase := addr);
        proc := Some(game);
        if game.wramBase.None? {
          return false;
        }
      }
      var (alive, game') := KeepAlive(game, host, StaticsNow());
      if alive {
        game := game';
      } else {
        game := game.(wramBase := None);
      }
      proc := Some(game);
      ready := game.wramBase.Some?;
    }
  }
}
