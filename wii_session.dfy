/** src/wii.rs, the session: `State::init`, the tick that attaches to Dolphin, finds
    its two RAM banks and keeps checking that both are still there. */
module WiiSession {
  import opened Wrappers
  import opened Host
  import opened Wii
  import WiiDolphin

  /** `ProcessInfo::look_for_wram` without its side effect: the session with the banks
      the recipe finds, its byte order set to big-endian. */
  function Located(info: ProcessInfo, host: Process): (r: ProcessInfo)
    ensures r.emulator == info.emulator && r.endianness == Big
    ensures (r.mem1, r.mem2) == WiiDolphin.Discover(host.regions)
  {
    var (m1, m2) := WiiDolphin.Discover(host.regions);
    info.(mem1 := m1, mem2 := m2, endianness := Big)
  }

  /** Both banks are known. */
  predicate Ready(info: ProcessInfo) {
    info.mem1.Some? && info.mem2.Some?
  }

  /** The banks are known together or not at all. */
  predicate Whole(proc: Option<ProcessInfo>) {
    proc.Some? ==> (proc.value.mem1.Some? <==> proc.value.mem2.Some?)
  }

  /** The session `init` works on once attach has been tried. */
  function Attached(proc: Option<ProcessInfo>, running: set<string>): (r: Option<ProcessInfo>)
    ensures proc.Some? ==> r == proc
    ensures proc.None? ==> r == AttachProcess(running)
  {
    if proc.None? then AttachProcess(running) else proc
  }

  /** The keep-alive step that ends a tick on an open process with both banks: a failed
      keep-alive forgets both. */
  function KeepStep(info: ProcessInfo, host: Process): (r: (ProcessInfo, bool))
    requires Ready(info)
    ensures r.1 <==> WiiDolphin.KeepAlive(info, host)
    ensures r.1 ==> r.0 == info
    ensures !r.1 ==> r.0 == info.(mem1 := None, mem2 := None)
  {
    if WiiDolphin.KeepAlive(info, host) then (info, true) else (info.(mem1 := None, mem2 := None), false)
  }

  /** One call of `State::init`: the new session and the return value. */
  function Tick(proc: Option<ProcessInfo>, running: set<string>, host: Process): (r: (Option<ProcessInfo>, bool))
    // true exactly when a session with both banks remains
    ensures r.1 <==> r.0.Some? && Ready(r.0.value)
    // no session, and none could be attached: nothing changes
    ensures Attached(proc, running).None? ==> r == (proc, false)
    // a closed process ends the session
    ensures Attached(proc, running).Some? && !host.open ==> r == (None, false)
    // both banks cached: no new search, only the keep-alive
    ensures var p := Attached(proc, running);
      p.Some? && host.open && Ready(p.value) ==>
        var (info, ok) := KeepStep(p.value, host);
        r == (Some(info), ok)
    // either bank missing: the recipe runs; if it finds nothing the tick ends there
    ensures var p := Attached(proc, running);
      p.Some? && host.open && !Ready(p.value) ==>
        var info := Located(p.value, host);
        && (!Ready(info) ==> r == (Some(info), false))
        && (Ready(info) ==> var (info', ok) := KeepStep(info, host); r == (Some(info'), ok))
    // the banks of a session are known together or not at all
    ensures Whole(proc) ==> Whole(r.0)
  {
    var p := Attached(proc, running);
    if p.None? then (proc, false)
    else if !host.open then (None, false)
    else if Ready(p.value) then
      var (info, ok) := KeepStep(p.value, host);
      (Some(info), ok)
    else
      var info := Located(p.value, host);
      if !Ready(info) then (Some(info), false)
      else
        var (info', ok) := KeepStep(info, host);
        (Some(info'), ok)
  }

  /** The session's byte order is big-endian from attach on, whatever happens. */
  lemma AlwaysBigEndian(proc: Option<ProcessInfo>, running: set<string>, host: Process)
    requires proc.Some? ==> proc.value.endianness == Big
    ensures Tick(proc, running, host).0.Some? ==> Tick(proc, running, host).0.value.endianness == Big
  {
  }

  /** A search that succeeds makes the session ready on the same tick: the keep-alive
      probes the two regions the search has just found. */
  lemma FoundIsReady(proc: Option<ProcessInfo>, running: set<string>, host: Process)
    requires var p := Attached(proc, running); p.Some? && host.open && !Ready(p.value)
    requires WiiDolphin.Discover(host.regions).0.Some?
    requires forall k :: 0 <= k < |host.regions| ==> host.regions[k].address in host.mem
    ensures Tick(proc, running, host).1
  {
    WiiDolphin.DiscoverSizes(host.regions);
  }

  /** A ready session is a fixed point: ticking again on the same view of the process
      changes nothing and stays ready. */
  lemma TickStable(proc: Option<ProcessInfo>, running: set<string>, host: Process)
    requires Tick(proc, running, host).1
    ensures Tick(Tick(proc, running, host).0, running, host) == Tick(proc, running, host)
  {
  }

  /** `STATE`: the current session. */
  class State {
    var proc: Option<ProcessInfo>

    constructor()
      ensures proc == None
    {
      proc := None;
    }

    /** `State::init`. `running` is the set of process names that `Process::attach`
        succeeds for on this tick, `host` the attached process as seen on this tick. */
    method Init(running: set<string>, host: Process) returns (ready: bool)
      modifies this
      ensures (proc, ready) == Tick(old(proc), running, host)
    {
      if proc.None? {
        proc := AttachProcess(running);
      }
      if proc.None? {
        return false;
      }
      if !host.open {
        proc := None;
        return false;
      }
      var game := proc.value;
      if game.mem1.None? || game.mem2.None? {
        var e, m1, m2 := WiiDolphin.Dolphin(host);
        game := game.(mem1 := m1, mem2 := m2, endianness := e);
        proc := Some(game);
        if game.mem1.None? || game.mem2.None? {
          return false;
        }
      }
      if !WiiDolphin.KeepAlive(game, host) {
        game := game.(mem1 := None, mem2 := None);
        proc := Some(game);
      }
      ready := game.mem1.Some? && game.mem2.Some?;
    }
  }
}
