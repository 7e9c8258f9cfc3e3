/** src/ps1/duckstation.rs: locating the RAM of DuckStation. The recipe keeps the
    address of the RAM pointer (`addr`), and the keep-alive re-reads the pointer from
    it, refreshing the session's RAM base. */
module Ps1Duckstation {
  import opened Wrappers
  import opened Host
  import opened Signature
  import opened Ps1
  import X86

  /** `48 89 0D ?? ?? ?? ?? B8`: a RIP-relative store of the RAM pointer. */
  const Sig: Pattern := Bytes([0x48, 0x89, 0x0D]) + Wild(4) + Bytes([0xB8])

  /** The anchor: the target of the RIP-relative operand at match + 3 inside the first
      DuckStation module whose address and size resolve. */
  function Anchor(host: Process): (r: Option<nat>)
    ensures ResolvedModule(host, Duckstation).None? ==> r.None?
    ensures ResolvedModule(host, Duckstation).Some? ==>
      var (base, size) := ResolvedModule(host, Duckstation).value;
      && (NoMatch(host, Sig, base, size) ==> r.None?)
      && forall m: nat :: FirstMatch(host, Sig, base, size, m) ==> r == X86.RipTarget(host, m + 3)
  {
    match ResolvedModule(host, Duckstation)
    case None => None
    case Some(main) =>
      match ScanProcessRange(host, Sig, main.0, main.1)
      case None => None
      case Some(m) => X86.RipTarget(host, m + 3)
  }

  /** `duckstation::duckstation` without its write to `addr`: the RAM address is the u64
      stored at the anchor. */
  function Locate(host: Process): (r: Option<nat>)
    ensures Anchor(host).None? ==> r.None?
    ensures Anchor(host).Some? ==> (r.Some? <==> Readable(host, Anchor(host).value, 8))
    ensures r.Some? ==> r == U64At(host, Anchor(host).value)
  {
    match Anchor(host)
    case None => None
    case Some(a) => U64At(host, a)
  }

  /** `duckstation::keep_alive`: a readable pointer at the anchor replaces the session's
      RAM base and keeps the session alive; an unreadable one changes nothing. */
  function KeepAlive(host: Process, anchor: nat, info: ProcessInfo): (r: (bool, ProcessInfo))
    ensures r.0 <==> Readable(host, anchor, 8)
    ensures r.0 ==> r.1 == info.(wramBase := U64At(host, anchor))
    ensures !r.0 ==> r.1 == info
  {
    match U64At(host, anchor)
    case None => (false, info)
    case Some(v) => (true, info.(wramBase := Some(v)))
  }

  /** Right after a successful search, the keep-alive on the same memory succeeds and
      leaves the RAM base just found. */
  lemma KeepAliveAfterLocate(host: Process, info: ProcessInfo)
    requires Locate(host).Some?
    ensures KeepAlive(host, Anchor(host).value, info.(wramBase := Locate(host))) == (true, info.(wramBase := Locate(host)))
  {
  }

  /** `STATICDATA`: the anchor, written by `duckstation` and read by `keep_alive`. */
  class StaticData {
    var addr: nat

    constructor()
      ensures addr == 0
    {
      addr := 0;
    }

    /** `duckstation::duckstation`: the anchor is stored before it is dereferenced, so a
        failed final read still leaves it updated. */
    method Duckstation(host: Process) returns (r: Option<nat>)
      modifies this
      ensures r == Locate(host)
      ensures addr == (if Anchor(host).Some? then Anchor(host).value else old(addr))
    {
      var main := ResolvedModule(host, Emulator.Duckstation);
      if main.None? {
        return None;
      }
      var m := ScanProcessRange(host, Sig, main.value.0, main.value.1);
      if m.None? {
        return None;
      }
      var anchor := X86.RipTarget(host, m.value + 3);
      if anchor.None? {
        return None;
      }
      addr := anchor.value;
      r := U64At(host, addr);
    }
  }
}
