/** src/ps1/pcsx_redux.rs: locating the RAM of PCSX-Redux. The recipe remembers where
    it read the RAM pointer (`addr_base`) and what it read there (`addr`), and the
    keep-alive re-reads that cell and compares. */
module Ps1PcsxRedux {
  import opened Wrappers
  import opened Host
  import opened Signature
  import opened Ps1
  import Shared

  /** `STATICDATA` as a value: the bitness of the build, the pointer cell and the
      pointer read from it. */
  datatype Statics = Statics(is64Bit: bool, addrBase: nat, addr: nat)

  /** 64-bit, the RAM pointer's cell: `48 B9 ?? ?? ?? ?? ?? ?? ?? ?? E8 ?? ?? ?? ?? C7 85 ?? ?? ?? ?? 00 00 00 00`
      (a MOV of a 64-bit immediate, whose operand is at match + 2). */
  const SigBase64: Pattern :=
    Bytes([0x48, 0xB9]) + Wild(8) + Bytes([0xE8]) + Wild(4) + Bytes([0xC7, 0x85]) + Wild(4) + Bytes([0x00, 0x00, 0x00, 0x00])

  /** 64-bit, the field offset: `89 D1 C1 E9 10 48 8B ?? ??` (its 8-bit displacement is
      at match + 8). */
  const SigOffset64: Pattern := Bytes([0x89, 0xD1, 0xC1, 0xE9, 0x10, 0x48, 0x8B]) + Wild(2)

  /** 32-bit: `8B 3D 20 ?? ?? ?? 0F B7 D3 8B 04 95 ?? ?? ?? ?? 21 05`, searched in the
      writable regions; the pointer cell's address is at match + 2. */
  const Sig32: Pattern :=
    Bytes([0x8B, 0x3D, 0x20]) + Wild(3) + Bytes([0x0F, 0xB7, 0xD3, 0x8B, 0x04, 0x95]) + Wild(4) + Bytes([0x21, 0x05])

  /** The 64-bit branch, over the main module `[base, base + size)`. `addr_base` is
      written as soon as the first scan matches and `addr` as soon as the cell is
      read, so a later failure leaves them updated. */
  function Locate64(host: Process, base: nat, size: nat, s: Statics): (r: (Option<nat>, Statics))
    ensures r.1.is64Bit == s.is64Bit
    ensures NoMatch(host, SigBase64, base, size) ==> r == (None, s)
  {
    match ScanProcessRange(host, SigBase64, base, size)
    case None => (None, s)
    case Some(m0) =>
      var s1 := s.(addrBase := m0 + 2);
      match U64At(host, m0 + 2)
      case None => (None, s1)
      case Some(addr) =>
        var s2 := s1.(addr := addr);
        match ScanProcessRange(host, SigOffset64, base, size)
        case None => (None, s2)
        case Some(m1) =>
          match U8At(host, m1 + 8)
          case None => (None, s2)
          case Some(off) =>
            match U64At(host, addr + off)
            case None => (None, s2)
            case Some(ptr) => (U64At(host, ptr), s2)
  }

  /** The 32-bit branch: the first writable region with a match decides, `addr_base`
      is written before the cell is read, and the RAM address is the cell's u32,
      zero-extended, not dereferenced further. */
  function Locate32(host: Process, s: Statics): (r: (Option<nat>, Statics))
    ensures r.1.is64Bit == s.is64Bit
  {
    match ScanRegions(host, Sig32, AnyWritable)
    case None => (None, s)
    case Some(m) =>
      var s1 := s.(addrBase := m + 2);
      match U32At(host, m + 2)
      case None => (None, s1)
      case Some(addr) => (Some(addr), s1.(addr := addr))
  }

  /** The 64-bit branch writes as it goes: a match of the first signature writes
      `addr_base`, and a readable cell also writes `addr`, whatever happens after. */
  lemma Locate64Writes(host: Process, base: nat, size: nat, s: Statics, m0: nat)
    requires FirstMatch(host, SigBase64, base, size, m0)
    ensures var r := Locate64(host, base, size, s);
      && (!Readable(host, m0 + 2, 8) ==> r == (None, s.(addrBase := m0 + 2)))
      && (Readable(host, m0 + 2, 8) ==> r.1 == s.(addrBase := m0 + 2, addr := U64At(host, m0 + 2).value))
  {
    FirstMatchUnique(host, SigBase64, base, size, ScanProcessRange(host, SigBase64, base, size).value, m0);
  }

  /** The 64-bit result: with both signatures matching first at `m0` and `m1`, the RAM
      address is the u64 at the u64 at `addr + offset`, where `addr` is the u64 at
      `m0 + 2` and `offset` the byte at `m1 + 8`; any unreadable step gives none. */
  lemma Locate64Result(host: Process, base: nat, size: nat, s: Statics, m0: nat, m1: nat)
    requires FirstMatch(host, SigBase64, base, size, m0)
    requires FirstMatch(host, SigOffset64, base, size, m1)
    ensures var r := Locate64(host, base, size, s);
      && (U64At(host, m0 + 2).None? || U8At(host, m1 + 8).None? ==> r.0 == None)
      && (U64At(host, m0 + 2).Some? && U8At(host, m1 + 8).Some? ==>
            var ptr := U64At(host, U64At(host, m0 + 2).value + U8At(host, m1 + 8).value);
            && (ptr.None? ==> r.0 == None)
            && (ptr.Some? ==> r.0 == U64At(host, ptr.value)))
  {
    FirstMatchUnique(host, SigBase64, base, size, ScanProcessRange(host, SigBase64, base, size).value, m0);
    FirstMatchUnique(host, SigOffset64, base, size, ScanProcessRange(host, SigOffset64, base, size).value, m1);
    assert ScanProcessRange(host, SigBase64, base, size) == Some(m0);
    assert ScanProcessRange(host, SigOffset64, base, size) == Some(m1);
  }

  /** Without a match of the offset signature the 64-bit branch finds nothing. */
  lemma Locate64NoOffset(host: Process, base: nat, size: nat, s: Statics)
    requires NoMatch(host, SigOffset64, base, size)
    ensures Locate64(host, base, size, s).0 == None
  {
  }

  /** The 32-bit branch: no match in a writable region writes nothing; otherwise
      `addr_base` is written before the cell is read, and the RAM address is the
      cell's u32, zero-extended, not dereferenced further. */
  lemma Locate32Spec(host: Process, s: Statics)
    ensures ScanRegions(host, Sig32, AnyWritable).None? ==> Locate32(host, s) == (None, s)
    ensures forall m: nat :: RegionMatch(host, Sig32, AnyWritable, m) ==>
      var r := Locate32(host, s);
      && r.0 == U32At(host, m + 2)
      && r.1 == s.(addrBase := m + 2, addr := if r.0.Some? then r.0.value else s.addr)
  {
    ScanRegionsSpec(host, Sig32, AnyWritable);
  }

  /** `pcsx_redux::pcsx_redux` as a value: the RAM address found and the static data
      it leaves. Nothing is written unless the main module's address and size resolve;
      then the bitness is stored before the branch. */
  function Locate(host: Process, s: Statics): (r: (Option<nat>, Statics))
    ensures ResolvedModule(host, PcsxRedux).None? ==> r == (None, s)
    ensures r.0.Some? ==> ResolvedModule(host, PcsxRedux).Some?
    ensures r.1.is64Bit == (if ResolvedModule(host, PcsxRedux).Some?
                            then Shared.CheckFor64Bit(host, ResolvedModule(host, PcsxRedux).value.0) else s.is64Bit)
    ensures ResolvedModule(host, PcsxRedux).Some? ==>
      var (base, size) := ResolvedModule(host, PcsxRedux).value;
      r == (if Shared.CheckFor64Bit(host, base) then Locate64(host, base, size, s.(is64Bit := true))
            else Locate32(host, s.(is64Bit := false)))
  {
    match ResolvedModule(host, PcsxRedux)
    case None => (None, s)
    case Some(main) =>
      var (base, size) := main;
      var is64 := Shared.CheckFor64Bit(host, base);
      if is64 then Locate64(host, base, size, s.(is64Bit := true)) else Locate32(host, s.(is64Bit := false))
  }

  /** `pcsx_redux::keep_alive`: the pointer cell is known and still holds the pointer
      that was read from it (a u64 in a 64-bit build, a zero-extended u32 otherwise). */
  function KeepAlive(host: Process, s: Statics): (r: bool)
    ensures s.addrBase == 0 ==> !r
    ensures s.addrBase != 0 && s.is64Bit ==> (r <==> U64At(host, s.addrBase) == Some(s.addr))
    ensures s.addrBase != 0 && !s.is64Bit ==> (r <==> U32At(host, s.addrBase) == Some(s.addr))
  {
    if s.addrBase == 0 then false
    else if s.is64Bit then U64At(host, s.addrBase) == Some(s.addr)
    else
      match U32At(host, s.addrBase)
      case None => false
      case Some(a) => s.addr == a
  }

  /** A successful search leaves static data that the keep-alive accepts as long as the
      process's memory is unchanged: the cell is nonzero and still holds `addr`. */
  lemma KeepAliveAfterLocate(host: Process, s: Statics)
    requires Locate(host, s).0.Some?
    ensures KeepAlive(host, Locate(host, s).1)
  {
    var (base, size) := ResolvedModule(host, PcsxRedux).value;
    if Shared.CheckFor64Bit(host, base) {
      var m0 := ScanProcessRange(host, SigBase64, base, size).value;
      assert FirstMatch(host, SigBase64, base, size, m0);
    } else {
      ScanRegionsSpec(host, Sig32, AnyWritable);
      var m := ScanRegions(host, Sig32, AnyWritable).value;
      assert RegionMatch(host, Sig32, AnyWritable, m);
    }
  }

  /** `STATICDATA`. */
  class StaticData {
    var is64Bit: bool
    var addrBase: nat
    var addr: nat

    constructor()
      ensures is64Bit == false && addrBase == 0 && addr == 0
    {
      is64Bit, addrBase, addr := false, 0, 0;
    }

    function Snapshot(): Statics
      reads this
    {
      Statics(is64Bit, addrBase, addr)
    }

    /** `pcsx_redux::pcsx_redux`: the bitness is stored, then the branch writes the
        remaining fields one by one as the values are computed. */
    method PcsxRedux(host: Process) returns (r: Option<nat>)
      modifies this
      ensures (r, Snapshot()) == Locate(host, old(Snapshot()))
    {
      var main := ResolvedModule(host, Emulator.PcsxRedux);
      if main.None? {
        return None;
      }
      var base, size := main.value.0, main.value.1;
      var is64 := Shared.CheckFor64Bit(host, base);
      is64Bit := is64;
      if is64 {
        r := Search64(host, base, size);
      } else {
        r := Search32(host);
      }
    }

    /** The 64-bit branch over the main module `[base, base + size)`. */
    method Search64(host: Process, base: nat, size: nat) returns (r: Option<nat>)
      modifies this
      ensures (r, Snapshot()) == Locate64(host, base, size, old(Snapshot()))
    {
      var m0 := ScanProcessRange(host, SigBase64, base, size);
      if m0.None? {
        return None;
      }
      addrBase := m0.value + 2;
      var cell := U64At(host, addrBase);
      if cell.None? {
        return None;
      }
      addr := cell.value;
      var m1 := ScanProcessRange(host, SigOffset64, base, size);
      if m1.None? {
        return None;
      }
      var off := U8At(host, m1.value + 8);
      if off.None? {
        return None;
      }
      var ptr := U64At(host, addr + off.value);
      if ptr.None? {
        return None;
      }
      r := U64At(host, ptr.value);
    }

    /** The 32-bit branch over the writable regions. */
    method Search32(host: Process) returns (r: Option<nat>)
      modifies this
      ensures (r, Snapshot()) == Locate32(host, old(Snapshot()))
    {
      var m := ScanRegions(host, Sig32, AnyWritable);
      if m.None? {
        return None;
      }
      addrBase := m.value + 2;
      var cell := U32At(host, addrBase);
      if cell.None? {
        return None;
      }
      addr := cell.value;
      r := Some(addr);
    }
  }
}
