/** src/genesis/segaclassics.rs: locating the RAM of the SEGA Game Room and SEGA Genesis
    Classics builds. */
module GenesisSegaClassics {
  import opened Wrappers
  import opened Host
  import opened Signature
  import opened Genesis

  const GameRoom: string := "SEGAGameRoom.exe"
  const Classics: string := "SEGAGenesisClassics.exe"

  /** `C7 05 ???????? ???????? A3 ???????? A3 ????????` */
  const SigGameRoom: Pattern := Bytes([0xC7, 0x05]) + Wild(8) + Bytes([0xA3]) + Wild(4) + Bytes([0xA3]) + Wild(4)

  /** `89 2D ???????? 89 0D ????????` */
  const SigClassics: Pattern := Bytes([0x89, 0x2D]) + Wild(4) + Bytes([0x89, 0x0D]) + Wild(4)

  /** The operand of the build's signature: Game Room when its module address resolves
      (then its size must resolve and its signature match: there is no fallback),
      Genesis Classics otherwise. */
  function Operand(host: Process): (r: Option<nat>)
    ensures GameRoom in host.moduleBase ==>
      && (NoModuleMatch(host, GameRoom, SigGameRoom) ==> r.None?)
      && forall m: nat :: ModuleMatch(host, GameRoom, SigGameRoom, m) ==> r == Some(m + 2)
    ensures GameRoom !in host.moduleBase ==>
      && (NoModuleMatch(host, Classics, SigClassics) ==> r.None?)
      && forall m: nat :: ModuleMatch(host, Classics, SigClassics, m) ==> r == Some(m + 8)
  {
    if GameRoom in host.moduleBase then
      match ScanModule(host, GameRoom, SigGameRoom)
      case None => None
      case Some(m) => Some(m + 2)
    else
      match ScanModule(host, Classics, SigClassics)
      case None => None
      case Some(m) => Some(m + 8)
  }

  /** `segaclassics::segaclassics`: the RAM address is two u32 dereferences away from the
      operand; little-endian is set only when the whole chain succeeds. */
  function SegaClassics(host: Process, e: Endianness): (r: Outcome)
    ensures Operand(host).None? ==> r == Outcome(None, e)
    ensures Operand(host).Some? ==> r.wram == DoubleDeref(host, Operand(host).value)
    ensures r.endianness == (if r.wram.Some? then LittleEndian else e)
    ensures r.wram.Some? ==> r.wram.value < U32_LIMIT
  {
    match Operand(host)
    case None => Outcome(None, e)
    case Some(ptr) =>
      match DoubleDeref(host, ptr)
      case None => Outcome(None, e)
      case Some(wram) => Outcome(Some(wram), LittleEndian)
  }

  /** Once the Game Room module address resolves, the Genesis Classics module does
      not matter: changing its address and size changes nothing. */
  lemma GameRoomShadowsClassics(host: Process, e: Endianness, base: nat, size: nat)
    requires GameRoom in host.moduleBase
    ensures var host' := host.(moduleBase := host.moduleBase[Classics := base],
                               moduleSize := host.moduleSize[Classics := size]);
      SegaClassics(host', e) == SegaClassics(host, e)
  {
    var host' := host.(moduleBase := host.moduleBase[Classics := base],
                       moduleSize := host.moduleSize[Classics := size]);
    assert Resolves(host', GameRoom) == Resolves(host, GameRoom);
    if Resolves(host, GameRoom) {
      ScanLocal(host, host', SigGameRoom, host.moduleBase[GameRoom], host.moduleSize[GameRoom]);
    }
    assert Operand(host') == Operand(host);
  }
}
