/** src/ps1/xebra.rs: locating the RAM of XEBRA, whose address arithmetic is done in
    `i32`. */
module Ps1Xebra {
  import opened Wrappers
  import opened Host
  import opened Signature

  const Name: string := "XEBRA.EXE"

  /** `E8 ?? ?? ?? ?? E9 ?? ?? ?? ?? 89 C8 C1 F8 10`: a CALL rel32, then a JMP. */
  const Sig: Pattern := Bytes([0xE8]) + Wild(4) + Bytes([0xE9]) + Wild(4) + Bytes([0x89, 0xC8, 0xC1, 0xF8, 0x10])

  /** The offset of the RAM pointer's pointer inside the called routine. */
  const PointerOffset: nat := 0x16A

  /** The CALL's target: the rel32 field sits at `p` (an i32, sign-extended to an
      address), and the target is `p + 4 + rel32`. */
  function CallTarget(host: Process, p: int): (r: Option<int>)
    ensures r.Some? <==> Readable(host, ToU64(p), 4)
    ensures r.Some? ==> r.value == p + 4 + I32At(host, ToU64(p)).value
  {
    var rel :- I32At(host, ToU64(p));
    Some(p + 4 + rel)
  }

  /** The chain after the scan: the routine's pointer at target + 0x16A (an i32), and
      the RAM address it points at (an i32, sign-extended to 64 bits). */
  function Chain(host: Process, p: int): (r: Option<nat>)
    ensures CallTarget(host, p).None? ==> r.None?
    ensures CallTarget(host, p).Some? && I32At(host, ToU64(CallTarget(host, p).value) + PointerOffset).None? ==> r.None?
    ensures CallTarget(host, p).Some? && I32At(host, ToU64(CallTarget(host, p).value) + PointerOffset).Some? ==>
      var q := I32At(host, ToU64(CallTarget(host, p).value) + PointerOffset).value;
      && (r.Some? <==> Readable(host, ToU64(q), 4))
      && (r.Some? ==> r.value == ToU64(I32At(host, ToU64(q)).value))
  {
    match CallTarget(host, p)
    case None => None
    case Some(t) =>
      match I32At(host, ToU64(t) + PointerOffset)
      case None => None
      case Some(q) =>
        match I32At(host, ToU64(q))
        case None => None
        case Some(v) => Some(ToU64(v))
  }

  /** `xebra::xebra`: the rel32 field is at `(match as i32) + 1`. The RAM address is
      read as an i32 and sign-extended, so it lies within 2^31 of 0 modulo 2^64. */
  function Xebra(host: Process): (r: Option<nat>)
    ensures NoModuleMatch(host, Name, Sig) ==> r.None?
    ensures forall m: nat :: ModuleMatch(host, Name, Sig, m) ==> r == Chain(host, ToI32(m) + 1)
    ensures r.Some? ==> r.value < 0x8000_0000 || U64_LIMIT - 0x8000_0000 <= r.value
  {
    match ScanModule(host, Name, Sig)
    case None => None
    case Some(m) => Chain(host, ToI32(m) + 1)
  }

  /** A negative i32 becomes an address in the top 2 GiB: sign extension, not zero
      extension. */
  lemma XebraSignExtends(v: int)
    requires -0x8000_0000 <= v < 0
    ensures ToU64(v) == U64_LIMIT + v
  {
  }

  /** Below 2^31 the match address survives the `as i32` cast unchanged. */
  lemma SmallMatchExact(m: nat)
    requires m < 0x8000_0000
    ensures ToI32(m) == m
  {
    assert Pow256(4) == U32_LIMIT;
  }
}
