/** The host-process abstraction the core consumes: a snapshot of the emulator
    process as it is seen through its handle during one tick (whether the handle is
    still open, its readable memory, its loaded modules and its memory regions), and
    the typed reads the core performs on it. The host is little-endian: a typed read
    decodes its bytes least significant first. */
module Host {
  import opened Wrappers
  import opened Sequences

  type byte = x: int | 0 <= x < 256
  type u32 = x: int | 0 <= x < 0x1_0000_0000

  const U32_LIMIT: int := 0x1_0000_0000
  const U64_LIMIT: int := 0x1_0000_0000_0000_0000

  /** One entry of the process's memory-range list. The fields hold what the source
      uses after `unwrap_or_default`: address 0, size 0 or "not writable" when the
      host could not report them. */
  datatype Region = Region(address: nat, size: nat, writable: bool)

  /** What the attached handle observes. Module address and module size are looked up
      separately by the source, so each is a map of its own; a name missing from a
      map is a lookup that fails. A memory byte missing from `mem` is unreadable. */
  datatype Process = Process(
    open: bool,
    mem: map<nat, byte>,
    moduleBase: map<string, nat>,
    moduleSize: map<string, nat>,
    regions: seq<Region>)

  /** asr's dynamic endianness, used by the Wii reads. */
  datatype Endian = Big | Little

  /** Both the address and the size of the module resolve. */
  predicate Resolves(p: Process, name: string) {
    name in p.moduleBase && name in p.moduleSize
  }

  /** `names.iter().find(|n| get_module_address(n).is_ok())`: the index of the first
      name whose module address resolves. */
  function FirstLoaded(p: Process, names: seq<string>): (r: Option<nat>)
    ensures r.None? <==> forall i :: 0 <= i < |names| ==> names[i] !in p.moduleBase
    ensures r.Some? ==> r.value < |names| && names[r.value] in p.moduleBase
    ensures r.Some? ==> forall j :: 0 <= j < r.value ==> names[j] !in p.moduleBase
  {
    var i := FirstIndex(names, n => n in p.moduleBase);
    if i == |names| then None else Some(i)
  }

  /** The index of the first name whose module address and size both resolve. */
  function FirstResolving(p: Process, names: seq<string>): (r: Option<nat>)
    ensures r.None? <==> forall i :: 0 <= i < |names| ==> !Resolves(p, names[i])
    ensures r.Some? ==> r.value < |names| && Resolves(p, names[r.value])
    ensures r.Some? ==> forall j :: 0 <= j < r.value ==> !Resolves(p, names[j])
  {
    var i := FirstIndex(names, n => Resolves(p, n));
    if i == |names| then None else Some(i)
  }

  function Pow256(n: nat): (r: nat)
    ensures r > 0
  {
    if n == 0 then 1 else 256 * Pow256(n - 1)
  }

  /** The value of a byte string read least significant byte first. */
  function DecodeLE(bs: seq<byte>): (v: nat)
    ensures v < Pow256(|bs|)
  {
    if bs == [] then 0 else bs[0] + 256 * DecodeLE(bs[1..])
  }

  /** The `n`-byte little-endian encoding of `v` (truncated to `n` bytes). */
  function EncodeLE(v: nat, n: nat): (bs: seq<byte>)
    ensures |bs| == n
  {
    if n == 0 then [] else [v % 256] + EncodeLE(v / 256, n - 1)
  }

  lemma {:induction false} DecodeEncode(v: nat, n: nat)
    requires v < Pow256(n)
    ensures DecodeLE(EncodeLE(v, n)) == v
  {
    if n > 0 {
      DecodeEncode(v / 256, n - 1);
      assert EncodeLE(v, n)[1..] == EncodeLE(v / 256, n - 1);
    }
  }

  lemma {:induction false} EncodeDecode(bs: seq<byte>)
    ensures EncodeLE(DecodeLE(bs), |bs|) == bs
  {
    if bs != [] {
      var d := DecodeLE(bs[1..]);
      assert (bs[0] + 256 * d) % 256 == bs[0];
      assert (bs[0] + 256 * d) / 256 == d;
      EncodeDecode(bs[1..]);
    }
  }

  function Reverse<T>(s: seq<T>): (r: seq<T>)
    ensures |r| == |s|
    ensures forall i :: 0 <= i < |s| ==> r[i] == s[|s| - 1 - i]
  {
    seq(|s|, i requires 0 <= i < |s| => s[|s| - 1 - i])
  }

  /** Reversing the byte order of an `n`-byte value: `from_be` and `from_endian(Big)`
      on a little-endian host. */
  function ByteSwap(v: nat, n: nat): (r: nat)
    ensures r < Pow256(n)
  {
    DecodeLE(Reverse(EncodeLE(v, n)))
  }

  /** Swapping a value read from bytes gives the value of the reversed bytes. */
  lemma ByteSwapDecode(bs: seq<byte>)
    ensures ByteSwap(DecodeLE(bs), |bs|) == DecodeLE(Reverse(bs))
  {
    EncodeDecode(bs);
  }

  lemma ByteSwapInvolutive(v: nat, n: nat)
    requires v < Pow256(n)
    ensures ByteSwap(ByteSwap(v, n), n) == v
  {
    var e := EncodeLE(v, n);
    EncodeDecode(Reverse(e));
    assert Reverse(Reverse(e)) == e;
    DecodeEncode(v, n);
  }

  /** The 16-bit swap exchanges the two bytes of the value. */
  lemma ByteSwap16(v: nat)
    requires v < 0x1_0000
    ensures ByteSwap(v, 2) == (v % 256) * 256 + v / 256
  {
    var e := EncodeLE(v, 2);
    assert EncodeLE(v / 256, 1) == [(v / 256) % 256] + EncodeLE(v / 256 / 256, 0);
    assert e == [v % 256, (v / 256) % 256];
    assert Reverse(e) == [(v / 256) % 256, v % 256];
    assert DecodeLE([v % 256]) == v % 256;
    assert (v / 256) % 256 == v / 256;
  }

  /** Two's-complement reading of an `n`-byte pattern. */
  function Signed(v: nat, n: nat): (r: int)
    requires v < Pow256(n)
    ensures 2 * r < Pow256(n) && 0 <= 2 * r + Pow256(n)
    ensures r >= 0 ==> r == v
    ensures r < 0 ==> r + Pow256(n) == v
  {
    if 2 * v < Pow256(n) then v else v - Pow256(n)
  }

  /** Rust's `as u64` on a signed or wider integer: wrap modulo 2^64. */
  function ToU64(v: int): (r: nat)
    ensures r < U64_LIMIT
    ensures (r - v) % U64_LIMIT == 0
    ensures 0 <= v < U64_LIMIT ==> r == v
  {
    v % U64_LIMIT
  }

  /** Rust's `as i32` on a u64: keep the low 32 bits, read them as two's complement. */
  function ToI32(v: nat): (r: int)
    ensures -0x8000_0000 <= r < 0x8000_0000
    ensures (r - v) % U32_LIMIT == 0
  {
    assert Pow256(4) == U32_LIMIT;
    Signed(v % U32_LIMIT, 4)
  }

  predicate Readable(p: Process, a: nat, n: nat) {
    forall i :: a <= i < a + n ==> i in p.mem
  }

  /** `process.read` of `n` raw bytes at `a`; fails if any byte is unreadable. */
  function BytesAt(p: Process, a: nat, n: nat): (r: Option<seq<byte>>)
    ensures r.Some? <==> Readable(p, a, n)
    ensures r.Some? ==> |r.value| == n && forall i :: 0 <= i < n ==> r.value[i] == p.mem[a + i]
  {
    if Readable(p, a, n) then Some(seq(n, i requires 0 <= i < n => p.mem[a + i])) else None
  }

  /** An unsigned `n`-byte read, decoded on the little-endian host. */
  function UnsignedAt(p: Process, a: nat, n: nat): (r: Option<nat>)
    ensures r.Some? <==> Readable(p, a, n)
    ensures r.Some? ==> r.value < Pow256(n)
    ensures r.Some? ==> forall i :: 0 <= i < n ==> EncodeLE(r.value, n)[i] == p.mem[a + i]
  {
    var bs :- BytesAt(p, a, n);
    EncodeDecode(bs);
    Some(DecodeLE(bs))
  }

  function U8At(p: Process, a: nat): (r: Option<nat>)
    ensures r.Some? <==> a in p.mem
    ensures r.Some? ==> r.value == p.mem[a]
  {
    var v := UnsignedAt(p, a, 1);
    assert Readable(p, a, 1) <==> a in p.mem;
    if v.Some? then assert EncodeLE(v.value, 1)[0] == v.value % 256; v else v
  }

  function U16At(p: Process, a: nat): (r: Option<nat>)
    ensures r.Some? <==> a in p.mem && a + 1 in p.mem
    ensures r.Some? ==> r.value == p.mem[a] as int + 256 * (p.mem[a + 1] as int)
  {
    var v := UnsignedAt(p, a, 2);
    assert Readable(p, a, 2) <==> a in p.mem && a + 1 in p.mem;
    if v.Some? then
      DecodeEncode(v.value, 2);
      assert EncodeLE(v.value, 2) == [p.mem[a], p.mem[a + 1]];
      v
    else v
  }

  function U32At(p: Process, a: nat): (r: Option<nat>)
    ensures r.Some? <==> Readable(p, a, 4)
    ensures r.Some? ==> r.value < U32_LIMIT
    ensures r.Some? ==> forall i :: 0 <= i < 4 ==> EncodeLE(r.value, 4)[i] == p.mem[a + i]
  {
    assert Pow256(4) == U32_LIMIT;
    UnsignedAt(p, a, 4)
  }

  function U64At(p: Process, a: nat): (r: Option<nat>)
    ensures r.Some? <==> Readable(p, a, 8)
    ensures r.Some? ==> r.value < U64_LIMIT
    ensures r.Some? ==> forall i :: 0 <= i < 8 ==> EncodeLE(r.value, 8)[i] == p.mem[a + i]
  {
    assert Pow256(8) == U64_LIMIT;
    UnsignedAt(p, a, 8)
  }

  function I32At(p: Process, a: nat): (r: Option<int>)
    ensures r.Some? <==> Readable(p, a, 4)
    ensures r.Some? ==> -0x8000_0000 <= r.value < 0x8000_0000
    ensures r.Some? ==> (r.value - U32At(p, a).value) % U32_LIMIT == 0
  {
    assert Pow256(4) == U32_LIMIT;
    var v :- U32At(p, a);
    Some(Signed(v, 4))
  }

  /** A u32 pointer read at `a` and followed to the u32 it points at (both
      zero-extended). */
  function DoubleDeref(p: Process, a: nat): (r: Option<nat>)
    ensures r.Some? <==> U32At(p, a).Some? && U32At(p, U32At(p, a).value).Some?
    ensures r.Some? ==> r == U32At(p, U32At(p, a).value)
  {
    match U32At(p, a)
    case None => None
    case Some(ptr) => U32At(p, ptr)
  }

  /** A read that only probes (`read::<u8>(a).is_ok()`). */
  predicate Probe(p: Process, a: nat) {
    U8At(p, a).Some?
  }
}
