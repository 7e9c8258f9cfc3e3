/** src/ps1/psxfin.rs: locating the RAM of pSX, whose builds need one of four
    signatures. */
module Ps1PsxFin {
  import opened Wrappers
  import opened Host
  import opened Signature
  import opened Ps1

  /** The signatures, newest build first, each with the offset of its operand from the
      match: v1.13 `8B 15 ?? ?? ?? ?? 8D 34 1A`, v1.12 `A1 ?? ?? ?? ?? 8D 34 18`,
      v1.5 through v1.11 `A1 ?? ?? ?? ?? 8B 7C 24 14`, v1.0 through v1.4
      `A1 ?? ?? ?? ?? 8B 6C 24`. */
  const Sigs: seq<(Pattern, nat)> := [
    (Bytes([0x8B, 0x15]) + Wild(4) + Bytes([0x8D, 0x34, 0x1A]), 2),
    (Bytes([0xA1]) + Wild(4) + Bytes([0x8D, 0x34, 0x18]), 1),
    (Bytes([0xA1]) + Wild(4) + Bytes([0x8B, 0x7C, 0x24, 0x14]), 1),
    (Bytes([0xA1]) + Wild(4) + Bytes([0x8B, 0x6C, 0x24]), 1)
  ]

  /** The first of `sigs[k..]` that matches in the range, as (index, match). */
  function FirstSig(host: Process, sigs: seq<(Pattern, nat)>, k: nat, start: nat, len: nat): (r: Option<(nat, nat)>)
    requires k <= |sigs|
    ensures r.None? ==> forall j :: k <= j < |sigs| ==> NoMatch(host, sigs[j].0, start, len)
    ensures r.Some? ==> k <= r.value.0 < |sigs| && FirstMatch(host, sigs[r.value.0].0, start, len, r.value.1)
    ensures r.Some? ==> forall j :: k <= j < r.value.0 ==> NoMatch(host, sigs[j].0, start, len)
    decreases |sigs| - k
  {
    if k == |sigs| then None
    else match ScanProcessRange(host, sigs[k].0, start, len)
      case Some(m) => Some((k, m))
      case None => FirstSig(host, sigs, k + 1, start, len)
  }

  /** In the range, signature `k` is the first of the list with a match, and `m` is
      its first match. */
  ghost predicate Chosen(host: Process, start: nat, len: nat, k: nat, m: nat) {
    && k < |Sigs|
    && FirstMatch(host, Sigs[k].0, start, len, m)
    && forall j :: 0 <= j < k ==> NoMatch(host, Sigs[j].0, start, len)
  }

  /** The RAM pointer of a build's operand: a pointer to the RAM pointer, and 0 counts
      as not found. */
  function Deref(host: Process, operand: nat): (r: Option<nat>)
    ensures r.Some? ==> 0 < r.value < U32_LIMIT
    ensures r.Some? <==> DoubleDeref(host, operand).Some? && DoubleDeref(host, operand).value != 0
    ensures r.Some? ==> r == DoubleDeref(host, operand)
  {
    var v := DoubleDeref(host, operand);
    if v == Some(0) then None else v
  }

  /** The signature search over the module's range. A failed operand read ends the
      search (the later signatures are not tried). */
  function Search(host: Process, start: nat, len: nat): (r: Option<nat>)
    ensures (forall j :: 0 <= j < |Sigs| ==> NoMatch(host, Sigs[j].0, start, len)) ==> r.None?
    ensures forall k: nat, m: nat :: Chosen(host, start, len, k, m) ==> r == Deref(host, m + Sigs[k].1)
  {
    match FirstSig(host, Sigs, 0, start, len)
    case None => None
    case Some(hit) =>
      forall k: nat, m: nat | Chosen(host, start, len, k, m) ensures (k, m) == hit {
        FirstMatchUnique(host, Sigs[k].0, start, len, m, hit.1);
      }
      Deref(host, hit.1 + Sigs[hit.0].1)
  }

  /** `psxfin::psxfin`. */
  function PsxFin(host: Process): (r: Option<nat>)
    ensures ResolvedModule(host, Emulator.PsxFin).None? ==> r.None?
    ensures ResolvedModule(host, Emulator.PsxFin).Some? ==> r == Search(host, ResolvedModule(host, Emulator.PsxFin).value.0, ResolvedModule(host, Emulator.PsxFin).value.1)
    ensures r.Some? ==> 0 < r.value < U32_LIMIT
  {
    match ResolvedModule(host, Emulator.PsxFin)
    case None => None
    case Some(range) => Search(host, range.0, range.1)
  }

  /** A later build's signature is never consulted once an earlier one matches. */
  lemma EarlierSignatureWins(host: Process, start: nat, len: nat, m: nat)
    requires FirstMatch(host, Sigs[0].0, start, len, m)
    ensures Search(host, start, len) == Deref(host, m + 2)
  {
    assert Chosen(host, start, len, 0, m);
  }
}
