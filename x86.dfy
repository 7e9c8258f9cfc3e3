/** The two x86 operand encodings the recipes decode. Both are displacements relative
    to the end of the instruction: for a RIP-relative memory operand (section 2.2.1.6
    of the Intel 64 and IA-32 Architectures Software Developer's Manual, Vol. 2A) and
    for a CALL rel32 the 4-byte displacement is the last field of the instruction, so
    the target is the displacement's own address plus 4 plus the displacement. */
module X86 {
  import opened Wrappers
  import opened Host

  /** The 64-bit target of the RIP-relative operand whose disp32 field sits at `a`:
      `a + 4 + disp` computed in i64 and cast to `u64`. */
  function RipTarget(p: Process, a: nat): (r: Option<nat>)
    ensures r.Some? <==> Readable(p, a, 4)
    ensures r.Some? ==> r.value < U64_LIMIT
    ensures r.Some? ==> (r.value - (a + 4 + I32At(p, a).value)) % U64_LIMIT == 0
  {
    var disp :- I32At(p, a);
    Some(ToU64(a + 4 + disp))
  }

  /** A target inside the 64-bit address space is the exact sum. */
  lemma RipTargetExact(p: Process, a: nat)
    requires Readable(p, a, 4)
    requires 0 <= a + 4 + I32At(p, a).value < U64_LIMIT
    ensures RipTarget(p, a) == Some(a + 4 + I32At(p, a).value)
  {
  }
}
