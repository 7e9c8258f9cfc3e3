/** src/shared/mod.rs: telling a 64-bit (x86-64) build from a 32-bit one. */
module Shared {
  import opened Host
  import opened Signature

  /** "PE\0\0" followed by 0x64, the low byte of the machine type 0x8664
      (IMAGE_FILE_MACHINE_AMD64, section 3.3.1 "Machine Types" of the Microsoft PE/COFF
      Specification). Five exact bytes, no wildcard. */
  const Sig64: Pattern := [Exact(0x50), Exact(0x45), Exact(0x00), Exact(0x00), Exact(0x64)]

  /** The scan covers a fixed first page of the image, whatever the module's size. */
  const HeaderLength: nat := 0x1000

  /** The PE signature of an AMD64 image starts at `a`. */
  predicate PeAmd64At(p: Process, a: nat) {
    && a in p.mem && p.mem[a] == 0x50
    && a + 1 in p.mem && p.mem[a + 1] == 0x45
    && a + 2 in p.mem && p.mem[a + 2] == 0x00
    && a + 3 in p.mem && p.mem[a + 3] == 0x00
    && a + 4 in p.mem && p.mem[a + 4] == 0x64
  }

  function CheckFor64Bit(p: Process, mainModuleBase: nat): (r: bool)
    ensures r <==> !NoMatch(p, Sig64, mainModuleBase, HeaderLength)
  {
    ScanProcessRange(p, Sig64, mainModuleBase, HeaderLength).Some?
  }

  lemma Sig64Bytes(p: Process, a: nat)
    ensures MatchesAt(p, Sig64, a) <==> PeAmd64At(p, a)
  {
    if PeAmd64At(p, a) {
      forall i | 0 <= i < 5 ensures TokenMatches(p, Sig64[i], a + i) {}
    }
    if MatchesAt(p, Sig64, a) {
      assert TokenMatches(p, Sig64[0], a + 0);
      assert TokenMatches(p, Sig64[1], a + 1);
      assert TokenMatches(p, Sig64[2], a + 2);
      assert TokenMatches(p, Sig64[3], a + 3);
      assert TokenMatches(p, Sig64[4], a + 4);
    }
  }

  /** The check is true exactly when the five bytes occur somewhere in the first
      0x1000 bytes from the module base. */
  lemma CheckFor64BitSpec(p: Process, base: nat)
    ensures CheckFor64Bit(p, base) <==>
      exists a :: base <= a && a + 5 <= base + HeaderLength && PeAmd64At(p, a)
  {
    if CheckFor64Bit(p, base) {
      var m := ScanProcessRange(p, Sig64, base, HeaderLength).value;
      Sig64Bytes(p, m);
    } else {
      forall a | base <= a && a + 5 <= base + HeaderLength ensures !PeAmd64At(p, a) {
        Sig64Bytes(p, a);
      }
    }
  }

  /** The check reads only the header page: memory outside it does not matter. */
  lemma CheckFor64BitLocal(p: Process, q: Process, base: nat)
    requires forall x :: base <= x < base + HeaderLength ==> (x in p.mem <==> x in q.mem)
    requires forall x :: base <= x < base + HeaderLength && x in p.mem ==> p.mem[x] == q.mem[x]
    ensures CheckFor64Bit(p, base) == CheckFor64Bit(q, base)
  {
    ScanLocal(p, q, Sig64, base, HeaderLength);
  }
}
