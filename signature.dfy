/** The signature scanner (asr's `Signature::scan_process_range`, a foreign routine).
    It is given a reference definition that follows its documented behaviour: the
    candidate start addresses of a range are tried in ascending order, a candidate
    matches when every byte under the pattern is readable and equals the pattern's
    byte wherever the pattern is not a wildcard, and the lowest match is returned. */
module Signature {
  import opened Wrappers
  import opened Host
  import opened Sequences

  datatype Token = Exact(b: byte) | Any

  type Pattern = seq<Token>

  /** The exact bytes of a signature string, in order. */
  function Bytes(bs: seq<byte>): (pat: Pattern)
    ensures |pat| == |bs|
    ensures forall i :: 0 <= i < |bs| ==> pat[i] == Exact(bs[i])
  {
    seq(|bs|, i requires 0 <= i < |bs| => Exact(bs[i]))
  }

  /** `n` wildcard bytes (`??`). */
  function Wild(n: nat): (pat: Pattern)
    ensures |pat| == n
    ensures forall i :: 0 <= i < n ==> pat[i] == Any
  {
    seq(n, i => Any)
  }

  /** The byte at `x` is readable and agrees with the token. */
  predicate TokenMatches(p: Process, t: Token, x: nat) {
    x in p.mem && (t.Exact? ==> p.mem[x] == t.b)
  }

  predicate MatchesAt(p: Process, pat: Pattern, a: nat) {
    forall i :: 0 <= i < |pat| ==> TokenMatches(p, pat[i], a + i)
  }

  /** The pattern placed at `a` lies inside the range `[start, start + len)`. */
  predicate InRange(pat: Pattern, start: nat, len: nat, a: nat) {
    start <= a && a + |pat| <= start + len
  }

  /** `m` is the lowest address of the range at which the pattern matches. */
  ghost predicate FirstMatch(p: Process, pat: Pattern, start: nat, len: nat, m: nat) {
    && InRange(pat, start, len, m)
    && MatchesAt(p, pat, m)
    && forall a :: start <= a < m ==> !MatchesAt(p, pat, a)
  }

  /** The pattern matches nowhere in the range. */
  ghost predicate NoMatch(p: Process, pat: Pattern, start: nat, len: nat) {
    forall a :: InRange(pat, start, len, a) ==> !MatchesAt(p, pat, a)
  }

  lemma FirstMatchUnique(p: Process, pat: Pattern, start: nat, len: nat, m1: nat, m2: nat)
    requires FirstMatch(p, pat, start, len, m1) && FirstMatch(p, pat, start, len, m2)
    ensures m1 == m2
  {
  }

  function ScanFrom(p: Process, pat: Pattern, a: nat, end: nat): (r: Option<nat>)
    ensures r.Some? ==> a <= r.value && r.value + |pat| <= end && MatchesAt(p, pat, r.value)
    ensures r.Some? ==> forall x :: a <= x < r.value ==> !MatchesAt(p, pat, x)
    ensures r.None? ==> forall x :: a <= x && x + |pat| <= end ==> !MatchesAt(p, pat, x)
    decreases end - a
  {
    if a + |pat| > end then None
    else if MatchesAt(p, pat, a) then Some(a)
    else ScanFrom(p, pat, a + 1, end)
  }

  /** `Signature::scan_process_range(process, start, len)`. */
  function ScanProcessRange(p: Process, pat: Pattern, start: nat, len: nat): (r: Option<nat>)
    ensures r.Some? ==> FirstMatch(p, pat, start, len, r.value)
    ensures r.None? <==> NoMatch(p, pat, start, len)
  {
    ScanFrom(p, pat, start, start + len)
  }

  /** The result of a scan depends only on the bytes inside the scanned range. */
  lemma {:induction false} ScanFromLocal(p: Process, q: Process, pat: Pattern, a: nat, end: nat)
    requires forall x :: a <= x < end ==> (x in p.mem <==> x in q.mem)
    requires forall x :: a <= x < end && x in p.mem ==> p.mem[x] == q.mem[x]
    ensures ScanFrom(p, pat, a, end) == ScanFrom(q, pat, a, end)
    decreases end - a
  {
    if a + |pat| <= end {
      forall i | 0 <= i < |pat|
        ensures TokenMatches(p, pat[i], a + i) <==> TokenMatches(q, pat[i], a + i)
      {
        assert a + i < end;
      }
      assert MatchesAt(p, pat, a) <==> MatchesAt(q, pat, a);
      ScanFromLocal(p, q, pat, a + 1, end);
    }
  }

  /** `ScanProcessRange` reads nothing outside `[start, start + len)`. */
  lemma ScanLocal(p: Process, q: Process, pat: Pattern, start: nat, len: nat)
    requires forall x :: start <= x < start + len ==> (x in p.mem <==> x in q.mem)
    requires forall x :: start <= x < start + len && x in p.mem ==> p.mem[x] == q.mem[x]
    ensures ScanProcessRange(p, pat, start, len) == ScanProcessRange(q, pat, start, len)
  {
    ScanFromLocal(p, q, pat, start, start + len);
  }

  /** The memory-range filters that the region scans apply. */
  datatype RegionFilter = AnyWritable | WritableOfSize(size: nat)

  predicate Admits(f: RegionFilter, r: Region) {
    match f
    case AnyWritable => r.writable
    case WritableOfSize(n) => r.writable && r.size == n
  }

  /** The region is one the filter admits, and the pattern matches inside it. */
  predicate Hit(p: Process, pat: Pattern, f: RegionFilter, r: Region) {
    Admits(f, r) && ScanProcessRange(p, pat, r.address, r.size).Some?
  }

  /** `memory_ranges().filter(f).find_map(scan)`: the regions admitted by the filter
      are scanned in order and the first match ends the search. */
  function ScanRegions(p: Process, pat: Pattern, f: RegionFilter): (r: Option<nat>)
    ensures var i := FirstIndex(p.regions, reg => Hit(p, pat, f, reg));
      && (r.None? <==> i == |p.regions|)
      && (r.Some? ==> FirstMatch(p, pat, p.regions[i].address, p.regions[i].size, r.value))
  {
    var i := FirstIndex(p.regions, reg => Hit(p, pat, f, reg));
    if i == |p.regions| then None
    else ScanProcessRange(p, pat, p.regions[i].address, p.regions[i].size)
  }

  /** A region the filter turns away has no influence on the region scan: dropping
      it from the list changes nothing. */
  lemma ScanRegionsSkip(p: Process, pat: Pattern, f: RegionFilter, k: nat)
    requires k < |p.regions| && !Admits(f, p.regions[k])
    ensures ScanRegions(p.(regions := p.regions[..k] + p.regions[k + 1..]), pat, f) == ScanRegions(p, pat, f)
  {
    var q := p.(regions := p.regions[..k] + p.regions[k + 1..]);
    HitsIgnoreRegions(p, q, pat, f);
    FirstIndexSkip(p.regions, reg => Hit(p, pat, f, reg), k);
    var i := FirstIndex(p.regions, reg => Hit(p, pat, f, reg));
    if i < |p.regions| {
      SkipIndex(p.regions, k, i);
    }
    ScanRegionsByHit(p, q, pat, f);
  }

  /** Where element `i` of a sequence lands once element `k` is removed. */
  lemma SkipIndex<T>(s: seq<T>, k: nat, i: nat)
    requires k < |s| && i < |s| && i != k
    ensures i < k ==> (s[..k] + s[k + 1..])[i] == s[i]
    ensures i > k ==> (s[..k] + s[k + 1..])[i - 1] == s[i]
  {
  }

  /** Two processes with the same memory whose first hits are the same region (or
      which both have none) scan to the same result. */
  lemma ScanRegionsByHit(p: Process, q: Process, pat: Pattern, f: RegionFilter)
    requires p.mem == q.mem
    requires var i := FirstIndex(p.regions, reg => Hit(p, pat, f, reg));
      var j := FirstIndex(q.regions, reg => Hit(q, pat, f, reg));
      && (i == |p.regions| <==> j == |q.regions|)
      && (i < |p.regions| ==> q.regions[j] == p.regions[i])
    ensures ScanRegions(q, pat, f) == ScanRegions(p, pat, f)
  {
    var i := FirstIndex(p.regions, reg => Hit(p, pat, f, reg));
    if i < |p.regions| {
      ScanIgnoresRegions(p, q, pat, p.regions[i]);
    }
  }

  /** Which region of `q` is the first hit does not depend on the region list of the
      process whose memory is scanned. */
  lemma HitsIgnoreRegions(p: Process, q: Process, pat: Pattern, f: RegionFilter)
    requires p.mem == q.mem
    ensures FirstIndex(q.regions, reg => Hit(q, pat, f, reg)) == FirstIndex(q.regions, reg => Hit(p, pat, f, reg))
  {
    forall j | 0 <= j < |q.regions| ensures Hit(p, pat, f, q.regions[j]) == Hit(q, pat, f, q.regions[j]) {
      ScanIgnoresRegions(p, q, pat, q.regions[j]);
    }
    FirstIndexLocal(q.regions, reg => Hit(p, pat, f, reg), reg => Hit(q, pat, f, reg));
  }

  /** A scan reads memory only: the list of regions does not affect it. */
  lemma ScanIgnoresRegions(p: Process, q: Process, pat: Pattern, reg: Region)
    requires p.mem == q.mem
    ensures ScanProcessRange(q, pat, reg.address, reg.size) == ScanProcessRange(p, pat, reg.address, reg.size)
  {
    ScanLocal(p, q, pat, reg.address, reg.size);
  }

  /** The region scan fails exactly when no admitted region contains a match. */
  lemma ScanRegionsNone(p: Process, pat: Pattern, f: RegionFilter)
    ensures ScanRegions(p, pat, f).None? <==>
      forall i :: 0 <= i < |p.regions| && Admits(f, p.regions[i]) ==>
        NoMatch(p, pat, p.regions[i].address, p.regions[i].size)
  {
  }

  /** `i` is the first region the filter admits and in which the pattern matches. */
  ghost predicate FirstHitRegion(p: Process, pat: Pattern, f: RegionFilter, i: nat) {
    && i < |p.regions|
    && Hit(p, pat, f, p.regions[i])
    && forall j :: 0 <= j < i ==> !Hit(p, pat, f, p.regions[j])
  }

  /** The region scan returns the first match inside the first region with a match;
      none of the regions after it is scanned. */
  lemma ScanRegionsFirstHit(p: Process, pat: Pattern, f: RegionFilter, i: nat, m: nat)
    requires FirstHitRegion(p, pat, f, i)
    requires FirstMatch(p, pat, p.regions[i].address, p.regions[i].size, m)
    ensures ScanRegions(p, pat, f) == Some(m)
  {
    var k := FirstIndex(p.regions, reg => Hit(p, pat, f, reg));
    assert k == i;
    FirstMatchUnique(p, pat, p.regions[i].address, p.regions[i].size, ScanRegions(p, pat, f).value, m);
  }

  /** The common first step of a recipe: resolve a module's address and size (each
      lookup may fail) and scan the module's whole image. */
  function ScanModule(p: Process, name: string, pat: Pattern): (r: Option<nat>)
    ensures r.None? <==> NoModuleMatch(p, name, pat)
    ensures r.Some? ==> ModuleMatch(p, name, pat, r.value)
  {
    if Resolves(p, name) then ScanProcessRange(p, pat, p.moduleBase[name], p.moduleSize[name]) else None
  }

  /** The module resolves and `m` is the first match inside its image. */
  ghost predicate ModuleMatch(p: Process, name: string, pat: Pattern, m: nat) {
    Resolves(p, name) && FirstMatch(p, pat, p.moduleBase[name], p.moduleSize[name], m)
  }

  /** The module does not resolve, or the pattern occurs nowhere in its image. */
  ghost predicate NoModuleMatch(p: Process, name: string, pat: Pattern) {
    !Resolves(p, name) || NoMatch(p, pat, p.moduleBase[name], p.moduleSize[name])
  }

  /** There is exactly one first match, so a `ModuleMatch` pins down the scan. */
  lemma ModuleMatchIsScan(p: Process, name: string, pat: Pattern, m: nat)
    requires ModuleMatch(p, name, pat, m)
    ensures ScanModule(p, name, pat) == Some(m)
  {
    FirstMatchUnique(p, pat, p.moduleBase[name], p.moduleSize[name], ScanModule(p, name, pat).value, m);
  }

  /** `m` is the first match inside the first admitted region that has one. */
  ghost predicate RegionMatch(p: Process, pat: Pattern, f: RegionFilter, m: nat) {
    exists i: nat :: FirstHitRegion(p, pat, f, i) && FirstMatch(p, pat, p.regions[i].address, p.regions[i].size, m)
  }

  /** The region scan is characterised by `RegionMatch`: it returns `m` exactly when
      `m` is the first match inside the first admitted region with a match. */
  lemma ScanRegionsSpec(p: Process, pat: Pattern, f: RegionFilter)
    ensures forall m: nat :: RegionMatch(p, pat, f, m) <==> ScanRegions(p, pat, f) == Some(m)
  {
    forall m: nat | RegionMatch(p, pat, f, m) ensures ScanRegions(p, pat, f) == Some(m) {
      var i: nat :| FirstHitRegion(p, pat, f, i) && FirstMatch(p, pat, p.regions[i].address, p.regions[i].size, m);
      ScanRegionsFirstHit(p, pat, f, i, m);
    }
    var r := ScanRegions(p, pat, f);
    if r.Some? {
      var i := FirstIndex(p.regions, reg => Hit(p, pat, f, reg));
      assert FirstHitRegion(p, pat, f, i);
    }
  }
}
