/** src/wii/dolphin.rs: locating Dolphin's two RAM banks by walking the process's
    memory regions and picking them out by their exact sizes. */
module WiiDolphin {
  import opened Wrappers
  import opened Host
  import opened Wii

  /** MEM1 is mapped as a region of exactly 32 MiB, MEM2 as one of exactly 64 MiB. */
  const Mem1Size: nat := 0x200_0000
  const Mem2Size: nat := 0x400_0000

  /** A MEM2 candidate further than this above the current MEM1 candidate ends the
      search. */
  const MaxDistance: nat := 0x1000_0000

  /** The loop's two running addresses; 0 stands for "not found". */
  datatype Found = Found(mem1: nat, mem2: nat)

  /** One iteration of the loop over region `r`: the addresses after it, and whether
      the loop exits there. */
  function Step(f: Found, r: Region): (res: (Found, bool))
    // MEM2 is taken at most once; MEM1 follows the latest region of its size
    ensures f.mem2 != 0 ==> res.0.mem2 == f.mem2
    ensures res.0.mem1 != f.mem1 ==> r.size == Mem1Size && res.0.mem1 == r.address
    ensures res.0.mem2 != f.mem2 ==> r.size == Mem2Size && res.0.mem2 == r.address
    ensures r.size == Mem1Size ==> res.0.mem1 == r.address
    // the loop exits as soon as both are known
    ensures res.0.mem1 != 0 && res.0.mem2 != 0 ==> res.1
    // the only other exit is the proximity cut-off, which leaves MEM2 unknown
    ensures res.1 && !(res.0.mem1 != 0 && res.0.mem2 != 0) ==>
      && res.0 == f && f.mem1 != 0 && f.mem2 == 0 && r.size == Mem2Size && r.address > f.mem1 + MaxDistance
  {
    if f.mem2 == 0 && r.size == Mem2Size then
      if f.mem1 != 0 && r.address > f.mem1 + MaxDistance then (f, true)
      else
        var g := f.(mem2 := r.address);
        (g, g.mem1 != 0 && g.mem2 != 0)
    else if r.size == Mem1Size then
      var g := f.(mem1 := r.address);
      (g, g.mem1 != 0 && g.mem2 != 0)
    else (f, f.mem1 != 0 && f.mem2 != 0)
  }

  /** The loop run from region `i` on with running addresses `f`. */
  function Run(regions: seq<Region>, i: nat, f: Found): Found
    requires i <= |regions|
    decreases |regions| - i
  {
    if i == |regions| then f
    else
      var (g, exit) := Step(f, regions[i]);
      if exit then g else Run(regions, i + 1, g)
  }

  /** The loop's running addresses when it reaches region `i`, or None when it exited
      earlier. */
  function Reached(regions: seq<Region>, i: nat): Option<Found>
    requires i <= |regions|
  {
    if i == 0 then Some(Found(0, 0))
    else
      match Reached(regions, i - 1)
      case None => None
      case Some(f) =>
        var (g, exit) := Step(f, regions[i - 1]);
        if exit then None else Some(g)
  }

  /** The all-or-nothing result: both banks, or neither when either is 0. */
  function Result(f: Found): (r: (Option<nat>, Option<nat>))
    ensures r.0.Some? <==> r.1.Some?
    ensures r.0.Some? ==> r == (Some(f.mem1), Some(f.mem2)) && f.mem1 != 0 && f.mem2 != 0
    ensures r.0.None? <==> f.mem1 == 0 || f.mem2 == 0
  {
    if f.mem1 == 0 || f.mem2 == 0 then (None, None) else (Some(f.mem1), Some(f.mem2))
  }

  /** The banks that `dolphin` returns for a list of memory regions. */
  function Discover(regions: seq<Region>): (r: (Option<nat>, Option<nat>))
    ensures r.0.Some? <==> r.1.Some?
  {
    Result(Run(regions, 0, Found(0, 0)))
  }

  /** `a` is the address of one of the regions, of the given size. */
  ghost predicate IsRegion(regions: seq<Region>, a: nat, size: nat) {
    exists j :: 0 <= j < |regions| && regions[j].size == size && regions[j].address == a
  }

  /** Each running address is the one it started with or the address of a region of
      its bank's size. */
  lemma {:induction false} RunOrigins(regions: seq<Region>, i: nat, f: Found)
    requires i <= |regions|
    ensures var g := Run(regions, i, f);
      && (g.mem1 == f.mem1 || IsRegion(regions, g.mem1, Mem1Size))
      && (g.mem2 == f.mem2 || IsRegion(regions, g.mem2, Mem2Size))
    decreases |regions| - i
  {
    if i < |regions| {
      var (g, exit) := Step(f, regions[i]);
      if !exit {
        RunOrigins(regions, i + 1, g);
      }
    }
  }

  /** A successful discovery returns the address of a 32 MiB region as MEM1 and the
      address of a 64 MiB region as MEM2, both nonzero. */
  lemma DiscoverSizes(regions: seq<Region>)
    requires Discover(regions).0.Some?
    ensures Discover(regions).0.value != 0 && IsRegion(regions, Discover(regions).0.value, Mem1Size)
    ensures Discover(regions).1.value != 0 && IsRegion(regions, Discover(regions).1.value, Mem2Size)
  {
    RunOrigins(regions, 0, Found(0, 0));
  }

  /** The loop started at region 0 is the loop that continues from wherever it has
      reached. */
  lemma {:induction false} RunFromReached(regions: seq<Region>, i: nat)
    requires i <= |regions| && Reached(regions, i).Some?
    ensures Run(regions, 0, Found(0, 0)) == Run(regions, i, Reached(regions, i).value)
  {
    if i > 0 {
      RunFromReached(regions, i - 1);
    }
  }

  /** Proximity cut-off: once a MEM1 candidate is known and MEM2 is not, a 64 MiB
      region lying more than 0x10000000 above the candidate ends the whole search,
      and nothing is found. */
  lemma TooFarEndsSearch(regions: seq<Region>, i: nat)
    requires i < |regions| && Reached(regions, i).Some?
    requires var f := Reached(regions, i).value;
      f.mem1 != 0 && f.mem2 == 0 && regions[i].size == Mem2Size && regions[i].address > f.mem1 + MaxDistance
    ensures Discover(regions) == (None, None)
  {
    RunFromReached(regions, i);
  }

  /** Before any MEM1 candidate, a 64 MiB region is taken as MEM2 without a distance
      check, and the loop goes on. */
  lemma Mem2AcceptedUnchecked(regions: seq<Region>, i: nat)
    requires i < |regions| && Reached(regions, i).Some?
    requires Reached(regions, i).value.mem1 == 0 && Reached(regions, i).value.mem2 == 0
    requires regions[i].size == Mem2Size
    ensures Reached(regions, i + 1) == Some(Found(0, regions[i].address))
  {
  }

  /** The loop never goes past a region with both addresses known, and once MEM2 is
      known it stays the same until the loop ends. */
  lemma {:induction false} ReachedInvariant(regions: seq<Region>, i: nat, j: nat)
    requires i <= j <= |regions| && Reached(regions, j).Some?
    ensures Reached(regions, i).Some?
    ensures !(Reached(regions, j).value.mem1 != 0 && Reached(regions, j).value.mem2 != 0)
    ensures Reached(regions, i).value.mem2 != 0 ==> Reached(regions, j).value.mem2 == Reached(regions, i).value.mem2
    decreases j
  {
    if j > 0 {
      if i < j {
        ReachedInvariant(regions, i, j - 1);
      }
      var f := Reached(regions, j - 1).value;
      assert Step(f, regions[j - 1]).0 == Reached(regions, j).value;
    }
  }

  /** A 32 MiB region followed by a 64 MiB region within reach gives both banks. */
  lemma NearPairFound(a: nat, b: nat)
    requires a != 0 && b != 0 && b <= a + MaxDistance
    ensures Discover([Region(a, Mem1Size, true), Region(b, Mem2Size, true)]) == (Some(a), Some(b))
  {
    var rs := [Region(a, Mem1Size, true), Region(b, Mem2Size, true)];
    assert Run(rs, 0, Found(0, 0)) == Run(rs, 1, Found(a, 0));
    assert Run(rs, 1, Found(a, 0)) == Found(a, b);
  }

  /** The same pair with the 64 MiB region out of reach gives neither bank. */
  lemma FarPairNotFound(a: nat, b: nat)
    requires a != 0 && b > a + MaxDistance
    ensures Discover([Region(a, Mem1Size, true), Region(b, Mem2Size, true)]) == (None, None)
  {
    var rs := [Region(a, Mem1Size, true), Region(b, Mem2Size, true)];
    assert Run(rs, 0, Found(0, 0)) == Run(rs, 1, Found(a, 0));
    assert Run(rs, 1, Found(a, 0)) == Found(a, 0);
  }

  /** `dolphin::dolphin`: the session's byte order becomes big-endian, then the regions
      are walked in order until both banks are known or the cut-off fires. */
  method Dolphin(host: Process) returns (e: Endian, mem1: Option<nat>, mem2: Option<nat>)
    ensures e == Big
    ensures (mem1, mem2) == Discover(host.regions)
    ensures mem1.Some? <==> mem2.Some?
  {
    e := Big;
    var regions := host.regions;
    var m1: nat, m2: nat := 0, 0;
    var i := 0;
    while i < |regions|
      invariant i <= |regions|
      invariant Run(regions, 0, Found(0, 0)) == Run(regions, i, Found(m1, m2))
    {
      ghost var before := Found(m1, m2);
      var size := regions[i].size;
      if m2 == 0 && size == Mem2Size {
        if m1 != 0 && regions[i].address > m1 + MaxDistance {
          assert Run(regions, i, before) == Found(m1, m2);
          break;
        }
        m2 := regions[i].address;
      } else if size == Mem1Size {
        m1 := regions[i].address;
      }
      if m1 != 0 && m2 != 0 {
        assert Run(regions, i, before) == Found(m1, m2);
        break;
      }
      i := i + 1;
    }
    if m1 == 0 || m2 == 0 {
      mem1, mem2 := None, None;
    } else {
      mem1, mem2 := Some(m1), Some(m2);
    }
  }

  /** `dolphin::keep_alive`: both banks are known and a byte can be read at each. */
  function KeepAlive(info: ProcessInfo, host: Process): (r: bool)
    ensures info.mem1.None? || info.mem2.None? ==> !r
    ensures info.mem1.Some? && info.mem2.Some? ==> (r <==> info.mem1.value in host.mem && info.mem2.value in host.mem)
  {
    match (info.mem1, info.mem2)
    case (Some(a), Some(b)) => Probe(host, a) && Probe(host, b)
    case _ => false
  }
}
