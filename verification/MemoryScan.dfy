/** The chunked scan of a process's private memory for objects that carry a resolved vtable pair. */
module MemoryScan {
  import opened Common
  import opened Binary64
  import Resolver

  const USIZE_MAX: nat := 0xFFFF_FFFF_FFFF_FFFF
  const SCAN_PAGE_SIZE: nat := 0x1000
  const PROCESS_SCAN_CHUNK: nat := 0x10_0000
  const SCAN_START: nat := 0x1_0000
  const SCAN_LIMIT: nat := 0x7FFF_FFFF_FFFF_FFFF

  const MEM_COMMIT: bv32 := 0x1000
  const MEM_PRIVATE: bv32 := 0x2_0000
  const PAGE_NOACCESS: bv32 := 0x01
  const PAGE_GUARD: bv32 := 0x100

  datatype Region = Region(base: nat, size: nat, state: bv32, protect: bv32, kind: bv32)
  {
    function End(): nat { base + size }
  }

  /** A process whose memory does not change: its bytes, which of its pages can be read, and its regions. */
  datatype Memory = Memory(content: nat -> bv8, readablePage: nat -> bool, query: nat -> Option<Region>)

  type Layout = Resolver.Layout

  /** What a scan looks for: both words of the pair, and how far apart they are. */
  datatype Pair = Pair(primary: nat, secondary: nat, offset: nat)
  {
    function Size(): nat { offset + 8 }
  }

  /** Both queries answered from one region; the bases may differ, as a query may report the asked address's page. */
  predicate SameRegion(a: Option<Region>, b: Option<Region>) {
    && a.Some? && b.Some? && a.value.End() == b.value.End()
    && a.value.state == b.value.state && a.value.protect == b.value.protect && a.value.kind == b.value.kind
  }

  /** Regions tile the address space up to its end, whichever base at or below the asked address a query reports. */
  ghost predicate Tiled(m: Memory) {
    && (forall a: nat :: m.query(a).Some? ==>
          var r := m.query(a).value;
          && r.base <= a < r.End() <= USIZE_MAX
          && forall b: nat :: r.base <= b < r.End() ==> SameRegion(m.query(b), Some(r)))
    && (forall a: nat, b: nat :: a <= b && m.query(b).Some? ==> m.query(a).Some?)
  }

  /**
   Queries that report the page of the asked address and the rest of its region tile the space: `cut` tells where the
   region of an address ends, `attributes` what it is.
   */
  lemma PagedQueriesTile(m: Memory, limit: nat, cut: nat -> nat, attributes: nat -> (bv32, bv32, bv32))
    requires limit <= USIZE_MAX
    requires forall a: nat :: a < limit ==> a < cut(a) <= limit && cut(a) % SCAN_PAGE_SIZE == 0
    requires forall a: nat, b: nat :: a < limit && a <= b < cut(a) ==> cut(b) == cut(a)
    requires forall a: nat :: m.query(a) ==
               if a < limit then
                 var page := a / SCAN_PAGE_SIZE * SCAN_PAGE_SIZE;
                 var (state, protect, kind) := attributes(cut(a));
                 Some(Region(page, cut(a) - page, state, protect, kind))
               else None
    ensures Tiled(m)
  {
    forall a: nat, b: nat | a < limit && a / SCAN_PAGE_SIZE * SCAN_PAGE_SIZE <= b < cut(a)
      ensures b < limit && cut(b) == cut(a)
    {
      if b < a {
        PageHolds(a, b, cut(b));
      }
    }
  }

  /** A page border behind the one address of a page is behind the other. */
  lemma PageHolds(a: nat, b: nat, border: nat)
    requires a / SCAN_PAGE_SIZE * SCAN_PAGE_SIZE <= b < a && b < border && border % SCAN_PAGE_SIZE == 0
    ensures a < border
  {
  }

  predicate MemoryIsReadable(state: bv32, protect: bv32) {
    state == MEM_COMMIT && protect & PAGE_GUARD == 0 && protect & PAGE_NOACCESS == 0
  }

  predicate Scanned(r: Region) {
    MemoryIsReadable(r.state, r.protect) && r.kind == MEM_PRIVATE
  }

  /** The three tests on the region's attributes, with the two page flags in one mask. */
  lemma ScannedIs(r: Region)
    ensures Scanned(r) <==> r.state == 0x1000 && r.protect & 0x101 == 0 && r.kind == 0x2_0000
  {
  }

  predicate Readable(m: Memory, a: nat) {
    m.readablePage(a / SCAN_PAGE_SIZE)
  }

  predicate AllReadable(m: Memory, a: nat, n: nat) {
    forall i :: a <= i < a + n ==> Readable(m, i)
  }

  function Bytes(m: Memory, a: nat, n: nat): (r: seq<bv8>)
    ensures |r| == n && forall i :: 0 <= i < n ==> r[i] == m.content(a + i)
  {
    seq(n, i requires 0 <= i => m.content(a + i))
  }

  function WordAt(m: Memory, a: nat): nat {
    LeValue(Bytes(m, a, 8))
  }

  /** Copies bytes up to the first unreadable page; what lies behind them in the buffer is left as it was. */
  method Read(m: Memory, address: nat, buffer: array<bv8>, length: nat) returns (transferred: nat)
    requires length <= buffer.Length
    modifies buffer
    ensures transferred <= length
    ensures buffer[..transferred] == Bytes(m, address, transferred)
    ensures AllReadable(m, address, transferred)
    ensures transferred < length ==> !Readable(m, address + transferred)
  {
    transferred := 0;
    while transferred < length && Readable(m, address + transferred)
      invariant transferred <= length
      invariant forall i :: 0 <= i < transferred ==> buffer[i] == m.content(address + i)
      invariant AllReadable(m, address, transferred)
    {
      buffer[transferred] := m.content(address + transferred);
      transferred := transferred + 1;
    }
  }

  // ----- One window of bytes -----

  /** The pair begins `o` bytes into the window. */
  predicate PairAt(bytes: seq<bv8>, pair: Pair, o: nat) {
    && o + pair.Size() <= |bytes|
    && LeValue(bytes[o..o + 8]) == pair.primary
    && LeValue(bytes[o + pair.offset..o + pair.offset + 8]) == pair.secondary
  }

  /** Both tests at one offset, the second only after the first. */
  method TestPair(bytes: seq<bv8>, pair: Pair, offset: nat) returns (found: bool)
    requires offset + pair.Size() <= |bytes|
    ensures found <==> PairAt(bytes, pair, offset)
  {
    if LeValue(bytes[offset..offset + 8]) != pair.primary {
      return false;
    }
    found := LeValue(bytes[offset + pair.offset..offset + pair.offset + 8]) == pair.secondary;
  }

  /** One turn of the loop: what is known below `offset` becomes known below the next aligned address. */
  method TestOffset(bytes: seq<bv8>, absoluteStart: nat, pair: Pair, offset: nat, before: seq<nat>)
      returns (addresses: seq<nat>)
    requires pair.primary != 0 && offset + pair.Size() <= |bytes| && (absoluteStart + offset) % 8 == 0
    requires forall a :: a in before <==> a < absoluteStart + offset && ShownAt(bytes, absoluteStart, pair, a)
    ensures forall a :: a in addresses <==> a < absoluteStart + offset + 8 && ShownAt(bytes, absoluteStart, pair, a)
  {
    hide PairAt;
    addresses := before;
    var found := TestPair(bytes, pair, offset);
    if found {
      addresses := addresses + [absoluteStart + offset];
    }
    NextAligned(absoluteStart + offset);
  }

  method FindVtablePairs(bytes: seq<bv8>, absoluteStart: nat, pair: Pair) returns (addresses: seq<nat>)
    ensures forall a :: a in addresses <==> ShownAt(bytes, absoluteStart, pair, a)
  {
    hide PairAt;
    var required := pair.Size();
    addresses := [];
    ShownPairsFit(bytes, absoluteStart, pair);
    if pair.primary == 0 || |bytes| < required {
      return;
    }
    var start := (8 - absoluteStart % 8) % 8;
    var last := |bytes| - required;
    FirstAligned(absoluteStart);
    var offset := start;
    while offset + 8 <= |bytes| && offset <= last
      invariant (absoluteStart + offset) % 8 == 0 && offset >= start
      invariant forall a :: a in addresses <==> a < absoluteStart + offset && ShownAt(bytes, absoluteStart, pair, a)
      decreases |bytes| - offset
    {
      addresses := TestOffset(bytes, absoluteStart, pair, offset, addresses);
      offset := offset + 8;
    }
  }

  /** The window that begins at address `start` shows a pair at the aligned address `a`. */
  predicate ShownAt(bytes: seq<bv8>, start: nat, pair: Pair, a: int) {
    pair.primary != 0 && a >= start && a % 8 == 0 && PairAt(bytes, pair, a - start)
  }

  lemma ShownPairsFit(bytes: seq<bv8>, start: nat, pair: Pair)
    ensures forall a :: ShownAt(bytes, start, pair, a) ==> start <= a <= start + |bytes| - pair.Size()
  {
    hide LeValue;
  }

  lemma FirstAligned(a: nat)
    ensures var start := (8 - a % 8) % 8;
            (a + start) % 8 == 0 && forall b :: a <= b < a + start ==> b % 8 != 0
  {
  }

  lemma NextAligned(a: nat)
    requires a % 8 == 0
    ensures forall b :: a <= b < a + 8 && b % 8 == 0 ==> b == a
  {
  }

  // ----- Walking a region -----

  function Saturated(n: nat): (r: nat)
    ensures r <= USIZE_MAX && r <= n && (r == n || r == USIZE_MAX)
  {
    if n > USIZE_MAX then USIZE_MAX else n
  }

  /** Where a chunked scan continues, or `None` when the region is finished. */
  function NextScanStart(chunkStart: nat, chunkEnd: nat, regionEnd: nat, transferred: nat, overlap: nat)
    : (r: Option<nat>)
    requires chunkStart < chunkEnd <= regionEnd <= USIZE_MAX && transferred <= chunkEnd - chunkStart
    ensures r.Some? ==> chunkStart < r.value < regionEnd
    ensures r.Some? && transferred == chunkEnd - chunkStart ==> r.value + overlap >= chunkEnd
    ensures r.Some? && transferred < chunkEnd - chunkStart ==>
              r.value % SCAN_PAGE_SIZE == 0 && r.value - SCAN_PAGE_SIZE <= chunkStart + transferred < r.value
  {
    if transferred < chunkEnd - chunkStart then
      var next := Saturated(((chunkStart + transferred) / SCAN_PAGE_SIZE + 1) * SCAN_PAGE_SIZE);
      if next < regionEnd then Some(next) else None
    else if chunkEnd >= regionEnd then None
    else
      var back := if overlap <= chunkEnd then chunkEnd - overlap else 0;
      var next := if back > chunkStart + 1 then back else chunkStart + 1;
      if next < regionEnd then Some(next) else None
  }

  /** An aligned address inside region `r` whose pair bytes are all readable and hold the pair. */
  ghost predicate Match(m: Memory, r: Region, pair: Pair, a: nat) {
    && pair.primary != 0 && a % 8 == 0
    && r.base <= a && a + pair.Size() <= r.End()
    && AllReadable(m, a, pair.Size())
    && WordAt(m, a) == pair.primary && WordAt(m, a + pair.offset) == pair.secondary
  }

  lemma WindowOfBytes(m: Memory, a: nat, n: nat, o: nat)
    requires o + 8 <= n
    ensures Bytes(m, a, n)[o..o + 8] == Bytes(m, a + o, 8)
  {
  }

  /** A window of readable bytes shows exactly the matches that lie in it. */
  lemma WindowShowsMatches(m: Memory, r: Region, pair: Pair, start: nat, n: nat, a: nat)
    requires r.base <= start && start + n <= r.End() && AllReadable(m, start, n)
    ensures ShownAt(Bytes(m, start, n), start, pair, a)
       <==> (Match(m, r, pair, a) && start <= a && a + pair.Size() <= start + n)
  {
    if a >= start && a + pair.Size() <= start + n {
      WindowOfBytes(m, start, n, a - start);
      WindowOfBytes(m, start, n, a - start + pair.offset);
    }
  }

  /** No match begins between a chunk's start and the next chunk's without lying inside the bytes that were read. */
  lemma NothingIsSkipped(m: Memory, r: Region, pair: Pair, start: nat, end: nat, n: nat, a: nat)
    requires r.End() <= USIZE_MAX && pair.Size() <= PROCESS_SCAN_CHUNK
    requires start < end <= r.End() && n <= end - start
    requires end == if start + PROCESS_SCAN_CHUNK < r.End() then start + PROCESS_SCAN_CHUNK else r.End()
    requires n < end - start ==> !Readable(m, start + n)
    requires Match(m, r, pair, a) && start <= a
    requires match NextScanStart(start, end, r.End(), n, pair.Size() - 1)
             case Some(next) => a < next
             case None => true
    ensures a + pair.Size() <= start + n
  {
    if n < end - start {
      UnreadableByteStops(m, r, pair, start + n, a);
    }
  }

  /** No match reaches an unreadable byte from below, or begins behind it on its page. */
  lemma UnreadableByteStops(m: Memory, r: Region, pair: Pair, failed: nat, a: nat)
    requires !Readable(m, failed) && Match(m, r, pair, a)
    requires a < (failed / SCAN_PAGE_SIZE + 1) * SCAN_PAGE_SIZE
    ensures a + pair.Size() <= failed
  {
    assert a <= failed && failed < a + pair.Size() ==> Readable(m, failed);
    SamePage(failed, a);
    assert Readable(m, a);
  }

  lemma SamePage(low: nat, high: nat)
    ensures low <= high < (low / SCAN_PAGE_SIZE + 1) * SCAN_PAGE_SIZE ==> high / SCAN_PAGE_SIZE == low / SCAN_PAGE_SIZE
  {
  }

  /** Reads one chunk into the reused buffer and matches only the bytes that arrived. */
  method ScanChunk(m: Memory, r: Region, pair: Pair, buffer: array<bv8>, start: nat, end: nat)
      returns (shown: seq<nat>, transferred: nat)
    requires r.base <= start < end <= r.End() && end - start <= buffer.Length
    modifies buffer
    ensures transferred <= end - start
    ensures transferred < end - start ==> !Readable(m, start + transferred)
    ensures forall a: nat :: a in shown <==>
              Match(m, r, pair, a) && start <= a && a + pair.Size() <= start + transferred
  {
    transferred := Read(m, start, buffer, end - start);
    shown := FindVtablePairs(buffer[..transferred], start, pair);
    forall a: nat
      ensures a in shown <==> Match(m, r, pair, a) && start <= a && a + pair.Size() <= start + transferred
    {
      WindowShowsMatches(m, r, pair, start, transferred, a);
    }
  }

  /** Scans one region chunk by chunk: exactly its matches are added, whatever the buffer held before. */
  method ScanRegion(m: Memory, r: Region, pair: Pair, buffer: array<bv8>, found: seq<nat>)
      returns (candidates: seq<nat>)
    requires r.End() <= USIZE_MAX && pair.Size() <= PROCESS_SCAN_CHUNK == buffer.Length
    modifies buffer
    ensures forall a: nat :: a in candidates <==> a in found || Match(m, r, pair, a)
  {
    candidates := found;
    var chunkStart := r.base;
    while chunkStart < r.End()
      invariant r.base <= chunkStart
      invariant forall a: nat :: a in candidates ==> a in found || Match(m, r, pair, a)
      invariant forall a: nat :: a in found || (Match(m, r, pair, a) && a < chunkStart) ==> a in candidates
      decreases r.End() - chunkStart
    {
      var chunkEnd := Saturated(chunkStart + PROCESS_SCAN_CHUNK);
      if chunkEnd > r.End() {
        chunkEnd := r.End();
      }
      var shown, transferred := ScanChunk(m, r, pair, buffer, chunkStart, chunkEnd);
      candidates := candidates + shown;
      var next := NextScanStart(chunkStart, chunkEnd, r.End(), transferred, pair.Size() - 1);
      forall a: nat | Match(m, r, pair, a) && chunkStart <= a && (next.Some? ==> a < next.value)
        ensures a in candidates
      {
        NothingIsSkipped(m, r, pair, chunkStart, chunkEnd, transferred, a);
      }
      if next.None? {
        return;
      }
      chunkStart := next.value;
    }
  }

  // ----- Walking the address space -----

  /** The address lies in the scanned range: its region reaches into it, and the first query does not start above it. */
  predicate Visited(m: Memory, a: nat)
    requires m.query(a).Some?
  {
    && m.query(a).value.End() > SCAN_START
    && (a < SCAN_START ==> m.query(SCAN_START).Some? && m.query(SCAN_START).value.base <= a)
    && (a >= SCAN_LIMIT ==> SameRegion(m.query(SCAN_LIMIT - 1), m.query(a)))
  }

  /** A match in the visited part of a region of committed, readable, private memory. */
  ghost predicate Candidate(m: Memory, pair: Pair, a: nat) {
    && m.query(a).Some?
    && var r := m.query(a).value;
       Scanned(r) && Visited(m, a) && Match(m, r, pair, a)
  }

  /** The scan stands at its first address or where a region ends. */
  predicate Boundary(m: Memory, address: nat) {
    || address == SCAN_START
    || (address > SCAN_START && m.query(address - 1).Some? && m.query(address - 1).value.End() == address)
  }

  /** An address between a query and its region's end is answered from the same region. */
  lemma Ahead(m: Memory, a: nat, b: nat)
    requires Tiled(m) && m.query(a).Some? && m.query(a).value.base <= b < m.query(a).value.End()
    ensures SameRegion(m.query(b), m.query(a))
  {
  }

  /** Behind the first address, a region that begins below where the scan stands has been passed. */
  lemma PassedAtBoundary(m: Memory, address: nat, a: nat)
    requires Tiled(m) && Boundary(m, address)
    ensures address > SCAN_START && m.query(a).Some? && m.query(a).value.base < address ==>
              m.query(a).value.End() <= address
  {
    if address > SCAN_START && m.query(a).Some? {
      var before: nat := address - 1;
      assert m.query(a).value.base <= before < m.query(a).value.End() ==> SameRegion(m.query(before), m.query(a));
    }
  }

  /** A candidate whose region ends behind the address, but not behind the region there, is in what is scanned there. */
  lemma NextRegion(m: Memory, pair: Pair, address: nat, a: nat)
    requires Tiled(m) && Boundary(m, address) && m.query(address).Some? && Candidate(m, pair, a)
    requires address < m.query(a).value.End() <= m.query(address).value.End()
    ensures SameRegion(m.query(a), m.query(address)) && Match(m, m.query(address).value, pair, a)
  {
    hide Match;
    if a <= address {
      Ahead(m, a, address);
      PassedAtBoundary(m, address, a);
    } else {
      Ahead(m, address, a);
    }
    MatchFrom(m, m.query(a).value, m.query(address).value, pair, a);
  }

  /** Only where a region ends, and whether its base is too high, matters to a match. */
  lemma MatchFrom(m: Memory, r: Region, s: Region, pair: Pair, a: nat)
    requires Match(m, r, pair, a) && s.base <= a && s.End() == r.End()
    ensures Match(m, s, pair, a)
  {
  }

  /** Where the walk stops, every candidate's region has been passed. */
  lemma NothingBeyond(m: Memory, pair: Pair, address: nat, a: nat)
    requires Tiled(m) && Boundary(m, address) && Candidate(m, pair, a)
    requires address >= SCAN_LIMIT || m.query(address).None?
    ensures m.query(a).value.End() <= address
  {
    hide Match;
    if m.query(a).value.End() > address {
      if a <= address {
        Ahead(m, a, address);
      }
      PassedAtBoundary(m, address, if a < SCAN_LIMIT then a else SCAN_LIMIT - 1);
      assert false;
    }
  }

  /** The matches of what is scanned at an address are candidates. */
  lemma MatchIsCandidate(m: Memory, pair: Pair, address: nat, a: nat)
    requires Tiled(m) && Boundary(m, address) && address < SCAN_LIMIT && m.query(address).Some?
    requires Scanned(m.query(address).value) && Match(m, m.query(address).value, pair, a)
    ensures Candidate(m, pair, a) && SameRegion(m.query(a), m.query(address))
  {
    var r := m.query(address).value;
    Ahead(m, address, a);
    MatchFrom(m, r, m.query(a).value, pair, a);
    if a >= SCAN_LIMIT {
      Ahead(m, address, SCAN_LIMIT - 1);
    }
    PassedAtBoundary(m, address, address);
  }

  method CollectCandidates(m: Memory, pair: Pair) returns (candidates: seq<nat>)
    requires Tiled(m) && pair.Size() <= PROCESS_SCAN_CHUNK
    ensures forall a: nat :: a in candidates <==> Candidate(m, pair, a)
  {
    hide Match, LeValue;
    candidates := [];
    var buffer := new bv8[PROCESS_SCAN_CHUNK];
    var address := SCAN_START;
    while address < SCAN_LIMIT
      invariant Boundary(m, address)
      invariant forall a: nat :: a in candidates ==> Candidate(m, pair, a)
      invariant forall a: nat :: Candidate(m, pair, a) && m.query(a).value.End() <= address ==> a in candidates
      decreases SCAN_LIMIT - address
    {
      if m.query(address).None? {
        break;
      }
      var region := m.query(address).value;
      var regionEnd := Saturated(region.End());
      if Scanned(region) {
        candidates := ScanRegion(m, region, pair, buffer, candidates);
        forall a: nat | Match(m, region, pair, a)
          ensures Candidate(m, pair, a)
        {
          MatchIsCandidate(m, pair, address, a);
        }
      }
      forall a: nat | Candidate(m, pair, a) && address < m.query(a).value.End() <= regionEnd
        ensures a in candidates
      {
        NextRegion(m, pair, address, a);
      }
      if regionEnd <= address {
        break;
      }
      address := regionEnd;
    }
    forall a: nat | Candidate(m, pair, a)
      ensures a in candidates
    {
      NothingBeyond(m, pair, address, a);
    }
  }

  // ----- The liveness test -----

  /** The word at `a` can be read, and is `value`. */
  predicate ReadsAs(m: Memory, a: nat, value: nat) {
    AllReadable(m, a, 8) && WordAt(m, a) == value
  }

  /** The bit patterns of `-1.0`, of negative zero, and of the numbers from zero up to but not including `1.0e12`. */
  predicate LiveDeadline(bits: nat) {
    bits == 0xBFF0_0000_0000_0000 || bits == 0x8000_0000_0000_0000 || bits < 0x426D_1A94_A200_0000
  }

  /** The address still holds the live object of the layout: both vtable words, and a deadline. */
  predicate Live(m: Memory, moduleBase: nat, layout: Layout, a: nat) {
    && ReadsAs(m, a, moduleBase + layout.primaryVtableRva)
    && ReadsAs(m, a + layout.secondaryObjectOffset, moduleBase + layout.secondaryVtableRva)
    && AllReadable(m, a + layout.deadlineOffset, 8)
    && LiveDeadline(WordAt(m, a + layout.deadlineOffset))
  }

  function PairOf(moduleBase: nat, layout: Layout): Pair {
    Pair(moduleBase + layout.primaryVtableRva, moduleBase + layout.secondaryVtableRva, layout.secondaryObjectOffset)
  }

  /** All eight bytes or nothing. */
  method ReadExact(m: Memory, address: nat) returns (word: Option<Bits>)
    ensures word.Some? <==> AllReadable(m, address, 8)
    ensures word.Some? ==> word.value == WordAt(m, address)
  {
    var buffer := new bv8[8];
    var transferred := Read(m, address, buffer, 8);
    if transferred != 8 {
      return None;
    }
    assert buffer[..8] == buffer[..];
    Resolver.LeValueBound(buffer[..]);
    return Some(LeValue(buffer[..]));
  }

  method HidThreadIsLive(m: Memory, moduleBase: nat, layout: Layout, address: nat) returns (live: bool)
    ensures live <==> Live(m, moduleBase, layout, address)
  {
    hide LeValue;
    var pair := PairOf(moduleBase, layout);
    var first := ReadExact(m, address);
    if first != Some(pair.primary) {
      return false;
    }
    var second := ReadExact(m, address + pair.offset);
    if second != Some(pair.secondary) {
      return false;
    }
    var deadline := ReadExact(m, address + layout.deadlineOffset);
    if deadline.None? {
      return false;
    }
    PlausibleBits(deadline.value);
    live := PlausibleDeadline(deadline.value);
  }

  // ----- The whole scan -----

  /** An 8-aligned visited address that passes the liveness test, its pair bytes readable inside one private region. */
  ghost predicate LiveObject(m: Memory, moduleBase: nat, layout: Layout, a: nat) {
    && moduleBase + layout.primaryVtableRva != 0 && a % 8 == 0
    && m.query(a).Some?
    && var r := m.query(a).value;
       && r.state == 0x1000 && r.protect & 0x101 == 0 && r.kind == 0x2_0000
       && Visited(m, a) && a + layout.secondaryObjectOffset + 8 <= r.base + r.size
       && AllReadable(m, a, layout.secondaryObjectOffset + 8)
       && Live(m, moduleBase, layout, a)
  }

  ghost predicate ScanIs(m: Memory, moduleBase: nat, layout: Layout, addresses: seq<nat>) {
    forall a: nat :: a in addresses <==> LiveObject(m, moduleBase, layout, a)
  }

  method Insert(sorted: seq<nat>, x: nat) returns (r: seq<nat>)
    requires Ascending(sorted)
    ensures Ascending(r)
    ensures forall a: nat :: a in r <==> a in sorted || a == x
  {
    var i := 0;
    while i < |sorted| && sorted[i] < x
      invariant i <= |sorted|
      invariant forall k :: 0 <= k < i ==> sorted[k] < x
    {
      i := i + 1;
    }
    if i < |sorted| && sorted[i] == x {
      return sorted;
    }
    InsertedAscends(sorted, i, x);
    InsertedHolds(sorted, i, x);
    hide Ascending;
    r := sorted[..i] + [x] + sorted[i..];
  }

  lemma InsertedAscends(sorted: seq<nat>, i: nat, x: nat)
    requires Ascending(sorted) && i <= |sorted| && (i < |sorted| ==> x < sorted[i])
    requires forall k :: 0 <= k < i ==> sorted[k] < x
    ensures Ascending(sorted[..i] + [x] + sorted[i..])
  {
    var r := sorted[..i] + [x] + sorted[i..];
    assert forall k :: 0 <= k < |r| ==> r[k] == if k < i then sorted[k] else if k == i then x else sorted[k - 1];
  }

  lemma InsertedHolds(sorted: seq<nat>, i: nat, x: nat)
    requires i <= |sorted|
    ensures forall a: nat :: a in sorted[..i] + [x] + sorted[i..] <==> a in sorted || a == x
  {
    assert sorted == sorted[..i] + sorted[i..];
  }

  method SortAndDedup(s: seq<nat>) returns (r: seq<nat>)
    ensures Ascending(r)
    ensures forall a: nat :: a in r <==> a in s
  {
    r := [];
    for i := 0 to |s|
      invariant Ascending(r)
      invariant forall a: nat :: a in r <==> a in s[..i]
    {
      assert s[..i + 1] == s[..i] + [s[i]];
      r := Insert(r, s[i]);
    }
    assert s[..|s|] == s;
  }

  method RetainLive(m: Memory, moduleBase: nat, layout: Layout, s: seq<nat>) returns (r: seq<nat>)
    ensures forall a: nat :: a in r <==> a in s && Live(m, moduleBase, layout, a)
  {
    r := [];
    for i := 0 to |s|
      invariant forall a: nat :: a in r <==> a in s[..i] && Live(m, moduleBase, layout, a)
    {
      assert s[..i + 1] == s[..i] + [s[i]];
      var live := HidThreadIsLive(m, moduleBase, layout, s[i]);
      if live {
        r := r + [s[i]];
      }
    }
    assert s[..|s|] == s;
  }

  /** The scan is exact: sorted, without duplicates, and precisely the live objects. */
  method FindLiveHidThreads(m: Memory, moduleBase: nat, layout: Layout) returns (addresses: seq<nat>)
    requires Tiled(m) && layout.secondaryObjectOffset + 8 <= PROCESS_SCAN_CHUNK
    ensures Ascending(addresses)
    ensures ScanIs(m, moduleBase, layout, addresses)
  {
    var pair := PairOf(moduleBase, layout);
    var candidates := CollectCandidates(m, pair);
    var retained := RetainLive(m, moduleBase, layout, candidates);
    addresses := SortAndDedup(retained);
    forall a: nat
      ensures Candidate(m, pair, a) && Live(m, moduleBase, layout, a) <==> LiveObject(m, moduleBase, layout, a)
    {
      if m.query(a).Some? {
        ScannedIs(m.query(a).value);
      }
    }
  }

  /** What the scan demands of a layout, every resolved layout meets. */
  lemma ResolvedPairFits(snapshot: Resolver.Snapshot, layout: Layout)
    ensures Resolver.Resolves(snapshot, layout) ==>
              PairOf(snapshot.moduleBase, layout).Size() <= 0x108 <= PROCESS_SCAN_CHUNK
  {
    hide LeValue, Resolver.Resolves;
    Resolver.ProvenLayoutIsBounded(snapshot, layout);
  }

  /** Resolution followed by the scan: the addresses are exactly the live objects of the one layout the image proves. */
  method ResolveAndScan(snapshot: Resolver.Snapshot, m: Memory) returns (r: Result<seq<nat>, Resolver.ResolveError>)
    requires Tiled(m)
    ensures r.Err? ==> forall l: Layout :: !Resolver.Resolves(snapshot, l)
    ensures r.Ok? ==> Ascending(r.value)
    ensures r.Ok? ==> exists l: Layout :: Resolver.Resolves(snapshot, l) && ScanIs(m, snapshot.moduleBase, l, r.value)
  {
    hide LeValue, LiveObject;
    var resolved := Resolver.ResolveRecoveryLayout(snapshot);
    if resolved.Err? {
      return Err(resolved.error);
    }
    var layout := resolved.value;
    ResolvedPairFits(snapshot, layout);
    var addresses := FindLiveHidThreads(m, snapshot.moduleBase, layout);
    r := Ok(addresses);
  }
}
