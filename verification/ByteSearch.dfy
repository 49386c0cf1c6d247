/** The word-at-a-time byte search of the recovery resolver, and the unique-occurrence search built on it. */
module ByteSearch {
  import opened Common

  const LOW_BITS: bv64 := 0x0101_0101_0101_0101
  const HIGH_BITS: bv64 := 0x8080_8080_8080_8080

  /** Bit lane `lane` of `x` holds the byte `b`. */
  predicate Holds(x: bv64, lane: nat, b: bv8)
    requires lane < 8
  {
    match lane
    case 0 => x & 0xFF == b as bv64
    case 1 => x & 0xFF00 == (b as bv64) << 8
    case 2 => x & 0xFF_0000 == (b as bv64) << 16
    case 3 => x & 0xFF00_0000 == (b as bv64) << 24
    case 4 => x & 0xFF_0000_0000 == (b as bv64) << 32
    case 5 => x & 0xFF00_0000_0000 == (b as bv64) << 40
    case 6 => x & 0xFF_0000_0000_0000 == (b as bv64) << 48
    case 7 => x & 0xFF00_0000_0000_0000 == (b as bv64) << 56
  }

  /** Whether the top bit of `lane` is set. */
  predicate Flagged(m: bv64, lane: nat)
    requires lane < 8
  {
    match lane
    case 0 => m & 0x80 != 0
    case 1 => m & 0x8000 != 0
    case 2 => m & 0x80_0000 != 0
    case 3 => m & 0x8000_0000 != 0
    case 4 => m & 0x80_0000_0000 != 0
    case 5 => m & 0x8000_0000_0000 != 0
    case 6 => m & 0x80_0000_0000_0000 != 0
    case 7 => m & 0x8000_0000_0000_0000 != 0
  }

  /** `u64::from_le_bytes`: byte `i` lands in bit lane `8 * i`. */
  method FromLeBytes(b: seq<bv8>) returns (x: bv64)
    requires |b| == 8
    ensures forall lane: nat | lane < 8 :: Holds(x, lane, b[lane])
  {
    x := (b[0] as bv64) | (b[1] as bv64 << 8) | (b[2] as bv64 << 16) | (b[3] as bv64 << 24) |
    (b[4] as bv64 << 32) | (b[5] as bv64 << 40) | (b[6] as bv64 << 48) | (b[7] as bv64 << 56);
  }

  /** The candidate lanes of a chunk: every lane where the words agree, and possibly lanes a borrow reached. */
  method CandidateMask(chunk: bv64, broadcast: bv64) returns (mask: bv64)
    ensures mask & !HIGH_BITS == 0
    ensures forall lane: nat, b | lane < 8 && Holds(chunk, lane, b) && Holds(broadcast, lane, b) :: Flagged(mask, lane)
  {
    var word := chunk ^ broadcast;
    mask := (word - LOW_BITS) & !word & HIGH_BITS;
    forall lane: nat, b | lane < 8 && Holds(chunk, lane, b) && Holds(broadcast, lane, b)
      ensures Flagged(mask, lane)
    {
      SameLaneIsFlagged(chunk, broadcast, lane, b);
    }
  }

  /** The mask misses no match: a lane where the words agree is flagged whatever borrow reaches it. */
  lemma SameLaneIsFlagged(x: bv64, y: bv64, lane: nat, b: bv8)
    requires lane < 8 && Holds(x, lane, b) && Holds(y, lane, b)
    ensures Flagged(((x ^ y) - LOW_BITS) & !(x ^ y) & HIGH_BITS, lane)
  {
  }

  /** `u64::trailing_zeros`, by halving. */
  function TrailingZeros(m: bv64): (n: nat)
    requires m != 0
    ensures n < 64
  {
    var a := if m & 0xFFFF_FFFF == 0 then m >> 32 else m;
    var b := if a & 0xFFFF == 0 then a >> 16 else a;
    var c := if b & 0xFF == 0 then b >> 8 else b;
    var d := if c & 0xF == 0 then c >> 4 else c;
    var e := if d & 0x3 == 0 then d >> 2 else d;
    (if m & 0xFFFF_FFFF == 0 then 32 else 0) + (if a & 0xFFFF == 0 then 16 else 0) +
    (if b & 0xFF == 0 then 8 else 0) + (if c & 0xF == 0 then 4 else 0) +
    (if d & 0x3 == 0 then 2 else 0) + (if e & 0x1 == 0 then 1 else 0)
  }

  /** One turn of the inner loop: the lowest flagged lane, and the mask with exactly that lane cleared. */
  method LowestLane(m: bv64) returns (lane: nat, rest: bv64)
    requires m != 0 && m & !HIGH_BITS == 0
    ensures lane < 8 && Flagged(m, lane) && forall j: nat | j < lane :: !Flagged(m, j)
    ensures rest & !HIGH_BITS == 0
    ensures forall j: nat | j < 8 :: Flagged(rest, j) <==> Flagged(m, j) && j != lane
  {
    lane := TrailingZeros(m) / 8;
    rest := m & (m - 1);
  }

  /** One chunk: walks the flagged lanes in ascending order, keeping those that really hold `needle`. */
  method ScanChunk(haystack: seq<bv8>, base: nat, needle: bv8, broadcast: bv64, before: seq<nat>)
      returns (hits: seq<nat>)
    requires base + 8 <= |haystack|
    requires forall lane: nat | lane < 8 :: Holds(broadcast, lane, needle)
    requires Ascending(before) && forall i :: i in before <==> 0 <= i < base && haystack[i] == needle
    ensures Ascending(hits)
    ensures forall i :: i in hits <==> 0 <= i < base + 8 && haystack[i] == needle
  {
    hits := before;
    var chunk := haystack[base..base + 8];
    var word := FromLeBytes(chunk);
    var mask := CandidateMask(word, broadcast);
    forall j: nat | j < 8 && chunk[j] == needle
      ensures Flagged(mask, j)
    {
      assert Holds(word, j, chunk[j]) && Holds(broadcast, j, needle);
    }
    ghost var done := 0;
    while mask != 0
      invariant mask & !HIGH_BITS == 0
      invariant 0 <= done <= 8
      invariant forall j: nat | j < done :: !Flagged(mask, j)
      invariant forall j: nat | done <= j < 8 && chunk[j] == needle :: Flagged(mask, j)
      invariant Ascending(hits)
      invariant forall i :: i in hits <==> 0 <= i < base + done && haystack[i] == needle
      decreases 8 - done
    {
      var lane, rest := LowestLane(mask);
      assert lane >= done;
      assert forall i :: base + done <= i < base + lane ==> haystack[i] == chunk[i - base] != needle;
      // A lane flagged by a borrow holds another byte: re-testing removes it.
      if chunk[lane] == needle {
        AscendingAppend(hits, base + lane);
        hits := hits + [base + lane];
      }
      mask := rest;
      done := lane + 1;
    }
    assert forall i :: base + done <= i < base + 8 ==> haystack[i] == chunk[i - base] != needle;
  }

  /** Reports every position of `needle`, each once and in ascending order. */
  method ForEachByte(haystack: seq<bv8>, needle: bv8) returns (hits: seq<nat>)
    ensures Ascending(hits)
    ensures forall i :: i in hits <==> 0 <= i < |haystack| && haystack[i] == needle
  {
    var copies := seq(8, _ => needle);
    var broadcast := FromLeBytes(copies);
    forall j: nat | j < 8
      ensures Holds(broadcast, j, needle)
    {
      assert Holds(broadcast, j, copies[j]);
    }
    var base := 0;
    hits := [];
    while base + 8 <= |haystack|
      invariant 0 <= base <= |haystack|
      invariant Ascending(hits)
      invariant forall i :: i in hits <==> 0 <= i < base && haystack[i] == needle
    {
      hits := ScanChunk(haystack, base, needle, broadcast, hits);
      base := base + 8;
    }
    while base < |haystack|
      invariant 0 <= base <= |haystack|
      invariant Ascending(hits)
      invariant forall i :: i in hits <==> 0 <= i < base && haystack[i] == needle
    {
      if haystack[base] == needle {
        AscendingAppend(hits, base);
        hits := hits + [base];
      }
      base := base + 1;
    }
  }

  /** `needle` occurs at `p`. */
  predicate OccursAt(haystack: seq<bv8>, needle: seq<bv8>, p: nat) {
    p + |needle| <= |haystack| && haystack[p..p + |needle|] == needle
  }

  /** Every position where `needle` occurs, overlapping occurrences included. */
  ghost function Occurrences(haystack: seq<bv8>, needle: seq<bv8>): set<nat> {
    set p: nat | p <= |haystack| && OccursAt(haystack, needle, p)
  }

  /** Fail-closed unique search: the one occurrence, or the number of occurrences when it is not one. */
  method FindUnique(haystack: seq<bv8>, needle: seq<bv8>) returns (r: Result<nat, nat>)
    ensures needle == [] ==> r == Err(0)
    ensures needle != [] && |Occurrences(haystack, needle)| != 1 ==> r == Err(|Occurrences(haystack, needle)|)
    ensures needle != [] && |Occurrences(haystack, needle)| == 1 ==> r.Ok? && Occurrences(haystack, needle) == {r.value}
  {
    if needle == [] {
      return Err(0);
    }
    if |haystack| < |needle| {
      assert Occurrences(haystack, needle) == {};
      return Err(0);
    }
    var hits := ForEachByte(haystack, needle[0]);
    var count, found := CountOccurrences(haystack, needle, hits);
    if count == 1 {
      SingletonHolds(Occurrences(haystack, needle), found);
      r := Ok(found);
    } else {
      r := Err(count);
    }
  }

  /** The closure passed to the byte search: counts the hits that start a whole occurrence, keeping the first. */
  method CountOccurrences(haystack: seq<bv8>, needle: seq<bv8>, hits: seq<nat>) returns (count: nat, found: nat)
    requires 0 < |needle| <= |haystack|
    requires Ascending(hits) && forall i :: i in hits <==> 0 <= i < |haystack| && haystack[i] == needle[0]
    ensures count == |Occurrences(haystack, needle)|
    ensures count >= 1 ==> found in Occurrences(haystack, needle)
  {
    hide Occurrences, OccursAt;
    count, found := 0, 0;
    ghost var all := Occurrences(haystack, needle);
    ghost var seen: set<nat> := {};
    forall p | p in all
      ensures p in hits
    {
      SplitFirst(haystack, needle, p);
    }
    for i := 0 to |hits|
      invariant forall p :: p in seen <==> p in all && p < Bound(hits, i, |haystack|)
      invariant count == |seen|
      invariant count >= 1 ==> found in seen
    {
      var offset := hits[i];
      assert offset in hits;
      OnlyHitBetween(hits, i, |haystack|);
      var matches := RestMatches(haystack, needle, offset, |haystack| - |needle|);
      if matches {
        if count == 0 {
          found := offset;
        }
        count := count + 1;
        seen := seen + {offset};
      }
    }
    assert seen == all;
  }

  ghost function Bound(hits: seq<nat>, i: nat, end: nat): nat {
    if i < |hits| then hits[i] else end
  }

  lemma OnlyHitBetween(hits: seq<nat>, i: nat, end: nat)
    requires Ascending(hits) && i < |hits| && forall p :: p in hits ==> p < end
    ensures hits[i] < Bound(hits, i + 1, end)
    ensures forall p :: p in hits ==> (p < Bound(hits, i + 1, end) <==> p < hits[i] || p == hits[i])
  {
    assert hits[i] in hits;
  }

  method RestMatches(haystack: seq<bv8>, needle: seq<bv8>, offset: nat, limit: nat) returns (matches: bool)
    requires 0 < |needle| <= |haystack| && limit == |haystack| - |needle|
    requires offset < |haystack| && haystack[offset] == needle[0]
    ensures matches <==> offset in Occurrences(haystack, needle)
  {
    SplitFirst(haystack, needle, offset);
    matches := offset <= limit && haystack[offset + 1..offset + |needle|] == needle[1..];
  }

  /** An occurrence is a hit of the first byte followed by the rest of the needle. */
  lemma SplitFirst(haystack: seq<bv8>, needle: seq<bv8>, p: nat)
    requires 0 < |needle| <= |haystack|
    ensures p in Occurrences(haystack, needle) <==>
            p <= |haystack| - |needle| && haystack[p] == needle[0] && haystack[p + 1..p + |needle|] == needle[1..]
  {
    if p <= |haystack| - |needle| {
      assert needle == [needle[0]] + needle[1..];
      assert haystack[p..p + |needle|] == [haystack[p]] + haystack[p + 1..p + |needle|];
    }
  }

  lemma SingletonHolds(s: set<nat>, x: nat)
    requires |s| == 1 && x in s
    ensures s == {x}
  {
    assert |s - {x}| == 0;
  }
}
