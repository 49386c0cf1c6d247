/** The fixed-size table of classified handles that the detours share. */
module HandleTable {

  /** A handle's numeric value, a 64-bit `usize`. */
  type Key = k: int | 0 <= k < 0x1_0000_0000_0000_0000

  const SIZE: nat := 4096
  const TOMBSTONE: Key := 1
  const PROBE_LIMIT: nat := 16
  const INVALID_HANDLE_VALUE: Key := 0xFFFF_FFFF_FFFF_FFFF

  type Index = i: int | 0 <= i < 4096

  datatype HandleClass = Unknown | Hid | Other

  datatype Slot = Slot(key: Key, classification: HandleClass)

  /** Key 0 marks a slot that was never used. */
  const EMPTY_SLOT := Slot(0, Unknown)

  /** The values a real handle can have. */
  predicate Trackable(handle: Key) {
    handle > TOMBSTONE && handle != INVALID_HANDLE_VALUE
  }

  function HandleHash(key: Key): Index {
    (Mix(key as bv64) % 4096) as int
  }

  /** Handles are multiples of four; the rest of the bits are folded, multiplied and folded again. */
  function Mix(key: bv64): bv64 {
    LastFold(Scale(Fold(key >> 2)))
  }

  function Fold(x: bv64): bv64 {
    x ^ (x >> 17)
  }

  function Scale(x: bv64): bv64 {
    x * 0xed5a_d4bb
  }

  function LastFold(x: bv64): bv64 {
    x ^ (x >> 11)
  }

  lemma NoDifference(x: bv64, y: bv64)
    requires x ^ y == 0
    ensures x == y
  {
  }

  predicate IsFold(x: bv64, y: bv64) {
    y == x ^ (x >> 17)
  }

  predicate Vanishes17(z: bv64) {
    z ^ (z >> 17) == 0
  }

  lemma FoldIs(x: bv64)
    ensures IsFold(x, Fold(x))
  {
  }

  lemma FoldsDiffer(x: bv64, y: bv64, f: bv64)
    requires IsFold(x, f) && IsFold(y, f)
    ensures Vanishes17(x ^ y)
  {
  }

  lemma Vanishing17(z: bv64)
    requires Vanishes17(z)
    ensures z == 0
  {
  }

  lemma FoldIsInjective(x: bv64, y: bv64)
    ensures Fold(x) == Fold(y) ==> x == y
  {
    hide Fold, IsFold, Vanishes17;
    FoldIs(x);
    FoldIs(y);
    if Fold(x) == Fold(y) {
      FoldsDiffer(x, y, Fold(x));
      Vanishing17(x ^ y);
      NoDifference(x, y);
    }
  }

  predicate IsLastFold(x: bv64, y: bv64) {
    y == x ^ (x >> 11)
  }

  predicate Vanishes11(z: bv64) {
    z ^ (z >> 11) == 0
  }

  lemma LastFoldIs(x: bv64)
    ensures IsLastFold(x, LastFold(x))
  {
  }

  lemma LastFoldsDiffer(x: bv64, y: bv64, f: bv64)
    requires IsLastFold(x, f) && IsLastFold(y, f)
    ensures Vanishes11(x ^ y)
  {
  }

  lemma Vanishing11(z: bv64)
    requires Vanishes11(z)
    ensures z == 0
  {
  }

  lemma LastFoldIsInjective(x: bv64, y: bv64)
    ensures LastFold(x) == LastFold(y) ==> x == y
  {
    hide LastFold, IsLastFold, Vanishes11;
    LastFoldIs(x);
    LastFoldIs(y);
    if LastFold(x) == LastFold(y) {
      LastFoldsDiffer(x, y, LastFold(x));
      Vanishing11(x ^ y);
      NoDifference(x, y);
    }
  }

  predicate IsScale(x: bv64, y: bv64) {
    y == x * 0xed5a_d4bb
  }

  lemma ScaleIs(x: bv64)
    ensures IsScale(x, Scale(x))
  {
  }

  /** The factor is odd. */
  lemma ScaledOnce(x: bv64, y: bv64, product: bv64)
    requires IsScale(x, product) && IsScale(y, product)
    ensures x == y
  {
  }

  lemma ScaleIsInjective(x: bv64, y: bv64)
    ensures Scale(x) == Scale(y) ==> x == y
  {
    hide Scale, IsScale;
    ScaleIs(x);
    ScaleIs(y);
    if Scale(x) == Scale(y) {
      ScaledOnce(x, y, Scale(x));
    }
  }

  /** Before the reduction to the table's size, different handles mix differently. */
  lemma MixIsInjective(a: bv64, b: bv64)
    ensures Mix(a) == Mix(b) ==> a >> 2 == b >> 2
  {
    hide Fold, Scale, LastFold;
    var x, y := a >> 2, b >> 2;
    LastFoldIsInjective(Scale(Fold(x)), Scale(Fold(y)));
    ScaleIsInjective(Fold(x), Fold(y));
    FoldIsInjective(x, y);
  }

  // ----- The table as a sequence of slots, for an arbitrary hash -----

  /** The slot probed after `offset` steps. */
  function At(start: Index, offset: nat): Index {
    (start + offset) % SIZE
  }

  /** How many steps lead from `start` to `i`. */
  function Distance(start: Index, i: Index): nat {
    if start <= i then i - start else i + SIZE - start
  }

  predicate Live(slot: Slot) {
    slot.key > TOMBSTONE
  }

  ghost predicate Distinct(s: seq<Slot>) {
    forall i, j :: 0 <= i < j < |s| && Live(s[i]) && Live(s[j]) ==> s[i].key != s[j].key
  }

  /** The key of slot `i` is found from its hash: close enough, and with no empty slot before it. */
  ghost predicate Reachable(s: seq<Slot>, hash: Key -> Index, i: Index)
    requires |s| == SIZE
  {
    var start := hash(s[i].key);
    Distance(start, i) < PROBE_LIMIT && forall e: nat :: e < Distance(start, i) ==> s[At(start, e)].key != 0
  }

  ghost predicate WellPlaced(s: seq<Slot>, hash: Key -> Index) {
    && |s| == SIZE
    && Distinct(s)
    && (forall i: Index :: Live(s[i]) ==> Trackable(s[i].key) && Reachable(s, hash, i))
    && (forall i: Index :: !Live(s[i]) ==> s[i].classification == Unknown)
  }

  /** The map the table stands for. */
  ghost function ContentsOf(s: seq<Slot>): map<Key, HandleClass>
    requires Distinct(s)
  {
    map i | 0 <= i < |s| && Live(s[i]) :: s[i].key := s[i].classification
  }

  ghost function CountHid(s: seq<Slot>): nat {
    if s == [] then 0 else (if s[0].classification == Hid then 1 else 0) + CountHid(s[1..])
  }

  /** Every slot of the probe window holds a live key. */
  ghost predicate WindowFull(s: seq<Slot>, start: Index)
    requires |s| == SIZE
  {
    forall d: nat :: d < PROBE_LIMIT ==> Live(s[At(start, d)])
  }

  /** The keys in the first `n` slots of a probe window. */
  ghost function WindowKeys(s: seq<Slot>, start: Index, n: nat): (r: set<Key>)
    requires |s| == SIZE
    ensures forall k :: k in r ==> exists d: nat :: d < n && s[At(start, d)].key == k
  {
    if n == 0 then {} else WindowKeys(s, start, n - 1) + {s[At(start, n - 1)].key}
  }

  lemma WindowKeysDiffer(s: seq<Slot>, start: Index, d: nat, e: nat)
    requires |s| == SIZE && Distinct(s) && WindowFull(s, start) && d < e < PROBE_LIMIT
    ensures s[At(start, d)].key != s[At(start, e)].key
  {
    DistanceAt(start, d);
    DistanceAt(start, e);
    assert Live(s[At(start, d)]) && Live(s[At(start, e)]);
  }

  lemma NewWindowKey(s: seq<Slot>, start: Index, n: nat)
    requires |s| == SIZE && Distinct(s) && WindowFull(s, start) && n < PROBE_LIMIT
    ensures s[At(start, n)].key !in WindowKeys(s, start, n)
    ensures s[At(start, n)].key in ContentsOf(s)
  {
    assert Live(s[At(start, n)]);
    KeyOf(s, At(start, n));
    hide ContentsOf, Distinct, At, WindowFull;
    if s[At(start, n)].key in WindowKeys(s, start, n) {
      var d: nat :| d < n && s[At(start, d)].key == s[At(start, n)].key;
      WindowKeysDiffer(s, start, d, n);
    }
  }

  lemma {:induction false} WindowKeysAreMany(s: seq<Slot>, start: Index, n: nat)
    requires |s| == SIZE && Distinct(s) && WindowFull(s, start) && n <= PROBE_LIMIT
    ensures |WindowKeys(s, start, n)| == n && WindowKeys(s, start, n) <= ContentsOf(s).Keys
  {
    hide ContentsOf, Distinct, At, WindowFull;
    if n > 0 {
      WindowKeysAreMany(s, start, n - 1);
      NewWindowKey(s, start, n - 1);
    }
  }

  lemma SubsetIsSmaller<T>(a: set<T>, b: set<T>)
    requires a <= b
    ensures |a| <= |b|
  {
    if a != {} {
      var x :| x in a;
      SubsetIsSmaller(a - {x}, b - {x});
    }
  }

  /** A full window means sixteen handles in the table, so that an update is only ever lost in a crowd. */
  lemma FullWindowIsCrowded(s: seq<Slot>, start: Index)
    requires |s| == SIZE && Distinct(s) && WindowFull(s, start)
    ensures |ContentsOf(s)| >= 16
  {
    WindowKeysAreMany(s, start, PROBE_LIMIT);
    SubsetIsSmaller(WindowKeys(s, start, PROBE_LIMIT), ContentsOf(s).Keys);
  }

  lemma AtDistance(start: Index, i: Index)
    ensures At(start, Distance(start, i)) == i
  {
  }

  lemma DistanceAt(start: Index, d: nat)
    requires d < PROBE_LIMIT
    ensures Distance(start, At(start, d)) == d
  {
  }

  lemma {:induction false} CountHidUpdate(s: seq<Slot>, i: nat, slot: Slot)
    requires i < |s|
    ensures CountHid(s[i := slot]) + (if s[i].classification == Hid then 1 else 0)
         == CountHid(s) + (if slot.classification == Hid then 1 else 0)
  {
    if i == 0 {
      assert s[0 := slot][1..] == s[1..];
    } else {
      assert s[i := slot][1..] == s[1..][i - 1 := slot];
      CountHidUpdate(s[1..], i - 1, slot);
    }
  }

  lemma {:induction false} CountHidOfNone(s: seq<Slot>)
    requires forall i :: 0 <= i < |s| ==> s[i].classification == Unknown
    ensures CountHid(s) == 0
  {
    if s != [] {
      CountHidOfNone(s[1..]);
    }
  }

  lemma SlotOf(s: seq<Slot>, key: Key) returns (i: Index)
    requires |s| == SIZE && Distinct(s) && key in ContentsOf(s)
    ensures Live(s[i]) && s[i].key == key && s[i].classification == ContentsOf(s)[key]
  {
    i :| Live(s[i]) && s[i].key == key;
  }

  lemma KeyOf(s: seq<Slot>, i: Index)
    requires |s| == SIZE && Distinct(s) && Live(s[i])
    ensures s[i].key in ContentsOf(s) && ContentsOf(s)[s[i].key] == s[i].classification
  {
  }

  /** A scan that saw neither the key nor an empty slot for `d` steps, and then stopped, did not miss the key. */
  lemma ScanMissesNothing(s: seq<Slot>, hash: Key -> Index, key: Key, d: nat)
    requires WellPlaced(s, hash) && Trackable(key) && d <= PROBE_LIMIT
    requires forall e: nat :: e < d ==> s[At(hash(key), e)].key != key
    requires d == PROBE_LIMIT || s[At(hash(key), d)].key == 0
    ensures key !in ContentsOf(s)
  {
    forall i: Index | Live(s[i])
      ensures s[i].key != key
    {
      AtDistance(hash(key), i);
      assert Reachable(s, hash, i);
    }
  }

  lemma WriteKeepsDistinct(s: seq<Slot>, at: Index, slot: Slot)
    requires |s| == SIZE && Distinct(s)
    requires Live(slot) ==> if Live(s[at]) then slot.key == s[at].key else slot.key !in ContentsOf(s)
    ensures Distinct(s[at := slot])
  {
    forall i: Index | Live(s[i])
      ensures s[i].key in ContentsOf(s)
    {
      KeyOf(s, i);
    }
  }

  /** The contents are the map whose keys and values are those of the live slots. */
  lemma ContentsAre(s: seq<Slot>, m: map<Key, HandleClass>)
    requires |s| == SIZE && Distinct(s)
    requires forall i: Index :: Live(s[i]) ==> s[i].key in m && m[s[i].key] == s[i].classification
    requires forall k :: k in m ==> exists i: Index :: Live(s[i]) && s[i].key == k
    ensures ContentsOf(s) == m
  {
    forall k | k in m
      ensures k in ContentsOf(s) && ContentsOf(s)[k] == m[k]
    {
      var i: Index :| Live(s[i]) && s[i].key == k;
      KeyOf(s, i);
    }
    forall k | k in ContentsOf(s)
      ensures k in m
    {
      var i := SlotOf(s, k);
    }
  }

  /** What a slot that comes to hold a live key does to the contents. */
  lemma WriteContents(s: seq<Slot>, at: Index, slot: Slot)
    requires |s| == SIZE && Distinct(s) && Distinct(s[at := slot]) && Live(slot)
    requires if Live(s[at]) then slot.key == s[at].key else slot.key !in ContentsOf(s)
    ensures ContentsOf(s[at := slot]) == ContentsOf(s)[slot.key := slot.classification]
  {
    var t := s[at := slot];
    var m := ContentsOf(s)[slot.key := slot.classification];
    forall i: Index | Live(t[i])
      ensures t[i].key in m && m[t[i].key] == t[i].classification
    {
      if i != at {
        KeyOf(s, i);
      }
    }
    forall k | k in m
      ensures exists i: Index :: Live(t[i]) && t[i].key == k
    {
      if k == slot.key {
        assert t[at].key == k;
      } else {
        var i := SlotOf(s, k);
        assert t[i] == s[i];
      }
    }
    ContentsAre(t, m);
  }

  /** What a tombstone does to the contents. */
  lemma RemoveContents(s: seq<Slot>, at: Index)
    requires |s| == SIZE && Distinct(s) && Live(s[at]) && Distinct(s[at := Slot(TOMBSTONE, Unknown)])
    ensures ContentsOf(s[at := Slot(TOMBSTONE, Unknown)]) == ContentsOf(s) - {s[at].key}
  {
    var t := s[at := Slot(TOMBSTONE, Unknown)];
    var m := ContentsOf(s) - {s[at].key};
    forall i: Index | Live(t[i])
      ensures t[i].key in m && m[t[i].key] == t[i].classification
    {
      KeyOf(s, i);
    }
    forall k | k in m
      ensures exists i: Index :: Live(t[i]) && t[i].key == k
    {
      var i := SlotOf(s, k);
      assert t[i] == s[i];
    }
    ContentsAre(t, m);
  }

  /** Writing a slot keeps every key findable: no slot becomes empty, and the written key is in its own window. */
  lemma WriteKeepsPlacement(s: seq<Slot>, hash: Key -> Index, at: Index, slot: Slot)
    requires WellPlaced(s, hash) && slot.key != 0
    requires Live(slot) ==> Trackable(slot.key) && Reachable(s[at := slot], hash, at)
    requires !Live(slot) ==> slot.classification == Unknown
    requires Distinct(s[at := slot])
    ensures WellPlaced(s[at := slot], hash)
  {
    var t := s[at := slot];
    forall i: Index | Live(t[i])
      ensures Trackable(t[i].key) && Reachable(t, hash, i)
    {
      if i != at {
        assert Reachable(s, hash, i);
      }
    }
  }

  /** A write made by some other thread. */
  datatype Write = Remembered(handle: Key, classification: HandleClass) | Forgotten(handle: Key)

  class HandleTable {
    const hash: Key -> Index
    const slots: array<Slot>
    /** `HID_HANDLE_COUNT`, kept beside the table. */
    var hidCount: int

    ghost predicate Valid()
      reads this, slots
    {
      WellPlaced(slots[..], hash) && hidCount == CountHid(slots[..])
    }

    ghost function Contents(): map<Key, HandleClass>
      reads this, slots
      requires Valid()
    {
      ContentsOf(slots[..])
    }

    constructor (hash: Key -> Index)
      ensures Valid() && fresh(slots) && this.hash == hash
      ensures Contents() == map[]
    {
      this.hash := hash;
      slots := new Slot[SIZE](_ => EMPTY_SLOT);
      hidCount := 0;
      new;
      CountHidOfNone(slots[..]);
    }

    /** The table of the payload. */
    constructor Gate()
      ensures Valid() && fresh(slots) && hash == HandleHash
      ensures Contents() == map[]
    {
      hide HandleHash, Mix, Reachable;
      hash := HandleHash;
      slots := new Slot[SIZE](_ => EMPTY_SLOT);
      hidCount := 0;
      new;
      CountHidOfNone(slots[..]);
    }

    method Lookup(handle: Key) returns (classification: HandleClass)
      requires Valid()
      ensures !Trackable(handle) ==> classification == Other
      ensures Trackable(handle) && handle in Contents() ==> classification == Contents()[handle]
      ensures Trackable(handle) && handle !in Contents() ==> classification == Unknown
    {
      if handle <= TOMBSTONE || handle == INVALID_HANDLE_VALUE {
        return Other;
      }
      var start := hash(handle);
      var offset := 0;
      while offset < PROBE_LIMIT
        invariant 0 <= offset <= PROBE_LIMIT
        invariant forall e: nat :: e < offset ==> slots[At(start, e)].key != handle
      {
        var slot := slots[At(start, offset)];
        if slot.key == 0 {
          break;
        }
        if slot.key == handle {
          KeyOf(slots[..], At(start, offset));
          return slot.classification;
        }
        offset := offset + 1;
      }
      ScanMissesNothing(slots[..], hash, handle, offset);
      return Unknown;
    }

    /**
     Sets the classification of a handle. A handle that is not in the table yet is dropped exactly when its whole
     probe window holds other handles.
     */
    method Remember(handle: Key, classification: HandleClass)
      requires Valid()
      modifies this`hidCount, slots
      ensures Valid()
      ensures forall i: Index :: old(slots[i].key) != 0 ==> slots[i].key != 0
      ensures Contents() == old(
                if Trackable(handle) && (handle in Contents() || !WindowFull(slots[..], hash(handle)))
                then Contents()[handle := classification] else Contents())
    {
      if handle <= TOMBSTONE || handle == INVALID_HANDLE_VALUE {
        return;
      }
      var start := hash(handle);
      var insertion: int := -1;
      var offset := 0;
      while offset < PROBE_LIMIT
        invariant 0 <= offset <= PROBE_LIMIT
        invariant forall e: nat :: e < offset ==> slots[At(start, e)].key != handle && slots[At(start, e)].key != 0
        invariant insertion == -1 ==> forall e: nat :: e < offset ==> Live(slots[At(start, e)])
        invariant insertion != -1 ==> 0 <= insertion < offset && slots[At(start, insertion)].key == TOMBSTONE
      {
        var index := At(start, offset);
        if slots[index].key == handle {
          Reclassify(index, classification);
          return;
        }
        if slots[index].key == TOMBSTONE && insertion == -1 {
          insertion := offset;
        } else if slots[index].key == 0 {
          if insertion == -1 {
            insertion := offset;
          }
          break;
        }
        offset := offset + 1;
      }
      ScanMissesNothing(slots[..], hash, handle, offset);
      if insertion != -1 {
        Insert(start, insertion, handle, classification);
      }
    }

    method Reclassify(index: Index, classification: HandleClass)
      requires Valid() && Live(slots[index])
      modifies this`hidCount, slots
      ensures Valid()
      ensures forall i: Index :: slots[i].key == old(slots[i].key)
      ensures Contents() == old(Contents())[slots[index].key := classification]
    {
      var slot := slots[index];
      var updated := Slot(slot.key, classification);
      CountHidUpdate(slots[..], index, updated);
      WriteKeepsDistinct(slots[..], index, updated);
      WriteContents(slots[..], index, updated);
      assert Reachable(slots[..], hash, index);
      WriteKeepsPlacement(slots[..], hash, index, updated);
      if slot.classification != classification {
        if slot.classification == Hid {
          hidCount := hidCount - 1;
        }
        if classification == Hid {
          hidCount := hidCount + 1;
        }
        slots[index] := updated;
      }
      assert slots[..] == old(slots[..])[index := updated];
    }

    method Insert(start: Index, offset: nat, handle: Key, classification: HandleClass)
      requires Valid() && Trackable(handle) && handle !in Contents() && start == hash(handle)
      requires offset < PROBE_LIMIT && !Live(slots[At(start, offset)])
      requires forall e: nat :: e < offset ==> slots[At(start, e)].key != 0
      modifies this`hidCount, slots
      ensures Valid()
      ensures forall i: Index :: old(slots[i].key) != 0 ==> slots[i].key != 0
      ensures Contents() == old(Contents())[handle := classification]
    {
      var index, slot := At(start, offset), Slot(handle, classification);
      CountHidUpdate(slots[..], index, slot);
      WriteKeepsDistinct(slots[..], index, slot);
      WriteContents(slots[..], index, slot);
      DistanceAt(start, offset);
      assert Reachable(slots[..][index := slot], hash, index);
      WriteKeepsPlacement(slots[..], hash, index, slot);
      slots[index] := slot;
      if classification == Hid {
        hidCount := hidCount + 1;
      }
      assert slots[..] == old(slots[..])[index := slot];
    }

    /** The read-locked half of forgetting. */
    method Present(handle: Key) returns (present: bool)
      requires Valid()
      ensures present <==> Trackable(handle) && handle in Contents()
    {
      if handle <= TOMBSTONE || handle == INVALID_HANDLE_VALUE {
        return false;
      }
      var start := hash(handle);
      var offset := 0;
      while offset < PROBE_LIMIT
        invariant 0 <= offset <= PROBE_LIMIT
        invariant forall e: nat :: e < offset ==> slots[At(start, e)].key != handle
      {
        var slot := slots[At(start, offset)];
        if slot.key == 0 {
          break;
        }
        if slot.key == handle {
          KeyOf(slots[..], At(start, offset));
          return true;
        }
        offset := offset + 1;
      }
      ScanMissesNothing(slots[..], hash, handle, offset);
      return false;
    }

    /** The write-locked half of forgetting. */
    method Remove(handle: Key)
      requires Valid() && Trackable(handle)
      modifies this`hidCount, slots
      ensures Valid()
      ensures forall i: Index :: old(slots[i].key) != 0 ==> slots[i].key != 0
      ensures Contents() == old(Contents()) - {handle}
    {
      hide Reachable, ContentsOf, CountHid;
      var start := hash(handle);
      var offset := 0;
      while offset < PROBE_LIMIT
        invariant 0 <= offset <= PROBE_LIMIT
        invariant forall e: nat :: e < offset ==> slots[At(start, e)].key != handle
      {
        var index := At(start, offset);
        if slots[index].key == 0 {
          break;
        }
        if slots[index].key == handle {
          Bury(index);
          return;
        }
        offset := offset + 1;
      }
      ScanMissesNothing(slots[..], hash, handle, offset);
    }

    method Bury(index: Index)
      requires Valid() && Live(slots[index])
      modifies this`hidCount, slots
      ensures Valid()
      ensures forall i: Index :: old(slots[i].key) != 0 ==> slots[i].key != 0
      ensures Contents() == old(Contents()) - {old(slots[index].key)}
    {
      var tomb := Slot(TOMBSTONE, Unknown);
      CountHidUpdate(slots[..], index, tomb);
      WriteKeepsDistinct(slots[..], index, tomb);
      RemoveContents(slots[..], index);
      WriteKeepsPlacement(slots[..], hash, index, tomb);
      if slots[index].classification == Hid {
        hidCount := hidCount - 1;
      }
      slots[index] := tomb;
      assert slots[..] == old(slots[..])[index := tomb];
    }

    /**
     Forgets a handle in two phases, with any writes of other threads between the two locks. `trace` is what the
     others did. The call has one effect at one instant: if the first phase finds the handle, it is removed from
     what the others left; if not, the handle was absent at that instant and the others' result stands.
     */
    method Forget(handle: Key, between: seq<Write>) returns (present: bool, ghost trace: seq<map<Key, HandleClass>>)
      requires Valid()
      modifies this`hidCount, slots
      ensures Valid()
      ensures forall i: Index :: old(slots[i].key) != 0 ==> slots[i].key != 0
      ensures present <==> Trackable(handle) && handle in old(Contents())
      ensures IsTrace(old(Contents()), between, trace)
      ensures Contents() == if present then trace[|between|] - {handle} else trace[|between|]
    {
      present := Present(handle);
      trace := Interleave(between);
      if present {
        Remove(handle);
      }
    }

    /** The writes of other threads, each atomic under the write lock. */
    method Interleave(writes: seq<Write>) returns (ghost trace: seq<map<Key, HandleClass>>)
      requires Valid()
      modifies this`hidCount, slots
      ensures Valid()
      ensures forall i: Index :: old(slots[i].key) != 0 ==> slots[i].key != 0
      ensures IsTrace(old(Contents()), writes, trace) && trace[|writes|] == Contents()
    {
      hide Distinct, Reachable, ContentsOf, CountHid, IsTrace, WindowFull;
      trace := [Contents()];
      NoTrace(Contents());
      for n := 0 to |writes|
        invariant Valid()
        invariant forall i: Index :: old(slots[i].key) != 0 ==> slots[i].key != 0
        invariant |trace| == n + 1 && IsTrace(old(Contents()), writes[..n], trace) && trace[n] == Contents()
      {
        match writes[n] {
          case Remembered(handle, classification) => Remember(handle, classification);
          case Forgotten(handle) =>
            if Trackable(handle) {
              Remove(handle);
            }
        }
        assert WriteStep(trace[n], writes[n], Contents());
        TraceExtends(old(Contents()), writes, n, trace, Contents());
        trace := trace + [Contents()];
      }
      assert writes[..|writes|] == writes;
    }
  }

  /** What one write may do to the contents: only its own key changes, and a new key may be dropped. */
  ghost predicate WriteStep(before: map<Key, HandleClass>, write: Write, after: map<Key, HandleClass>) {
    match write
    case Remembered(handle, classification) =>
      || (Trackable(handle) && after == before[handle := classification])
      || (handle !in before && after == before)
      || (!Trackable(handle) && after == before)
    case Forgotten(handle) => after == if Trackable(handle) then before - {handle} else before
  }

  ghost predicate IsTrace(start: map<Key, HandleClass>, writes: seq<Write>, trace: seq<map<Key, HandleClass>>) {
    && |trace| == |writes| + 1 && trace[0] == start
    && forall n :: 0 <= n < |writes| ==> WriteStep(trace[n], writes[n], trace[n + 1])
  }

  lemma NoTrace(start: map<Key, HandleClass>)
    ensures IsTrace(start, [], [start])
  {
  }

  lemma TraceExtends(start: map<Key, HandleClass>, writes: seq<Write>, n: nat,
                     trace: seq<map<Key, HandleClass>>, next: map<Key, HandleClass>)
    requires n < |writes| && IsTrace(start, writes[..n], trace) && WriteStep(trace[n], writes[n], next)
    ensures IsTrace(start, writes[..n + 1], trace + [next])
  {
    assert forall k :: 0 <= k < n ==> writes[..n + 1][k] == writes[..n][k];
  }

  /** A key that no write names is as it was: writes of other threads never disturb it. */
  lemma {:induction false} UnnamedKeySurvives(start: map<Key, HandleClass>, writes: seq<Write>,
                                              trace: seq<map<Key, HandleClass>>, key: Key)
    requires IsTrace(start, writes, trace)
    requires forall n :: 0 <= n < |writes| ==> writes[n].handle != key
    ensures key in trace[|writes|] <==> key in start
    ensures key in start ==> trace[|writes|][key] == start[key]
    decreases |writes|
  {
    if writes != [] {
      assert WriteStep(trace[0], writes[0], trace[1]);
      UnnamedKeySurvives(trace[1], writes[1..], trace[1..], key);
    }
  }

  /** Forgetting never leaves the key behind unless another thread remembers it after the first phase. */
  lemma {:induction false} AbsentStaysAbsent(start: map<Key, HandleClass>, writes: seq<Write>,
                                             trace: seq<map<Key, HandleClass>>, key: Key)
    requires IsTrace(start, writes, trace) && key !in start && key in trace[|writes|]
    ensures exists n :: 0 <= n < |writes| && writes[n].Remembered? && writes[n].handle == key
  {
    if forall n :: 0 <= n < |writes| ==> writes[n] == Forgotten(key) || writes[n].handle != key {
      var n := 0;
      while n < |writes|
        invariant 0 <= n <= |writes| && key !in trace[n]
      {
        assert WriteStep(trace[n], writes[n], trace[n + 1]);
        n := n + 1;
      }
      assert false;
    }
  }
}
