/** The fail-closed resolver: from a snapshot of a loaded PE32+ image to the layout of one class. */
module Resolver {
  import opened Common
  import ByteSearch

  const U32_MAX: nat := 0xFFFF_FFFF
  const U64_MAX: nat := 0xFFFF_FFFF_FFFF_FFFF
  type U32 = n: nat | n <= U32_MAX
  type U64 = n: nat | n <= U64_MAX

  const TYPE_DESCRIPTOR_NAME_OFFSET: nat := 16
  const COMPLETE_OBJECT_LOCATOR_SIZE: nat := 24
  const MAX_SECONDARY_OFFSET: nat := 0x100
  const MAX_VTABLE_METHODS: nat := 8
  const MAX_METHOD_BYTES: nat := 0x2_0000
  const MAX_FIELD_OFFSET: nat := 0x2_0000
  const HID_THREAD_RTTI_NAME: seq<bv8> := Ascii(".?AVCHIDIOThread@CSteamController@@\0")

  function Ascii(text: string): (r: seq<bv8>)
    ensures |r| == |text|
  {
    seq(|text|, i requires 0 <= i < |text| => (text[i] as int % 0x100) as bv8)
  }

  datatype Layout = Layout(
    primaryVtableRva: U32, secondaryVtableRva: U32, secondaryObjectOffset: U32,
    workerMethodRva: U32, deadlineOffset: U32, counterOffset: U32)

  datatype PeFault =
    | DosSignatureMissing | DosHeaderTruncated | NtSignatureMissing | CoffHeaderTruncated | NotPe32Plus
    | OptionalHeaderTruncated | SnapshotTooShort | SectionTableTruncated | NoExecutableSection
    | TypeDescriptorUnderflow | RttiRvaTooLarge | ModuleAddressOverflow

  datatype ResolveError =
    | InvalidPe(fault: PeFault)
    | RttiNameCount(count: nat)
    | CompleteObjectLocatorNotFound
    | VtableNotUnique
    | SchedulerNotUnique(count: nat)

  datatype Section = Section(start: U32, end: U32, executable: bool)

  datatype Vtable = Vtable(objectOffset: U32, rva: U32)

  datatype Locator = Locator(rva: U32, objectOffset: U32)

  datatype Fields = Fields(deadline: U32, counter: U32)

  // ----- Little-endian fields -----

  lemma {:induction false} LeValueBound(bytes: seq<bv8>)
    ensures |bytes| == 2 ==> LeValue(bytes) < 0x1_0000
    ensures |bytes| == 4 ==> LeValue(bytes) <= U32_MAX
    ensures |bytes| == 8 ==> LeValue(bytes) <= U64_MAX
  {
    LeValueBelow(bytes);
    assert |bytes| == 2 ==> Power256(2) == 0x1_0000;
    assert |bytes| == 4 ==> Power256(4) == 0x1_0000_0000;
    assert |bytes| == 8 ==> Power256(8) == 0x1_0000_0000_0000_0000 by {
      assert Power256(4) == 0x1_0000_0000;
      assert Power256(6) == 0x1_0000_0000_0000;
    }
  }

  function Power256(n: nat): nat {
    if n == 0 then 1 else 0x100 * Power256(n - 1)
  }

  lemma {:induction false} LeValueBelow(bytes: seq<bv8>)
    ensures LeValue(bytes) < Power256(|bytes|)
  {
    if bytes != [] {
      LeValueBelow(bytes[1..]);
    }
  }

  function ReadU16(image: seq<bv8>, offset: nat): Option<nat> {
    if offset + 2 <= |image| then Some(LeValue(image[offset..offset + 2])) else None
  }

  function ReadU32(image: seq<bv8>, offset: nat): (r: Option<U32>)
    ensures r.Some? <==> offset + 4 <= |image|
  {
    if offset + 4 <= |image| then
      LeValueBound(image[offset..offset + 4]);
      Some(LeValue(image[offset..offset + 4]))
    else None
  }

  function ReadU64(image: seq<bv8>, offset: nat): (r: Option<U64>)
    ensures r.Some? <==> offset + 8 <= |image|
  {
    if offset + 8 <= |image| then
      LeValueBound(image[offset..offset + 8]);
      Some(LeValue(image[offset..offset + 8]))
    else None
  }

  /** The first byte of a word is its lowest. */
  lemma Word32(image: seq<bv8>, o: nat)
    requires o + 4 <= |image|
    ensures ReadU32(image, o)
         == Some(image[o] as nat + 0x100 * (image[o + 1] as nat)
                 + 0x1_0000 * (image[o + 2] as nat) + 0x100_0000 * (image[o + 3] as nat))
  {
    var b := image[o..o + 4];
    assert b[1..][1..] == b[2..] && b[2..][1..] == b[3..] && b[3..][1..] == [];
    assert LeValue(b[3..]) == b[3] as nat;
    assert LeValue(b[2..]) == b[2] as nat + 0x100 * LeValue(b[3..]);
    assert LeValue(b[1..]) == b[1] as nat + 0x100 * LeValue(b[2..]);
  }

  lemma Word64(image: seq<bv8>, o: nat)
    requires o + 8 <= |image|
    ensures ReadU32(image, o).Some? && ReadU32(image, o + 4).Some?
    ensures ReadU64(image, o) == Some(ReadU32(image, o).value + 0x1_0000_0000 * ReadU32(image, o + 4).value)
  {
    var b := image[o..o + 8];
    LowAndHigh(b);
    assert b[..4] == image[o..o + 4] && b[4..] == image[o + 4..o + 8];
  }

  lemma LowAndHigh(b: seq<bv8>)
    requires |b| == 8
    ensures LeValue(b) == LeValue(b[..4]) + 0x1_0000_0000 * LeValue(b[4..])
  {
    assert b == b[..4] + b[4..];
    LeAppend(b[..4], b[4..]);
    assert Power256(4) == 0x1_0000_0000;
  }

  lemma {:induction false} LeAppend(a: seq<bv8>, b: seq<bv8>)
    ensures LeValue(a + b) == LeValue(a) + Power256(|a|) * LeValue(b)
  {
    if a == [] {
      assert a + b == b;
    } else {
      LeAppend(a[1..], b);
      assert (a + b)[1..] == a[1..] + b;
      Regroup(Power256(|a| - 1), LeValue(b));
    }
  }

  lemma Regroup(x: nat, y: nat)
    ensures 0x100 * (x * y) == 0x100 * x * y
  {
  }

  // ----- The section table -----

  /** The header fields that locate the section table. */
  datatype Header = Header(sectionCount: nat, declaredSize: nat, sectionTable: nat)

  /** The header of a PE32+ image whose snapshot covers `SizeOfImage`. */
  ghost function HeaderOf(image: seq<bv8>): Option<Header> {
    if ReadU16(image, 0) != Some(0x5a4d) || ReadU32(image, 0x3c).None? then None else
    var nt: nat := ReadU32(image, 0x3c).value;
    if || ReadU32(image, nt) != Some(0x4550)
       || ReadU16(image, nt + 24) != Some(0x20b)
       || ReadU32(image, nt + 80).None?
       || ReadU32(image, nt + 80).value > |image| then None
    else
      Some(Header(ReadU16(image, nt + 6).value, ReadU32(image, nt + 80).value, nt + 24 + ReadU16(image, nt + 20).value))
  }

  function Larger(a: nat, b: nat): (r: nat)
    ensures r >= a && r >= b && (r == a || r == b)
  {
    if a < b then b else a
  }

  function Smaller(a: nat, b: nat): (r: nat)
    ensures r <= a && r <= b && (r == a || r == b)
  {
    if a < b then a else b
  }

  /** The section that a header describes, or nothing when it is empty or leaves the declared image. */
  function SectionFrom(virtualSize: U32, start: U32, rawSize: U32, characteristics: U32, declaredSize: nat)
    : (r: Option<Section>)
    ensures r.Some? ==> r.value.start == start < r.value.end <= declaredSize
  {
    var end := Smaller(start + Larger(virtualSize, rawSize), U32_MAX);
    if start < end <= declaredSize then Some(Section(start, end, characteristics / 0x2000_0000 % 2 == 1)) else None
  }

  /** Entry `i` of the section table. */
  function SectionAt(image: seq<bv8>, table: nat, declaredSize: nat, i: nat): (r: Option<Section>)
    requires table + 40 * i + 40 <= |image|
    ensures r.Some? ==> r.value.start < r.value.end <= declaredSize
  {
    var offset := table + 40 * i;
    SectionFrom(ReadU32(image, offset + 8).value, ReadU32(image, offset + 12).value, ReadU32(image, offset + 16).value,
                ReadU32(image, offset + 36).value, declaredSize)
  }

  /** The sections among the first `n` entries, in table order. */
  function SectionsBelow(image: seq<bv8>, table: nat, declaredSize: nat, n: nat): (r: seq<Section>)
    requires n == 0 || table + 40 * n <= |image|
  {
    if n == 0 then []
    else
      var before := SectionsBelow(image, table, declaredSize, n - 1);
      match SectionAt(image, table, declaredSize, n - 1)
      case Some(s) => before + [s]
      case None => before
  }

  /**
   Entry `i` describes the section: it starts at the entry's address and ends behind the larger of its two sizes, or at
   the last 32-bit address; it is not empty and stays in the declared image; its execute flag tells whether it is code.
   */
  predicate EntryDescribes(image: seq<bv8>, table: nat, declaredSize: nat, i: nat, s: Section)
    requires table + 40 * i + 40 <= |image|
  {
    var offset := table + 40 * i;
    var virtualEnd := ReadU32(image, offset + 12).value + ReadU32(image, offset + 8).value;
    var rawEnd := ReadU32(image, offset + 12).value + ReadU32(image, offset + 16).value;
    && s.start == ReadU32(image, offset + 12).value
    && (s.end == U32_MAX ==> virtualEnd >= U32_MAX || rawEnd >= U32_MAX)
    && (s.end < U32_MAX ==> s.end >= virtualEnd && s.end >= rawEnd && (s.end == virtualEnd || s.end == rawEnd))
    && s.start < s.end <= declaredSize
    && (s.executable <==> image[offset + 39] & 0x20 != 0)
  }

  lemma BitFive(b: bv8)
    ensures (b as nat) / 0x20 % 2 == 1 <==> b & 0x20 != 0
  {
  }

  lemma TopByte(word: nat, low: nat, high: nat)
    requires word == low + 0x100_0000 * high && low < 0x100_0000
    ensures word / 0x2000_0000 == high / 0x20
  {
  }

  /** Bit 29 of a word is bit 5 of its last byte. */
  lemma ExecuteFlag(image: seq<bv8>, o: nat)
    requires o + 4 <= |image|
    ensures ReadU32(image, o).value / 0x2000_0000 % 2 == 1 <==> image[o + 3] & 0x20 != 0
  {
    hide LeValue;
    Word32(image, o);
    var low := image[o] as nat + 0x100 * (image[o + 1] as nat) + 0x1_0000 * (image[o + 2] as nat);
    TopByte(ReadU32(image, o).value, low, image[o + 3] as nat);
    BitFive(image[o + 3]);
  }

  lemma EntryIs(image: seq<bv8>, table: nat, declaredSize: nat, i: nat, s: Section)
    requires table + 40 * i + 40 <= |image|
    ensures SectionAt(image, table, declaredSize, i) == Some(s) <==> EntryDescribes(image, table, declaredSize, i, s)
  {
    hide LeValue;
    ExecuteFlag(image, table + 40 * i + 36);
  }

  /** Exactly what the table entries describe become sections. */
  lemma {:induction false} SectionsAreTheEntries(image: seq<bv8>, table: nat, declaredSize: nat, n: nat, s: Section)
    requires n == 0 || table + 40 * n <= |image|
    ensures s in SectionsBelow(image, table, declaredSize, n)
       <==> exists i: nat | i < n :: EntryDescribes(image, table, declaredSize, i, s)
  {
    hide LeValue, SectionAt, EntryDescribes;
    if n > 0 {
      SectionsAreTheEntries(image, table, declaredSize, n - 1, s);
      EntryIs(image, table, declaredSize, n - 1, s);
      assert SectionAt(image, table, declaredSize, n - 1) == Some(s) ==>
          s in SectionsBelow(image, table, declaredSize, n);
    }
  }

  /** The whole section table of a supported image lies inside the snapshot. */
  ghost predicate TablePresent(image: seq<bv8>) {
    && HeaderOf(image).Some?
    && var h := HeaderOf(image).value;
       h.sectionTable + 40 * h.sectionCount <= |image|
  }

  /** The sections of an image whose table is present. */
  ghost function SectionsOf(image: seq<bv8>): seq<Section> {
    if !TablePresent(image) then []
    else
      var h := HeaderOf(image).value;
      SectionsBelow(image, h.sectionTable, h.declaredSize, h.sectionCount)
  }

  /** A loaded PE32+ image with its section table present and at least one executable section. */
  ghost predicate Supported(image: seq<bv8>) {
    TablePresent(image) && exists s :: s in SectionsOf(image) && s.executable
  }

  /** Reads `count` table entries, stopping at the first one that the snapshot cuts off. */
  method ReadSections(image: seq<bv8>, table: nat, declaredSize: nat, count: nat)
      returns (r: Result<seq<Section>, PeFault>)
    ensures count == 0 || table + 40 * count <= |image| ==> r == Ok(SectionsBelow(image, table, declaredSize, count))
    ensures count > 0 && table + 40 * count > |image| ==> r == Err(SectionTableTruncated)
  {
    hide LeValue;
    var sections := [];
    for index := 0 to count
      invariant index == 0 || table + 40 * index <= |image|
      invariant sections == SectionsBelow(image, table, declaredSize, index)
    {
      var offset := table + index * 40;
      var virtualSize := ReadU32(image, offset + 8);
      if virtualSize.None? {
        return Err(SectionTableTruncated);
      }
      var start := ReadU32(image, offset + 12);
      if start.None? {
        return Err(SectionTableTruncated);
      }
      var rawSize := ReadU32(image, offset + 16);
      if rawSize.None? {
        return Err(SectionTableTruncated);
      }
      var characteristics := ReadU32(image, offset + 36);
      if characteristics.None? {
        return Err(SectionTableTruncated);
      }
      var section := SectionFrom(virtualSize.value, start.value, rawSize.value, characteristics.value, declaredSize);
      assert section == SectionAt(image, table, declaredSize, index);
      if section.Some? {
        sections := sections + [section.value];
      }
    }
    r := Ok(sections);
  }

  method AnyExecutable(sections: seq<Section>) returns (any: bool)
    ensures any <==> exists s :: s in sections && s.executable
  {
    for i := 0 to |sections|
      invariant forall k :: 0 <= k < i ==> !sections[k].executable
    {
      if sections[i].executable {
        assert sections[i] in sections;
        return true;
      }
    }
    any := false;
  }

  method ReadHeader(image: seq<bv8>) returns (r: Result<Header, PeFault>)
    ensures r.Ok? <==> HeaderOf(image).Some?
    ensures r.Ok? ==> r.value == HeaderOf(image).value
  {
    hide LeValue;
    if ReadU16(image, 0) != Some(0x5a4d) {
      return Err(DosSignatureMissing);
    }
    var ntOffset := ReadU32(image, 0x3c);
    if ntOffset.None? {
      return Err(DosHeaderTruncated);
    }
    var nt: nat := ntOffset.value;
    if ReadU32(image, nt) != Some(0x4550) {
      return Err(NtSignatureMissing);
    }
    var sectionCount := ReadU16(image, nt + 6);
    if sectionCount.None? {
      return Err(CoffHeaderTruncated);
    }
    var optionalSize := ReadU16(image, nt + 20);
    if optionalSize.None? {
      return Err(CoffHeaderTruncated);
    }
    var optional := nt + 24;
    if ReadU16(image, optional) != Some(0x20b) {
      return Err(NotPe32Plus);
    }
    var declaredSize := ReadU32(image, optional + 56);
    if declaredSize.None? {
      return Err(OptionalHeaderTruncated);
    }
    if declaredSize.value > |image| {
      return Err(SnapshotTooShort);
    }
    r := Ok(Header(sectionCount.value, declaredSize.value, optional + optionalSize.value));
  }

  /** Succeeds exactly on supported images, with their sections in table order. */
  method ParsePeSections(image: seq<bv8>) returns (r: Result<seq<Section>, PeFault>)
    ensures r.Ok? <==> Supported(image)
    ensures r.Ok? ==> r.value == SectionsOf(image)
  {
    var header := ReadHeader(image);
    if header.Err? {
      return Err(header.error);
    }
    var h := header.value;
    var sections := ReadSections(image, h.sectionTable, h.declaredSize, h.sectionCount);
    if sections.Err? {
      return sections;
    }
    var any := AnyExecutable(sections.value);
    if !any {
      return Err(NoExecutableSection);
    }
    return sections;
  }

  // ----- Complete object locators -----

  /** A locator of the class whose type descriptor is at `descriptor`. */
  predicate AnyLocator(image: seq<bv8>, descriptor: U32, l: Locator) {
    && l.rva % 4 == 0 && l.rva + COMPLETE_OBJECT_LOCATOR_SIZE <= |image|
    && ReadU32(image, l.rva) == Some(1)
    && ReadU32(image, l.rva + 4) == Some(l.objectOffset) && l.objectOffset <= MAX_SECONDARY_OFFSET
    && ReadU32(image, l.rva + 8) == Some(0)
    && ReadU32(image, l.rva + 12) == Some(descriptor)
    && ReadU32(image, l.rva + 16).value < |image|
    && ReadU32(image, l.rva + 20) == Some(l.rva)
  }

  /** A locator that the search sees: one that ends the image is skipped. */
  predicate IsLocator(image: seq<bv8>, descriptor: U32, l: Locator) {
    AnyLocator(image, descriptor, l) && l.rva + COMPLETE_OBJECT_LOCATOR_SIZE < |image|
  }

  /** The locator that ends the image. */
  predicate EndLocator(image: seq<bv8>, descriptor: U32, l: Locator) {
    AnyLocator(image, descriptor, l) && l.rva + COMPLETE_OBJECT_LOCATOR_SIZE == |image|
  }

  /** Tests the locator whose descriptor field is at `field`; `past` when no later one can be addressed. */
  method TestLocator(image: seq<bv8>, descriptor: U32, field: nat) returns (found: Option<Locator>, past: bool)
    requires field % 4 == 0 && field + 4 <= |image|
    ensures past ==> field - 12 > U32_MAX
    ensures forall l: Locator :: found == Some(l) <==> IsLocator(image, descriptor, l) && l.rva + 12 == field
  {
    hide LeValue;
    found, past := None, false;
    if ReadU32(image, field) != Some(descriptor) || field < 12 {
      return;
    }
    var limit := if |image| > COMPLETE_OBJECT_LOCATOR_SIZE then |image| - COMPLETE_OBJECT_LOCATOR_SIZE else 0;
    var offset := field - 12;
    if offset >= limit {
      return;
    }
    if offset > U32_MAX {
      past := true;
      return;
    }
    if || ReadU32(image, offset) != Some(1)
       || ReadU32(image, offset + 8) != Some(0)
       || ReadU32(image, offset + 20) != Some(offset)
    {
      return;
    }
    var objectOffset := ReadU32(image, offset + 4);
    var classDescriptor := ReadU32(image, offset + 16);
    if objectOffset.None? || classDescriptor.None? {
      return;
    }
    if objectOffset.value <= MAX_SECONDARY_OFFSET && classDescriptor.value < |image| {
      found := Some(Locator(offset, objectOffset.value));
    }
  }

  /** Every locator of the class, once. */
  method FindCompleteObjectLocators(image: seq<bv8>, descriptor: U32) returns (locators: seq<Locator>)
    ensures Distinct(locators)
    ensures forall l: Locator :: l in locators <==> IsLocator(image, descriptor, l)
  {
    hide LeValue;
    locators := [];
    var field := 0;
    while field + 4 <= |image|
      invariant field % 4 == 0
      invariant Distinct(locators)
      invariant forall l: Locator :: l in locators <==> IsLocator(image, descriptor, l) && l.rva + 12 < field
      decreases |image| - field
    {
      var found, past := TestLocator(image, descriptor, field);
      if past {
        break;
      }
      if found.Some? && found.value !in locators {
        locators := locators + [found.value];
      }
      field := field + 4;
    }
  }

  // ----- Vtables -----

  predicate Contains(s: Section, rva: U32) {
    s.executable && s.start <= rva < s.end
  }

  predicate RvaIsExecutable(sections: seq<Section>, rva: U32) {
    exists s :: s in sections && Contains(s, rva)
  }

  /** The word at `rva` is a pointer to `target` in the module. */
  predicate PointsTo(moduleBase: U64, image: seq<bv8>, rva: nat, target: nat) {
    ReadU64(image, rva) == Some(moduleBase + target)
  }

  /** Some executable section contains the target of the pointer at `rva`. */
  ghost predicate StartsWithCode(moduleBase: U64, image: seq<bv8>, sections: seq<Section>, rva: U32) {
    exists target: U32, s :: s in sections && s.executable && s.start <= target < s.end
                             && PointsTo(moduleBase, image, rva, target)
  }

  /** The test of a table's first entry. */
  predicate HasExecutableEntry(moduleBase: U64, image: seq<bv8>, sections: seq<Section>, rva: U32) {
    && ReadU64(image, rva).Some?
    && var pointer := ReadU64(image, rva).value;
       moduleBase <= pointer <= moduleBase + U32_MAX && RvaIsExecutable(sections, pointer - moduleBase)
  }

  lemma ExecutableEntryIsCode(moduleBase: U64, image: seq<bv8>, sections: seq<Section>, rva: U32)
    ensures HasExecutableEntry(moduleBase, image, sections, rva) <==> StartsWithCode(moduleBase, image, sections, rva)
  {
    hide LeValue;
    if HasExecutableEntry(moduleBase, image, sections, rva) {
      var target: U32 := ReadU64(image, rva).value - moduleBase;
      assert PointsTo(moduleBase, image, rva, target);
    }
  }

  /** A vtable of the class: the aligned word before it points to a locator, and its first entry is code. */
  ghost predicate IsVtable(moduleBase: U64, image: seq<bv8>, sections: seq<Section>, descriptor: U32, v: Vtable) {
    && v.rva >= 8 && v.rva % 8 == 0
    && StartsWithCode(moduleBase, image, sections, v.rva)
    && exists l: Locator ::
         && IsLocator(image, descriptor, l)
         && l.objectOffset == v.objectOffset && PointsTo(moduleBase, image, v.rva - 8, l.rva)
  }

  /** The aligned offsets at which the eight bytes of `value` stand. */
  method FindU64(haystack: seq<bv8>, value: U64) returns (offsets: seq<nat>)
    ensures forall o: nat :: o in offsets <==> o % 8 == 0 && ReadU64(haystack, o) == Some(value)
  {
    offsets := [];
    var offset := 0;
    while offset + 8 <= |haystack|
      invariant offset % 8 == 0
      invariant forall o: nat :: o in offsets <==> o < offset && o % 8 == 0 && ReadU64(haystack, o) == Some(value)
      decreases |haystack| - offset
    {
      if ReadU64(haystack, offset) == Some(value) {
        offsets := offsets + [offset];
      }
      offset := offset + 8;
    }
  }

  /** The word before `v` points to `l`, and `v` starts with code. */
  ghost predicate VtableOf(moduleBase: U64, image: seq<bv8>, sections: seq<Section>, l: Locator, v: Vtable) {
    && v.rva >= 8 && v.rva % 8 == 0
    && StartsWithCode(moduleBase, image, sections, v.rva)
    && l.objectOffset == v.objectOffset && PointsTo(moduleBase, image, v.rva - 8, l.rva)
  }

  /** Adds the vtables that belong to one locator. */
  method AddVtables(moduleBase: U64, image: seq<bv8>, sections: seq<Section>, l: Locator, known: seq<Vtable>)
      returns (vtables: seq<Vtable>)
    requires moduleBase + l.rva <= U64_MAX && Distinct(known)
    ensures Distinct(vtables)
    ensures forall v: Vtable :: v in vtables <==> v in known || VtableOf(moduleBase, image, sections, l, v)
  {
    vtables := known;
    var references := FindU64(image, moduleBase + l.rva);
    for i := 0 to |references|
      invariant Distinct(vtables)
      invariant forall v: Vtable :: v in vtables <==>
        v in known || (VtableOf(moduleBase, image, sections, l, v) && v.rva - 8 in references[..i])
    {
      assert references[..i + 1] == references[..i] + [references[i]];
      assert references[i] in references;
      var vtableRva := references[i] + 8;
      if vtableRva <= U32_MAX {
        ExecutableEntryIsCode(moduleBase, image, sections, vtableRva);
        if HasExecutableEntry(moduleBase, image, sections, vtableRva) {
          var candidate := Vtable(l.objectOffset, vtableRva);
          if candidate !in vtables {
            vtables := vtables + [candidate];
          }
        }
      }
    }
    assert references[..|references|] == references;
  }

  /** Some locator's absolute address does not fit 64 bits. */
  ghost predicate AddressOverflows(moduleBase: U64, image: seq<bv8>, descriptor: U32) {
    exists l: Locator :: IsLocator(image, descriptor, l) && moduleBase + l.rva > U64_MAX
  }

  /** Every vtable of the class, once, unless an address overflows. */
  method CollectVtables(moduleBase: U64, image: seq<bv8>, sections: seq<Section>, descriptor: U32,
                        locators: seq<Locator>)
      returns (r: Result<seq<Vtable>, PeFault>)
    requires forall l: Locator :: l in locators <==> IsLocator(image, descriptor, l)
    ensures r.Err? <==> AddressOverflows(moduleBase, image, descriptor)
    ensures r.Ok? ==> Distinct(r.value)
    ensures r.Ok? ==> forall v: Vtable :: v in r.value <==> IsVtable(moduleBase, image, sections, descriptor, v)
  {
    var vtables := [];
    for i := 0 to |locators|
      invariant forall l :: l in locators[..i] ==> moduleBase + l.rva <= U64_MAX
      invariant Distinct(vtables)
      invariant forall v: Vtable :: v in vtables <==>
        exists l :: l in locators[..i] && VtableOf(moduleBase, image, sections, l, v)
    {
      assert locators[..i + 1] == locators[..i] + [locators[i]];
      assert locators[i] in locators;
      if moduleBase + locators[i].rva > U64_MAX {
        return Err(ModuleAddressOverflow);
      }
      vtables := AddVtables(moduleBase, image, sections, locators[i], vtables);
    }
    assert locators[..|locators|] == locators;
    r := Ok(vtables);
  }

  /** `v` is the only vtable at its object offset. */
  ghost predicate OnlyVtable(vtables: seq<Vtable>, v: Vtable) {
    v in vtables && forall w :: w in vtables && w.objectOffset == v.objectOffset ==> w == v
  }

  method UniqueVtable(vtables: seq<Vtable>, objectOffset: U32) returns (r: Option<Vtable>)
    requires Distinct(vtables)
    ensures forall v: Vtable :: r == Some(v) <==> OnlyVtable(vtables, v) && v.objectOffset == objectOffset
  {
    var matches: seq<Vtable> := [];
    for i := 0 to |vtables|
      invariant Distinct(matches)
      invariant forall v :: v in matches <==> v in vtables[..i] && v.objectOffset == objectOffset
    {
      assert vtables[..i + 1] == vtables[..i] + [vtables[i]];
      assert vtables[i] !in vtables[..i];
      if vtables[i].objectOffset == objectOffset {
        matches := matches + [vtables[i]];
      }
    }
    assert vtables[..|vtables|] == vtables;
    if |matches| == 1 {
      r := Some(matches[0]);
      assert matches[0] in matches;
    } else {
      r := None;
      assert |matches| > 1 ==> matches[0] in matches && matches[1] in matches;
    }
  }

  // ----- The scheduler's instructions -----

  datatype Mnemonic = Inc | Add | Movsd | Ret | OtherMnemonic

  datatype OpKind = MemoryOperand | RegisterOperand | ImmediateOperand | OtherOperand

  /** A decoded instruction. Register 0 stands for no register; `immediate` is the second operand's. */
  datatype Instruction = Instruction(
    mnemonic: Mnemonic, operands: nat, op0: OpKind, op1: OpKind, immediate: U64,
    memoryBase: nat, memoryIndex: nat, displacement: U64, ipRelative: bool)

  /** A memory operand of the form `[base + displacement]`. */
  datatype Place = Place(base: nat, displacement: U64)

  function SimpleMemory(i: Instruction): Option<Place> {
    if i.memoryIndex == 0 && !i.ipRelative then Some(Place(i.memoryBase, i.displacement)) else None
  }

  function IncrementedMemory(i: Instruction): Option<Place> {
    var isIncrement :=
      i.mnemonic.Inc? || (i.mnemonic.Add? && i.operands >= 2 && i.op1.ImmediateOperand? && i.immediate == 1);
    if !isIncrement || !i.op0.MemoryOperand? then None else SimpleMemory(i)
  }

  function MovsdLoad(i: Instruction): Option<Place> {
    if i.mnemonic.Movsd? && i.op0.RegisterOperand? && i.op1.MemoryOperand? then SimpleMemory(i) else None
  }

  function MovsdStore(i: Instruction): Option<Place> {
    if i.mnemonic.Movsd? && i.op0.MemoryOperand? && i.op1.RegisterOperand? then SimpleMemory(i) else None
  }

  /** The memory operand of the instruction is plainly `[base + displacement]`. */
  predicate Addresses(i: Instruction, place: Place) {
    i.memoryIndex == 0 && !i.ipRelative && i.memoryBase == place.base && i.displacement == place.displacement
  }

  /** Adds one to the place in memory. */
  predicate Increments(i: Instruction, place: Place) {
    && i.op0 == MemoryOperand && Addresses(i, place)
    && (i.mnemonic == Add ==> i.operands >= 2 && i.op1 == ImmediateOperand && i.immediate == 1)
    && i.mnemonic in {Inc, Add}
  }

  /** Moves a double from the place to a register. */
  predicate Loads(i: Instruction, place: Place) {
    i.mnemonic == Movsd && i.op0 == RegisterOperand && i.op1 == MemoryOperand && Addresses(i, place)
  }

  /** Moves a double from a register to the place. */
  predicate Stores(i: Instruction, place: Place) {
    i.mnemonic == Movsd && i.op0 == MemoryOperand && i.op1 == RegisterOperand && Addresses(i, place)
  }

  lemma OperandsAre(i: Instruction, place: Place)
    ensures IncrementedMemory(i) == Some(place) <==> Increments(i, place)
    ensures MovsdLoad(i) == Some(place) <==> Loads(i, place)
    ensures MovsdStore(i) == Some(place) <==> Stores(i, place)
  {
  }

  /** `i` bumps a counter and `j`, at most eight behind it, stores a deadline loaded before, off one base register. */
  ghost predicate SchedulesAt(code: seq<Instruction>, i: nat, j: nat, f: Fields) {
    && i < j < i + 9 && j < |code| && code[i].memoryBase != 0
    && var counter := Place(code[i].memoryBase, f.counter);
       var deadline := Place(code[i].memoryBase, f.deadline);
       && Increments(code[i], counter) && f.counter <= MAX_FIELD_OFFSET
       && Stores(code[j], deadline) && f.deadline <= MAX_FIELD_OFFSET && f.deadline % 8 == 0
       && exists k :: 0 <= k < i && i - 48 <= k && Loads(code[k], deadline)
  }

  ghost predicate Schedules(code: seq<Instruction>, f: Fields) {
    exists i: nat, j: nat :: SchedulesAt(code, i, j, f)
  }

  /** The code carries the guarded scheduler semantics for these fields and no others. */
  ghost predicate OnlyFields(code: seq<Instruction>, f: Fields) {
    Schedules(code, f) && forall g :: Schedules(code, g) ==> g == f
  }

  /** Whether the place was loaded by one of the 48 instructions before `index`. */
  method LoadedBefore(code: seq<Instruction>, index: nat, place: Place) returns (loaded: bool)
    requires index <= |code|
    ensures loaded <==> exists k :: 0 <= k < index && index - 48 <= k && Loads(code[k], place)
  {
    var previousStart := if index < 48 then 0 else index - 48;
    for k := previousStart to index
      invariant forall m :: previousStart <= m < k ==> !Loads(code[m], place)
    {
      OperandsAre(code[k], place);
      if MovsdLoad(code[k]) == Some(place) {
        return true;
      }
    }
    loaded := false;
  }

  /** Tests one pair of instructions. */
  method TestStore(code: seq<Instruction>, i: nat, j: nat, counter: Place) returns (found: Option<Fields>)
    requires i < j < i + 9 && j < |code|
    requires Increments(code[i], counter) && counter.base != 0 && counter.displacement <= MAX_FIELD_OFFSET
    ensures forall f: Fields :: found == Some(f) <==> SchedulesAt(code, i, j, f)
  {
    hide Increments;
    SamePlace(code[i], counter);
    found := None;
    var store := MovsdStore(code[j]);
    StoredPlace(code[j]);
    if store.None? {
      return;
    }
    var deadline := store.value;
    if deadline.base != counter.base || deadline.displacement > MAX_FIELD_OFFSET || deadline.displacement % 8 != 0 {
      return;
    }
    var loaded := LoadedBefore(code, i, deadline);
    if loaded {
      found := Some(Fields(deadline.displacement, counter.displacement));
    }
  }

  lemma SamePlace(i: Instruction, place: Place)
    requires Increments(i, place)
    ensures place.base == i.memoryBase
    ensures forall other: Place :: Increments(i, other) ==> other == place
  {
  }

  lemma IncrementedPlace(i: Instruction)
    ensures forall place: Place :: Increments(i, place) <==> IncrementedMemory(i) == Some(place)
  {
  }

  lemma StoredPlace(i: Instruction)
    ensures forall place: Place :: Stores(i, place) <==> MovsdStore(i) == Some(place)
  {
  }

  /** Adds the fields that instruction `i` schedules, together with any of the next eight. */
  method AddSchedules(code: seq<Instruction>, i: nat, known: seq<Fields>) returns (matches: seq<Fields>)
    requires i < |code| && Distinct(known)
    ensures Distinct(matches)
    ensures forall f: Fields :: f in matches <==> f in known || exists j: nat :: SchedulesAt(code, i, j, f)
  {
    IncrementedPlace(code[i]);
    matches := known;
    var incremented := IncrementedMemory(code[i]);
    if incremented.None? {
      return;
    }
    var counter := incremented.value;
    OperandsAre(code[i], counter);
    if counter.base == 0 || counter.displacement > MAX_FIELD_OFFSET {
      return;
    }
    var followingEnd := Smaller(i + 9, |code|);
    for j := i + 1 to followingEnd
      invariant Distinct(matches)
      invariant forall f: Fields :: f in matches <==> f in known || exists k: nat | k < j :: SchedulesAt(code, i, k, f)
    {
      var found := TestStore(code, i, j, counter);
      if found.Some? && found.value !in matches {
        matches := matches + [found.value];
      }
    }
  }

  /** The single scheduler match of a method's instructions. */
  method MatchScheduler(code: seq<Instruction>) returns (r: Option<Fields>)
    ensures forall f: Fields :: r == Some(f) <==> OnlyFields(code, f)
  {
    var matches: seq<Fields> := [];
    for i := 0 to |code|
      invariant Distinct(matches)
      invariant forall f: Fields :: f in matches <==> exists k: nat, j: nat | k < i :: SchedulesAt(code, k, j, f)
    {
      matches := AddSchedules(code, i, matches);
    }
    assert forall f: Fields :: f in matches <==> Schedules(code, f);
    r := Single(matches);
  }

  method Single<T(==)>(s: seq<T>) returns (r: Option<T>)
    requires Distinct(s)
    ensures r.Some? <==> |s| == 1
    ensures forall x :: r == Some(x) <==> x in s && forall y :: y in s ==> y == x
  {
    if |s| == 1 {
      r := Some(s[0]);
      assert s[0] in s;
    } else {
      r := None;
      assert |s| > 1 ==> s[0] in s && s[1] in s;
    }
  }

  // ----- One virtual method -----

  /** A module as it was loaded, and the instruction decoder: any function of the code bytes and their address. */
  datatype Snapshot = Snapshot(moduleBase: U64, image: seq<bv8>, decode: (seq<bv8>, U64) -> seq<Instruction>)

  /** The first return ends a method. */
  function UpToReturn(stream: seq<Instruction>): seq<Instruction> {
    if stream == [] then [] else if stream[0].mnemonic.Ret? then [stream[0]] else [stream[0]] + UpToReturn(stream[1..])
  }

  lemma {:induction false} UpToReturnIsFirst(stream: seq<Instruction>, n: nat)
    requires n <= |stream| && forall k :: 0 <= k < n ==> !stream[k].mnemonic.Ret?
    ensures n == |stream| ==> UpToReturn(stream) == stream
    ensures n < |stream| && stream[n].mnemonic.Ret? ==> UpToReturn(stream) == stream[..n + 1]
  {
    if stream != [] && n > 0 {
      UpToReturnIsFirst(stream[1..], n - 1);
      assert stream == [stream[0]] + stream[1..];
      assert n < |stream| ==> stream[..n + 1] == [stream[0]] + stream[1..][..n];
    }
  }

  method DecodeMethod(stream: seq<Instruction>) returns (code: seq<Instruction>)
    ensures code == UpToReturn(stream)
  {
    code := [];
    for i := 0 to |stream|
      invariant code == stream[..i]
      invariant forall k :: 0 <= k < i ==> !stream[k].mnemonic.Ret?
    {
      code := code + [stream[i]];
      if stream[i].mnemonic.Ret? {
        UpToReturnIsFirst(stream, i);
        assert code == stream[..i + 1];
        return;
      }
    }
    UpToReturnIsFirst(stream, |stream|);
    assert code == stream;
  }

  /** The end of the first executable section that contains the address. */
  function ExecutableEnd(sections: seq<Section>, rva: U32): (r: Option<U32>)
    ensures r.Some? <==> RvaIsExecutable(sections, rva)
    ensures r.Some? ==> exists s :: s in sections && Contains(s, rva) && s.end == r.value
  {
    if sections == [] then None
    else if Contains(sections[0], rva) then Some(sections[0].end)
    else ExecutableEnd(sections[1..], rva)
  }

  /** It is the first section in table order that contains the address. */
  lemma {:induction false} ExecutableEndIsFirst(sections: seq<Section>, rva: U32, k: nat)
    requires k < |sections| && sections[k].executable && sections[k].start <= rva < sections[k].end
    requires forall j :: 0 <= j < k ==> !(sections[j].executable && sections[j].start <= rva < sections[j].end)
    ensures ExecutableEnd(sections, rva) == Some(sections[k].end)
  {
    if k > 0 {
      ExecutableEndIsFirst(sections[1..], rva, k - 1);
    }
  }

  /** The instructions of the method at `rva`: up to its return, its section's end, 128 KiB or the image's end. */
  ghost function MethodCode(m: Snapshot, sections: seq<Section>, rva: U32): Option<seq<Instruction>> {
    if ExecutableEnd(sections, rva).None? || rva >= |m.image| || m.moduleBase + rva > U64_MAX then None
    else
      var end := Smaller(Smaller(ExecutableEnd(sections, rva).value, rva + MAX_METHOD_BYTES), |m.image|);
      assert rva < end;
      Some(UpToReturn(m.decode(m.image[rva..end], m.moduleBase + rva)))
  }

  ghost predicate MethodSchedules(m: Snapshot, sections: seq<Section>, rva: U32, f: Fields) {
    MethodCode(m, sections, rva).Some? && OnlyFields(MethodCode(m, sections, rva).value, f)
  }

  method AnalyzeSchedulerMethod(m: Snapshot, sections: seq<Section>, rva: U32) returns (r: Option<Fields>)
    ensures forall f: Fields :: r == Some(f) <==> MethodSchedules(m, sections, rva, f)
  {
    var sectionEnd := ExecutableEnd(sections, rva);
    if sectionEnd.None? {
      return None;
    }
    var end := Smaller(Smaller(sectionEnd.value, rva + MAX_METHOD_BYTES), |m.image|);
    if rva >= end || m.moduleBase + rva > U64_MAX {
      return None;
    }
    var code := DecodeMethod(m.decode(m.image[rva..end], m.moduleBase + rva));
    r := MatchScheduler(code);
  }

  // ----- Scheduler layouts -----

  /** Slot `index` of the vtable `v` holds the scheduling worker that the layout names. */
  ghost predicate SlotYields(m: Snapshot, sections: seq<Section>, primary: Vtable, v: Vtable, index: nat, l: Layout) {
    && v.objectOffset != 0 && index < MAX_VTABLE_METHODS
    && PointsTo(m.moduleBase, m.image, v.rva + index * 8, l.workerMethodRva)
    && RvaIsExecutable(sections, l.workerMethodRva)
    && l.deadlineOffset >= v.objectOffset && l.counterOffset >= v.objectOffset
    && MethodSchedules(m, sections, l.workerMethodRva,
                       Fields(l.deadlineOffset - v.objectOffset, l.counterOffset - v.objectOffset))
    && l.primaryVtableRva == primary.rva && l.secondaryVtableRva == v.rva && l.secondaryObjectOffset == v.objectOffset
  }

  ghost predicate Yields(m: Snapshot, sections: seq<Section>, primary: Vtable, vtables: seq<Vtable>, l: Layout) {
    exists v, index: nat :: v in vtables && SlotYields(m, sections, primary, v, index, l)
  }

  method TestSlot(m: Snapshot, sections: seq<Section>, primary: Vtable, v: Vtable, index: nat)
      returns (found: Option<Layout>)
    requires v.objectOffset != 0 && index < MAX_VTABLE_METHODS
    ensures forall l: Layout :: found == Some(l) <==> SlotYields(m, sections, primary, v, index, l)
  {
    hide LeValue;
    found := None;
    var pointer := ReadU64(m.image, v.rva + index * 8);
    if pointer.None? || pointer.value < m.moduleBase || pointer.value - m.moduleBase > U32_MAX {
      return;
    }
    var methodRva: U32 := pointer.value - m.moduleBase;
    if !RvaIsExecutable(sections, methodRva) {
      return;
    }
    var fields := AnalyzeSchedulerMethod(m, sections, methodRva);
    if fields.None? {
      return;
    }
    var f := fields.value;
    if v.objectOffset + f.deadline > U32_MAX || v.objectOffset + f.counter > U32_MAX {
      return;
    }
    var deadline, counter := v.objectOffset + f.deadline, v.objectOffset + f.counter;
    found := Some(Layout(primary.rva, v.rva, v.objectOffset, methodRva, deadline, counter));
  }

  /** Adds the layouts that one secondary vtable yields. */
  method AddLayouts(m: Snapshot, sections: seq<Section>, primary: Vtable, v: Vtable, known: seq<Layout>)
      returns (layouts: seq<Layout>)
    requires v.objectOffset != 0 && Distinct(known)
    ensures Distinct(layouts)
    ensures forall l: Layout :: l in layouts <==>
              l in known || exists i: nat :: SlotYields(m, sections, primary, v, i, l)
  {
    hide LeValue;
    layouts := known;
    for index := 0 to MAX_VTABLE_METHODS
      invariant Distinct(layouts)
      invariant forall l: Layout :: l in layouts <==>
        l in known || exists i: nat | i < index :: SlotYields(m, sections, primary, v, i, l)
    {
      var found := TestSlot(m, sections, primary, v, index);
      if found.Some? && found.value !in layouts {
        layouts := layouts + [found.value];
      }
    }
  }

  method FindSchedulerLayouts(m: Snapshot, sections: seq<Section>, vtables: seq<Vtable>, primary: Vtable)
      returns (layouts: seq<Layout>)
    ensures Distinct(layouts)
    ensures forall l: Layout :: l in layouts <==> Yields(m, sections, primary, vtables, l)
  {
    hide LeValue;
    layouts := [];
    for i := 0 to |vtables|
      invariant Distinct(layouts)
      invariant forall l: Layout :: l in layouts <==> Yields(m, sections, primary, vtables[..i], l)
    {
      assert vtables[..i + 1] == vtables[..i] + [vtables[i]];
      if vtables[i].objectOffset != 0 {
        layouts := AddLayouts(m, sections, primary, vtables[i], layouts);
      }
    }
    assert vtables[..|vtables|] == vtables;
  }

  // ----- The whole resolution -----

  /** The class name occurs once, and its type descriptor begins at `descriptor`. */
  ghost predicate Named(image: seq<bv8>, descriptor: U32) {
    ByteSearch.Occurrences(image, HID_THREAD_RTTI_NAME) == {descriptor + TYPE_DESCRIPTOR_NAME_OFFSET}
  }

  /** `v` is the class's only vtable at offset zero. */
  ghost predicate OnlyPrimary(m: Snapshot, descriptor: U32, v: Vtable) {
    var sections := SectionsOf(m.image);
    && v.objectOffset == 0 && IsVtable(m.moduleBase, m.image, sections, descriptor, v)
    && forall w: Vtable :: IsVtable(m.moduleBase, m.image, sections, descriptor, w) && w.objectOffset == 0 ==> w == v
  }

  /** Some secondary vtable and slot of the class yield the layout. */
  ghost predicate LayoutShown(m: Snapshot, descriptor: U32, primary: Vtable, l: Layout) {
    var sections := SectionsOf(m.image);
    exists v: Vtable, index: nat ::
      IsVtable(m.moduleBase, m.image, sections, descriptor, v) && SlotYields(m, sections, primary, v, index, l)
  }

  /** The image proves the layout `l`, and no other. */
  ghost predicate Proves(m: Snapshot, descriptor: U32, primary: Vtable, l: Layout) {
    && Supported(m.image) && Named(m.image, descriptor)
    && !AddressOverflows(m.moduleBase, m.image, descriptor)
    && OnlyPrimary(m, descriptor, primary)
    && LayoutShown(m, descriptor, primary, l)
    && forall other: Layout :: LayoutShown(m, descriptor, primary, other) ==> other == l
  }

  ghost predicate Resolves(m: Snapshot, l: Layout) {
    exists descriptor: U32, primary: Vtable :: Proves(m, descriptor, primary, l)
  }

  /** What an error says about the image. */
  ghost predicate Explains(m: Snapshot, e: ResolveError) {
    match e
    case InvalidPe(_) =>
      || !Supported(m.image)
      || (exists p: nat :: ByteSearch.Occurrences(m.image, HID_THREAD_RTTI_NAME) == {p} && !(16 <= p <= 16 + U32_MAX))
      || (exists d: U32 :: Named(m.image, d) && AddressOverflows(m.moduleBase, m.image, d))
    case RttiNameCount(n) =>
      Supported(m.image) && n == |ByteSearch.Occurrences(m.image, HID_THREAD_RTTI_NAME)| != 1
    case CompleteObjectLocatorNotFound =>
      Supported(m.image) && exists d: U32 :: Named(m.image, d) && forall l: Locator :: !IsLocator(m.image, d, l)
    case VtableNotUnique =>
      exists d: U32 :: Named(m.image, d) && Supported(m.image) && forall v: Vtable :: !OnlyPrimary(m, d, v)
    case SchedulerNotUnique(n) =>
      exists d: U32, v: Vtable, all: seq<Layout> ::
        && Named(m.image, d) && Supported(m.image) && OnlyPrimary(m, d, v) && Distinct(all) && n == |all| != 1
        && forall l: Layout :: l in all <==> LayoutShown(m, d, v, l)
  }

  /** The name determines the descriptor. */
  lemma NameIsUnique(image: seq<bv8>, d: U32, e: U32)
    requires Named(image, d) && Named(image, e)
    ensures d == e
  {
    assert d + TYPE_DESCRIPTOR_NAME_OFFSET in ByteSearch.Occurrences(image, HID_THREAD_RTTI_NAME);
  }

  method FindDescriptor(image: seq<bv8>) returns (r: Result<U32, ResolveError>)
    ensures forall d: U32 :: r == Ok(d) <==> Named(image, d)
    ensures r.Err? ==> match r.error
      case RttiNameCount(n) => n == |ByteSearch.Occurrences(image, HID_THREAD_RTTI_NAME)| != 1
      case InvalidPe(_) => exists p: nat ::
        ByteSearch.Occurrences(image, HID_THREAD_RTTI_NAME) == {p} && !(16 <= p <= 16 + U32_MAX)
      case _ => false
  {
    ghost var all := ByteSearch.Occurrences(image, HID_THREAD_RTTI_NAME);
    var name := ByteSearch.FindUnique(image, HID_THREAD_RTTI_NAME);
    if name.Err? {
      r := Err(RttiNameCount(name.error));
      assert forall d: U32 :: Named(image, d) ==> all == {d + 16};
    } else {
      assert name.value in all;
      if name.value < TYPE_DESCRIPTOR_NAME_OFFSET {
        r := Err(InvalidPe(TypeDescriptorUnderflow));
      } else if name.value - TYPE_DESCRIPTOR_NAME_OFFSET > U32_MAX {
        r := Err(InvalidPe(RttiRvaTooLarge));
      } else {
        r := Ok(name.value - TYPE_DESCRIPTOR_NAME_OFFSET);
      }
    }
  }

  /** What follows once the primary vtable is known. */
  method ResolveLayouts(m: Snapshot, sections: seq<Section>, descriptor: U32, vtables: seq<Vtable>, primary: Vtable)
      returns (r: Result<Layout, ResolveError>)
    requires Supported(m.image) && sections == SectionsOf(m.image)
    requires Named(m.image, descriptor) && !AddressOverflows(m.moduleBase, m.image, descriptor)
    requires forall v: Vtable :: v in vtables <==> IsVtable(m.moduleBase, m.image, sections, descriptor, v)
    requires OnlyPrimary(m, descriptor, primary)
    ensures forall l: Layout :: r == Ok(l) <==> Proves(m, descriptor, primary, l)
    ensures r.Err? ==> Explains(m, r.error)
  {
    hide LeValue, SlotYields, IsVtable, AddressOverflows, Supported, SectionsOf, OnlyPrimary;
    var layouts := FindSchedulerLayouts(m, sections, vtables, primary);
    assert forall l: Layout :: l in layouts <==> LayoutShown(m, descriptor, primary, l);
    var only := Single(layouts);
    if only.None? {
      return Err(SchedulerNotUnique(|layouts|));
    }
    r := Ok(only.value);
  }

  /** What follows once the descriptor is known. */
  method ResolveNamed(m: Snapshot, sections: seq<Section>, descriptor: U32) returns (r: Result<Layout, ResolveError>)
    requires Supported(m.image) && sections == SectionsOf(m.image) && Named(m.image, descriptor)
    ensures forall l: Layout :: r == Ok(l) <==> exists v: Vtable :: Proves(m, descriptor, v, l)
    ensures r.Err? ==> Explains(m, r.error)
  {
    hide LeValue, IsLocator, LayoutShown, Supported;
    var locators := FindCompleteObjectLocators(m.image, descriptor);
    if locators == [] {
      return Err(CompleteObjectLocatorNotFound);
    }
    var collected := CollectVtables(m.moduleBase, m.image, sections, descriptor, locators);
    if collected.Err? {
      return Err(InvalidPe(collected.error));
    }
    var vtables := collected.value;
    var primary := UniqueVtable(vtables, 0);
    assert forall v: Vtable :: primary == Some(v) <==> OnlyPrimary(m, descriptor, v);
    if primary.None? {
      return Err(VtableNotUnique);
    }
    r := ResolveLayouts(m, sections, descriptor, vtables, primary.value);
  }

  /** An image proves at most one layout. */
  lemma ResolutionIsUnique(m: Snapshot, a: Layout, b: Layout)
    ensures Resolves(m, a) && Resolves(m, b) ==> a == b
  {
    hide LeValue;
    if Resolves(m, a) && Resolves(m, b) {
      var d, v :| Proves(m, d, v, a);
      var e, w :| Proves(m, e, w, b);
      NameIsUnique(m.image, d, e);
      assert v == w;
    }
  }

  /** A vtable of the class sits at an offset that its locator states. */
  lemma VtableOffsetIsSmall(moduleBase: U64, image: seq<bv8>, sections: seq<Section>, descriptor: U32, v: Vtable)
    requires IsVtable(moduleBase, image, sections, descriptor, v)
    ensures v.objectOffset <= MAX_SECONDARY_OFFSET && v.rva + 8 <= |image|
  {
  }

  /** The word before a vtable's first entry settles its object offset. */
  lemma VtableOffsetIsUnique(moduleBase: U64, image: seq<bv8>, sections: seq<Section>, descriptor: U32,
                             v: Vtable, w: Vtable)
    requires v.rva == w.rva
    ensures IsVtable(moduleBase, image, sections, descriptor, v) && IsVtable(moduleBase, image, sections, descriptor, w)
        ==> v == w
  {
    hide LeValue;
  }

  /** Every section lies inside the declared image, hence inside the snapshot. */
  lemma SectionsAreInside(image: seq<bv8>, s: Section)
    ensures s in SectionsOf(image) ==> s.start < s.end <= |image|
  {
    hide LeValue;
    if TablePresent(image) {
      var h := HeaderOf(image).value;
      SectionsAreTheEntries(image, h.sectionTable, h.declaredSize, h.sectionCount, s);
    }
  }

  /** The worker is code inside the image, and every offset of the layout stays close to the object's start. */
  ghost predicate Bounded(m: Snapshot, l: Layout) {
    && Supported(m.image)
    && (exists s :: s in SectionsOf(m.image) && s.executable && s.start <= l.workerMethodRva < s.end <= |m.image|)
    && 1 <= l.secondaryObjectOffset <= MAX_SECONDARY_OFFSET
    && l.secondaryObjectOffset <= l.deadlineOffset <= l.secondaryObjectOffset + MAX_FIELD_OFFSET
    && l.secondaryObjectOffset <= l.counterOffset <= l.secondaryObjectOffset + MAX_FIELD_OFFSET
    && (l.deadlineOffset - l.secondaryObjectOffset) % 8 == 0
    && l.primaryVtableRva != l.secondaryVtableRva
  }

  /** A proven layout names code of an executable section inside the image, and its offsets stay in bounds. */
  lemma ProvenLayoutIsBounded(m: Snapshot, l: Layout)
    ensures Resolves(m, l) ==> Bounded(m, l)
  {
    hide LeValue, HeaderOf, IsVtable, MethodCode;
    if Resolves(m, l) {
      var d, primary :| Proves(m, d, primary, l);
      var sections := SectionsOf(m.image);
      var v: Vtable, index: nat :|
        IsVtable(m.moduleBase, m.image, sections, d, v) && SlotYields(m, sections, primary, v, index, l);
      VtableOffsetIsSmall(m.moduleBase, m.image, sections, d, v);
      if v.rva == primary.rva {
        VtableOffsetIsUnique(m.moduleBase, m.image, sections, d, v, primary);
      }
      var s :| s in sections && Contains(s, l.workerMethodRva);
      SectionsAreInside(m.image, s);
    }
  }

  // ----- The locator that ends the image -----

  /** A vtable of the class, whether or not the search sees its locator. */
  ghost predicate AnyVtable(moduleBase: U64, image: seq<bv8>, sections: seq<Section>, descriptor: U32, v: Vtable) {
    exists l: Locator :: AnyLocator(image, descriptor, l) && VtableOf(moduleBase, image, sections, l, v)
  }

  /** A vtable that the search misses with its locator. */
  ghost predicate EndVtable(moduleBase: U64, image: seq<bv8>, sections: seq<Section>, descriptor: U32, v: Vtable) {
    exists l: Locator :: EndLocator(image, descriptor, l) && VtableOf(moduleBase, image, sections, l, v)
  }

  /** The image proves `l` and no other layout when no locator of the class is skipped. */
  ghost predicate ProvesOverAll(m: Snapshot, descriptor: U32, primary: Vtable, l: Layout) {
    var sections := SectionsOf(m.image);
    && Supported(m.image) && Named(m.image, descriptor)
    && (forall e: Locator :: AnyLocator(m.image, descriptor, e) ==> m.moduleBase + e.rva <= U64_MAX)
    && AnyVtable(m.moduleBase, m.image, sections, descriptor, primary) && primary.objectOffset == 0
    && (forall v: Vtable :: AnyVtable(m.moduleBase, m.image, sections, descriptor, v) && v.objectOffset == 0 ==>
          v == primary)
    && (exists v: Vtable, index: nat ::
          AnyVtable(m.moduleBase, m.image, sections, descriptor, v) && SlotYields(m, sections, primary, v, index, l))
    && (forall v: Vtable, index: nat, other: Layout ::
          AnyVtable(m.moduleBase, m.image, sections, descriptor, v) && SlotYields(m, sections, primary, v, index, other)
          ==> other == l)
  }

  /** The end locator adds nothing: its address fits, its vtables are no second primary and yield no other layout. */
  ghost predicate EndIsHarmless(m: Snapshot, descriptor: U32, primary: Vtable, l: Layout) {
    var sections := SectionsOf(m.image);
    && (forall e: Locator :: EndLocator(m.image, descriptor, e) ==> m.moduleBase + e.rva <= U64_MAX)
    && forall v: Vtable :: EndVtable(m.moduleBase, m.image, sections, descriptor, v) ==>
         && (v.objectOffset == 0 ==> v == primary)
         && forall index: nat, other: Layout :: SlotYields(m, sections, primary, v, index, other) ==> other == l
  }

  /** The class has no locator that ends the image. */
  ghost predicate EndsInNoLocator(image: seq<bv8>) {
    forall descriptor: U32, l: Locator :: Named(image, descriptor) ==> !EndLocator(image, descriptor, l)
  }

  lemma AnyIsSeenOrEnd(moduleBase: U64, image: seq<bv8>, sections: seq<Section>, descriptor: U32, v: Vtable)
    ensures AnyVtable(moduleBase, image, sections, descriptor, v)
       <==> IsVtable(moduleBase, image, sections, descriptor, v)
            || EndVtable(moduleBase, image, sections, descriptor, v)
  {
    hide LeValue, StartsWithCode, AnyLocator;
    if AnyVtable(moduleBase, image, sections, descriptor, v) {
      var l: Locator :| AnyLocator(image, descriptor, l) && VtableOf(moduleBase, image, sections, l, v);
      LocatorFits(image, descriptor, l);
      assert IsLocator(image, descriptor, l) || EndLocator(image, descriptor, l);
    }
  }

  lemma LocatorFits(image: seq<bv8>, descriptor: U32, l: Locator)
    requires AnyLocator(image, descriptor, l)
    ensures IsLocator(image, descriptor, l) || EndLocator(image, descriptor, l)
  {
  }

  /**
   Exactly when an accepted layout is also proven with no locator skipped: if and only if the locator that ends the
   image contributes nothing new.
   */
  lemma SkippedLocatorExactly(m: Snapshot, descriptor: U32, primary: Vtable, l: Layout)
    ensures Proves(m, descriptor, primary, l) ==>
              (ProvesOverAll(m, descriptor, primary, l) <==> EndIsHarmless(m, descriptor, primary, l))
  {
    hide LeValue, AnyLocator, IsVtable, EndVtable, AnyVtable, SlotYields, Supported, Named;
    var sections := SectionsOf(m.image);
    forall v: Vtable
      ensures AnyVtable(m.moduleBase, m.image, sections, descriptor, v)
         <==> IsVtable(m.moduleBase, m.image, sections, descriptor, v)
              || EndVtable(m.moduleBase, m.image, sections, descriptor, v)
    {
      AnyIsSeenOrEnd(m.moduleBase, m.image, sections, descriptor, v);
    }
    forall e: Locator | AnyLocator(m.image, descriptor, e)
      ensures IsLocator(m.image, descriptor, e) || EndLocator(m.image, descriptor, e)
    {
      LocatorFits(m.image, descriptor, e);
    }
    assert ProvesOverAll(m, descriptor, primary, l) ==> EndIsHarmless(m, descriptor, primary, l);
    if Proves(m, descriptor, primary, l) && EndIsHarmless(m, descriptor, primary, l) {
      forall e: Locator | AnyLocator(m.image, descriptor, e)
        ensures m.moduleBase + e.rva <= U64_MAX
      {
        assert !IsLocator(m.image, descriptor, e) ==> EndLocator(m.image, descriptor, e);
      }
      forall v: Vtable, index: nat, other: Layout |
        AnyVtable(m.moduleBase, m.image, sections, descriptor, v) && SlotYields(m, sections, primary, v, index, other)
        ensures other == l
      {
        assert IsVtable(m.moduleBase, m.image, sections, descriptor, v) ==>
            LayoutShown(m, descriptor, primary, other);
      }
    }
  }

  /** If the image does not end in a locator of the class, an accepted layout is proven with no locator skipped. */
  lemma NothingIsSkipped(m: Snapshot, descriptor: U32, primary: Vtable, l: Layout)
    ensures Proves(m, descriptor, primary, l) && EndsInNoLocator(m.image) ==> ProvesOverAll(m, descriptor, primary, l)
  {
    hide LeValue, AnyLocator, IsVtable, AnyVtable, SlotYields, Supported, Named, ProvesOverAll;
    SkippedLocatorExactly(m, descriptor, primary, l);
  }

  /** The layout is proven with no locator skipped. */
  ghost predicate ResolvesOverAll(m: Snapshot, l: Layout) {
    exists descriptor: U32, primary: Vtable :: ProvesOverAll(m, descriptor, primary, l)
  }

  lemma SeenIsAll(m: Snapshot, l: Layout)
    ensures Resolves(m, l) && EndsInNoLocator(m.image) ==> ResolvesOverAll(m, l)
  {
    hide LeValue, Proves, ProvesOverAll, EndsInNoLocator;
    if Resolves(m, l) && EndsInNoLocator(m.image) {
      var d, primary :| Proves(m, d, primary, l);
      NothingIsSkipped(m, d, primary, l);
    }
  }

  /** Resolution succeeds exactly when the image proves one layout, and an error says what was not proven. */
  method ResolveRecoveryLayout(m: Snapshot) returns (r: Result<Layout, ResolveError>)
    ensures forall l: Layout :: r == Ok(l) <==> Resolves(m, l)
    ensures r.Ok? ==> Bounded(m, r.value)
    ensures r.Ok? && EndsInNoLocator(m.image) ==> ResolvesOverAll(m, r.value)
    ensures r.Err? ==> Explains(m, r.error)
  {
    hide LeValue;
    var sections := ParsePeSections(m.image);
    if sections.Err? {
      return Err(InvalidPe(sections.error));
    }
    var descriptor := FindDescriptor(m.image);
    if descriptor.Err? {
      return Err(descriptor.error);
    }
    r := ResolveNamed(m, sections.value, descriptor.value);
    forall d: U32, v: Vtable, l: Layout | Proves(m, d, v, l)
      ensures d == descriptor.value
    {
      NameIsUnique(m.image, d, descriptor.value);
    }
    if r.Ok? {
      ProvenLayoutIsBounded(m, r.value);
      SeenIsAll(m, r.value);
    }
  }
}
