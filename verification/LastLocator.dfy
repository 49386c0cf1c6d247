/**
 A small PE32+ image whose last bytes are a complete object locator of the class. Resolution skips that locator and
 accepts a layout, though the skipped locator's vtable yields a different one.
 */
module LastLocator {
  import opened Common
  import ByteSearch
  import opened Resolver

  const SIZE: nat := 0x1e0
  const NAME_AT: nat := 0x100
  const DESCRIPTOR: U32 := 0xf0

  const PRIMARY_LOCATOR := Locator(0x128, 0)
  const SECONDARY_LOCATOR := Locator(0x148, 8)
  const LAST_LOCATOR := Locator(0x1c8, 0x10)

  const PRIMARY_VTABLE := Vtable(0, 0x168)
  const SECONDARY_VTABLE := Vtable(8, 0x178)
  const LAST_VTABLE := Vtable(0x10, 0x1c0)

  const CODE := Section(0x80, 0x100, true)
  const WORKER: U32 := 0x80
  const LAST_WORKER: U32 := 0x88

  const ACCEPTED := Layout(0x168, 0x178, 8, WORKER, 8, 0x10)
  const MISSED := Layout(0x168, 0x1c0, 0x10, LAST_WORKER, 0x10, 0x20)

  /** The bytes outside the class name that are not zero. */
  function Header(i: nat): bv8 {
    match i
    // "MZ", the offset of the NT header, and "PE".
    case 0x00 => 0x4d case 0x01 => 0x5a case 0x3c => 0x40 case 0x40 => 0x50 case 0x41 => 0x45
    // One section, no optional header of its own, PE32+, and SizeOfImage.
    case 0x46 => 0x01 case 0x58 => 0x0b case 0x59 => 0x02 case 0x91 => 0x01
    // The section: size, start, executable.
    case 0x60 => 0x80 case 0x64 => 0x80 case 0x7f => 0x20
    case _ => 0
  }

  function Body(i: nat): bv8 {
    match i
    // The locators that the search sees.
    case 0x128 => 0x01 case 0x134 => 0xf0 case 0x13c => 0x28 case 0x13d => 0x01
    case 0x148 => 0x01 case 0x14c => 0x08 case 0x154 => 0xf0 case 0x15c => 0x48 case 0x15d => 0x01
    // Their vtables, each behind a pointer to its locator.
    case 0x160 => 0x28 case 0x161 => 0x01 case 0x168 => 0x80
    case 0x170 => 0x48 case 0x171 => 0x01 case 0x178 => 0x80
    // The vtable of the last locator, and that locator.
    case 0x1b8 => 0xc8 case 0x1b9 => 0x01 case 0x1c0 => 0x88
    case 0x1c8 => 0x01 case 0x1cc => 0x10 case 0x1d4 => 0xf0 case 0x1dc => 0xc8 case 0x1dd => 0x01
    case _ => 0
  }

  function ByteAt(i: nat): bv8 {
    if i < NAME_AT then Header(i)
    else if i < NAME_AT + 36 then HID_THREAD_RTTI_NAME[i - NAME_AT]
    else Body(i)
  }

  function Image(): (r: seq<bv8>)
    ensures |r| == SIZE && forall i :: 0 <= i < SIZE ==> r[i] == ByteAt(i)
  {
    seq(SIZE, i requires 0 <= i => ByteAt(i))
  }

  /** Loads a deadline, bumps the counter at `counter` and stores the deadline, all off one base register. */
  function Code(counter: U64): seq<Instruction> {
    [ Instruction(Movsd, 2, RegisterOperand, MemoryOperand, 0, 1, 0, 0, false),
      Instruction(Inc, 1, MemoryOperand, OtherOperand, 0, 1, 0, counter, false),
      Instruction(Movsd, 2, MemoryOperand, RegisterOperand, 0, 1, 0, 0, false) ]
  }

  function Decode(bytes: seq<bv8>, ip: U64): seq<Instruction> {
    if ip == WORKER then Code(8) else Code(0x10)
  }

  function Loaded(): Snapshot {
    Snapshot(0, Image(), Decode)
  }

  // ----- Words of the image -----

  function Word(o: nat): nat {
    ByteAt(o) as nat + 0x100 * (ByteAt(o + 1) as nat)
      + 0x1_0000 * (ByteAt(o + 2) as nat) + 0x100_0000 * (ByteAt(o + 3) as nat)
  }

  lemma At32(o: nat)
    requires o + 4 <= SIZE
    ensures ReadU32(Image(), o) == Some(Word(o))
  {
    hide ByteAt, LeValue;
    Word32(Image(), o);
  }

  lemma At64(o: nat)
    requires o + 8 <= SIZE
    ensures ReadU64(Image(), o) == Some(Word(o) + 0x1_0000_0000 * Word(o + 4))
  {
    hide ByteAt, LeValue, Word;
    At32(o);
    At32(o + 4);
    Word64(Image(), o);
  }

  lemma At16(o: nat)
    requires o + 2 <= SIZE
    ensures ReadU16(Image(), o) == Some(ByteAt(o) as nat + 0x100 * (ByteAt(o + 1) as nat))
  {
    hide ByteAt;
    var b := Image()[o..o + 2];
    assert LeValue(b[1..]) == b[1] as nat by {
      assert b[1..][1..] == [];
    }
  }

  lemma LowByte(o: nat)
    ensures Word(o) % 0x100 == ByteAt(o) as nat
  {
    hide ByteAt;
    var low := ByteAt(o) as nat;
    var rest := ByteAt(o + 1) as nat + 0x100 * (ByteAt(o + 2) as nat) + 0x1_0000 * (ByteAt(o + 3) as nat);
    assert Word(o) == low + 0x100 * rest;
    Remainder(low, rest);
  }

  lemma Remainder(low: nat, rest: nat)
    requires low < 0x100
    ensures (low + 0x100 * rest) % 0x100 == low
  {
  }

  // ----- The class name -----

  /** Only its first byte is a full stop. */
  lemma NameStarts(k: nat)
    requires k < 36
    ensures |HID_THREAD_RTTI_NAME| == 36
    ensures HID_THREAD_RTTI_NAME[k] == 0x2e <==> k == 0
  {
  }

  /** No byte is 1, and where it is 8-aligned, it holds no low byte of a locator's address. */
  lemma NameBytes(k: nat)
    requires k < 36
    ensures |HID_THREAD_RTTI_NAME| == 36
    ensures HID_THREAD_RTTI_NAME[k] != 1
    ensures k % 8 == 0 ==> HID_THREAD_RTTI_NAME[k] !in {0x28, 0x48}
  {
  }

  /** The class is named once. */
  lemma NamedOnce()
    ensures Named(Image(), DESCRIPTOR)
  {
    hide Image, HID_THREAD_RTTI_NAME;
    var image := Image();
    NameStarts(0);
    assert image[NAME_AT..NAME_AT + 36] == HID_THREAD_RTTI_NAME;
    forall p: nat | p <= SIZE && ByteSearch.OccursAt(image, HID_THREAD_RTTI_NAME, p)
      ensures p == NAME_AT
    {
      assert image[p..p + 36][0] == ByteAt(p);
      if NAME_AT <= p < NAME_AT + 36 {
        NameStarts(p - NAME_AT);
      }
    }
  }

  // ----- Locators -----

  /** An aligned byte 1 begins one of three locators. */
  lemma AlignedOne(i: nat)
    requires i < SIZE && i % 4 == 0 && ByteAt(i) == 1
    ensures i in {0x128, 0x148, 0x1c8}
  {
    hide HID_THREAD_RTTI_NAME;
    if NAME_AT <= i < NAME_AT + 36 {
      NameBytes(i - NAME_AT);
    }
  }

  lemma LocatorWords(l: Locator)
    requires l in {PRIMARY_LOCATOR, SECONDARY_LOCATOR, LAST_LOCATOR}
    ensures Word(l.rva) == 1 && Word(l.rva + 4) == l.objectOffset && Word(l.rva + 8) == 0
    ensures Word(l.rva + 12) == DESCRIPTOR && Word(l.rva + 16) == 0 && Word(l.rva + 20) == l.rva
  {
    hide HID_THREAD_RTTI_NAME, Header;
  }

  lemma LocatorFields(l: Locator)
    requires l in {PRIMARY_LOCATOR, SECONDARY_LOCATOR, LAST_LOCATOR}
    ensures AnyLocator(Image(), DESCRIPTOR, l)
  {
    hide Image, LeValue, Word;
    LocatorWords(l);
    At32(l.rva);
    At32(l.rva + 4);
    At32(l.rva + 8);
    At32(l.rva + 12);
    At32(l.rva + 16);
    At32(l.rva + 20);
  }

  lemma LocatorsAre(l: Locator)
    ensures AnyLocator(Image(), DESCRIPTOR, l) <==> l in {PRIMARY_LOCATOR, SECONDARY_LOCATOR, LAST_LOCATOR}
  {
    hide Image, LeValue, HID_THREAD_RTTI_NAME;
    if AnyLocator(Image(), DESCRIPTOR, l) {
      At32(l.rva);
      LowByte(l.rva);
      AlignedOne(l.rva);
      At32(l.rva + 4);
    }
    if l in {PRIMARY_LOCATOR, SECONDARY_LOCATOR, LAST_LOCATOR} {
      LocatorFields(l);
    }
  }

  // ----- Sections -----

  lemma HeaderIs()
    ensures HeaderOf(Image()) == Some(Resolver.Header.Header(1, 0x100, 0x58))
  {
    hide Image, LeValue, HID_THREAD_RTTI_NAME, Body;
    At16(0);
    At32(0x3c);
    At32(0x40);
    At16(0x46);
    At16(0x54);
    At16(0x58);
    At32(0x90);
  }

  lemma SectionWords(o: nat)
    requires o in {0x60, 0x64, 0x68, 0x7c}
    ensures Word(o) == if o == 0x7c then 0x2000_0000 else if o == 0x68 then 0 else 0x80
  {
    hide HID_THREAD_RTTI_NAME, Body;
  }

  lemma SectionIs()
    ensures SectionAt(Image(), 0x58, 0x100, 0) == Some(CODE)
  {
    hide Image, LeValue, Word;
    SectionWords(0x60);
    SectionWords(0x64);
    SectionWords(0x68);
    SectionWords(0x7c);
    At32(0x60);
    At32(0x64);
    At32(0x68);
    At32(0x7c);
  }

  lemma SectionsAre()
    ensures Supported(Image()) && SectionsOf(Image()) == [CODE]
  {
    hide Image, LeValue, SectionAt, HeaderOf, ByteAt;
    HeaderIs();
    SectionIs();
    assert SectionsBelow(Image(), 0x58, 0x100, 0) == [];
    assert SectionsBelow(Image(), 0x58, 0x100, 1) == [CODE];
    assert CODE in SectionsOf(Image());
  }

  // ----- Vtables -----

  /** An 8-aligned low byte of a locator's address begins the word before one of two vtables. */
  lemma AlignedAddress(i: nat)
    requires i < SIZE && i % 8 == 0 && ByteAt(i) in {0x28, 0x48}
    ensures i in {0x160, 0x170}
  {
    hide HID_THREAD_RTTI_NAME;
    if NAME_AT <= i < NAME_AT + 36 {
      NameBytes(i - NAME_AT);
    }
  }

  /** What the aligned words before and at the start of the vtables hold. */
  function Pointer(o: nat): U32 {
    match o
    case 0x160 => PRIMARY_LOCATOR.rva
    case 0x170 => SECONDARY_LOCATOR.rva
    case 0x1b8 => LAST_LOCATOR.rva
    case 0x1c0 => LAST_WORKER
    case _ => WORKER
  }

  lemma PointerIs(o: nat)
    requires o in {0x160, 0x168, 0x170, 0x178, 0x1b8, 0x1c0}
    ensures ReadU64(Image(), o) == Some(Pointer(o))
  {
    PointerWords(o);
    hide Image, LeValue, Word;
    At64(o);
  }

  lemma PointerWords(o: nat)
    requires o in {0x160, 0x168, 0x170, 0x178, 0x1b8, 0x1c0}
    ensures Word(o) == Pointer(o) && Word(o + 4) == 0
  {
    hide HID_THREAD_RTTI_NAME, Header;
  }

  /** The words that matter for vtables. */
  lemma VtableWords()
    ensures ReadU64(Image(), 0x160) == Some(0x128) && ReadU64(Image(), 0x168) == Some(WORKER)
    ensures ReadU64(Image(), 0x170) == Some(0x148) && ReadU64(Image(), 0x178) == Some(WORKER)
    ensures ReadU64(Image(), 0x1b8) == Some(0x1c8) && ReadU64(Image(), 0x1c0) == Some(LAST_WORKER)
  {
    hide Image, ReadU64;
    PointerIs(0x160);
    PointerIs(0x168);
    PointerIs(0x170);
    PointerIs(0x178);
    PointerIs(0x1b8);
    PointerIs(0x1c0);
  }

  lemma LowByteOfAddress(o: nat, address: U32)
    requires ReadU64(Image(), o) == Some(address) && address in {0x128, 0x148}
    ensures o + 8 <= SIZE && ByteAt(o) in {0x28, 0x48}
  {
    hide Image, LeValue, ByteAt, Word;
    At64(o);
    LowByte(o);
    assert Word(o) == address by {
      hide *;
      assert Word(o) + 0x1_0000_0000 * Word(o + 4) == address;
    }
    assert ByteAt(o) as nat in {0x28, 0x48};
  }

  lemma VtableOfIs(l: Locator, v: Vtable)
    requires l in {PRIMARY_LOCATOR, SECONDARY_LOCATOR} && VtableOf(0, Image(), [CODE], l, v)
    ensures v == if l == PRIMARY_LOCATOR then PRIMARY_VTABLE else SECONDARY_VTABLE
  {
    hide Image, LeValue, ByteAt, StartsWithCode;
    var o: nat := v.rva - 8;
    LowByteOfAddress(o, l.rva);
    AlignedAddress(o);
    VtableWords();
  }

  lemma VtablesHold()
    ensures VtableOf(0, Image(), [CODE], PRIMARY_LOCATOR, PRIMARY_VTABLE)
    ensures VtableOf(0, Image(), [CODE], SECONDARY_LOCATOR, SECONDARY_VTABLE)
    ensures VtableOf(0, Image(), [CODE], LAST_LOCATOR, LAST_VTABLE)
  {
    hide Image, LeValue, ByteAt;
    VtableWords();
    assert PointsTo(0, Image(), PRIMARY_VTABLE.rva, WORKER) && PointsTo(0, Image(), SECONDARY_VTABLE.rva, WORKER);
    assert PointsTo(0, Image(), LAST_VTABLE.rva, LAST_WORKER);
    assert CODE in [CODE];
  }

  lemma VtablesAre(v: Vtable)
    ensures IsVtable(0, Image(), [CODE], DESCRIPTOR, v) <==> v in {PRIMARY_VTABLE, SECONDARY_VTABLE}
  {
    hide Image, LeValue, ByteAt, AnyLocator, StartsWithCode;
    VtablesHold();
    LocatorsAre(PRIMARY_LOCATOR);
    LocatorsAre(SECONDARY_LOCATOR);
    if IsVtable(0, Image(), [CODE], DESCRIPTOR, v) {
      var l: Locator :| IsLocator(Image(), DESCRIPTOR, l) && VtableOf(0, Image(), [CODE], l, v);
      LocatorsAre(l);
      VtableOfIs(l, v);
    }
  }

  // ----- Methods -----

  /** The only fields that the code schedules. */
  lemma CodeSchedules(counter: U32, f: Fields)
    requires counter <= MAX_FIELD_OFFSET
    ensures OnlyFields(Code(counter), Fields(0, counter))
    ensures OnlyFields(Code(counter), f) ==> f == Fields(0, counter)
  {
    var code := Code(counter);
    assert Loads(code[0], Place(1, 0));
    assert SchedulesAt(code, 1, 2, Fields(0, counter));
    assert forall i: nat, j: nat, g: Fields :: SchedulesAt(code, i, j, g) ==> i == 1 && j == 2;
  }

  lemma CodeHasNoReturn(counter: U64)
    ensures UpToReturn(Code(counter)) == Code(counter)
  {
    UpToReturnIsFirst(Code(counter), 3);
  }

  lemma WorkerSchedules(rva: U32, f: Fields)
    requires rva in {WORKER, LAST_WORKER}
    ensures MethodSchedules(Loaded(), [CODE], rva, f) <==> f == Fields(0, if rva == WORKER then 8 else 0x10)
  {
    hide Image, UpToReturn, OnlyFields, Code;
    var counter: U32 := if rva == WORKER then 8 else 0x10;
    CodeHasNoReturn(counter);
    CodeSchedules(counter, f);
    assert MethodCode(Loaded(), [CODE], rva) == Some(Code(counter));
  }

  // ----- The two layouts -----

  /** No further slot of the secondary vtable holds code. */
  lemma OtherSlots(index: nat)
    requires 0 < index < MAX_VTABLE_METHODS
    ensures ReadU64(Image(), SECONDARY_VTABLE.rva + index * 8) == Some(0)
  {
    var o := SECONDARY_VTABLE.rva + index * 8;
    ZeroWords(o);
    hide Image, LeValue, Word;
    At64(o);
  }

  lemma ZeroWords(o: nat)
    requires 0x180 <= o <= 0x1b0 && o % 8 == 0
    ensures Word(o) == 0 && Word(o + 4) == 0
  {
    hide HID_THREAD_RTTI_NAME, Header;
  }

  lemma AcceptedIsYielded()
    ensures SlotYields(Loaded(), [CODE], PRIMARY_VTABLE, SECONDARY_VTABLE, 0, ACCEPTED)
  {
    hide Image, ReadU64, MethodSchedules;
    VtableWords();
    WorkerSchedules(WORKER, Fields(0, 8));
    assert CODE in [CODE] && Contains(CODE, WORKER);
  }

  lemma MissedIsYielded()
    ensures SlotYields(Loaded(), [CODE], PRIMARY_VTABLE, LAST_VTABLE, 0, MISSED)
  {
    hide Image, ReadU64, MethodSchedules;
    VtableWords();
    WorkerSchedules(LAST_WORKER, Fields(0, 0x10));
    assert CODE in [CODE] && Contains(CODE, LAST_WORKER);
  }

  lemma OnlyAccepted(v: Vtable, index: nat, l: Layout)
    requires v in {PRIMARY_VTABLE, SECONDARY_VTABLE} && SlotYields(Loaded(), [CODE], PRIMARY_VTABLE, v, index, l)
    ensures l == ACCEPTED
  {
    hide Image, ReadU64, MethodSchedules;
    VtableWords();
    if index > 0 {
      OtherSlots(index);
    }
    WorkerSchedules(WORKER, Fields(l.deadlineOffset - v.objectOffset, l.counterOffset - v.objectOffset));
  }

  lemma PrimaryIsUnique()
    ensures OnlyPrimary(Loaded(), DESCRIPTOR, PRIMARY_VTABLE)
  {
    hide Image, IsVtable, SectionsOf;
    SectionsAre();
    forall v: Vtable
      ensures IsVtable(0, Image(), [CODE], DESCRIPTOR, v) <==> v in {PRIMARY_VTABLE, SECONDARY_VTABLE}
    {
      VtablesAre(v);
    }
  }

  lemma LayoutsAre(l: Layout)
    ensures LayoutShown(Loaded(), DESCRIPTOR, PRIMARY_VTABLE, l) <==> l == ACCEPTED
  {
    hide Image, IsVtable, SlotYields, SectionsOf;
    SectionsAre();
    AcceptedIsYielded();
    VtablesAre(SECONDARY_VTABLE);
    if LayoutShown(Loaded(), DESCRIPTOR, PRIMARY_VTABLE, l) {
      var v: Vtable, index: nat :|
        IsVtable(0, Image(), [CODE], DESCRIPTOR, v) && SlotYields(Loaded(), [CODE], PRIMARY_VTABLE, v, index, l);
      VtablesAre(v);
      OnlyAccepted(v, index, l);
    }
  }

  lemma Assemble(m: Snapshot, descriptor: U32, primary: Vtable, l: Layout)
    requires Supported(m.image) && Named(m.image, descriptor) && m.moduleBase == 0
    requires OnlyPrimary(m, descriptor, primary)
    requires forall other: Layout :: LayoutShown(m, descriptor, primary, other) <==> other == l
    ensures Proves(m, descriptor, primary, l)
  {
    hide Supported, Named, OnlyPrimary, LayoutShown, IsLocator;
  }

  /** Resolution accepts the layout of the secondary vtable. */
  lemma AcceptedIsProven()
    ensures Proves(Loaded(), DESCRIPTOR, PRIMARY_VTABLE, ACCEPTED)
  {
    hide Image, OnlyPrimary, LayoutShown, Supported, Named, Proves;
    SectionsAre();
    NamedOnce();
    PrimaryIsUnique();
    forall l: Layout
      ensures LayoutShown(Loaded(), DESCRIPTOR, PRIMARY_VTABLE, l) <==> l == ACCEPTED
    {
      LayoutsAre(l);
    }
    Assemble(Loaded(), DESCRIPTOR, PRIMARY_VTABLE, ACCEPTED);
  }

  lemma AllVtables()
    ensures AnyVtable(0, Image(), [CODE], DESCRIPTOR, PRIMARY_VTABLE)
    ensures AnyVtable(0, Image(), [CODE], DESCRIPTOR, SECONDARY_VTABLE)
    ensures AnyVtable(0, Image(), [CODE], DESCRIPTOR, LAST_VTABLE)
  {
    hide Image, AnyLocator, VtableOf;
    VtablesHold();
    LocatorsAre(PRIMARY_LOCATOR);
    LocatorsAre(SECONDARY_LOCATOR);
    LocatorsAre(LAST_LOCATOR);
  }

  /**
   The skipped locator matters: resolution accepts a layout of this image, though with no locator skipped it would
   prove none, as the last vtable yields another.
   */
  lemma SkippingCanAccept(l: Layout)
    ensures Resolves(Loaded(), ACCEPTED) && !ResolvesOverAll(Loaded(), l)
  {
    hide Image, Proves, AnyVtable, SlotYields, AnyLocator, Supported, Named;
    AcceptedIsProven();
    if ResolvesOverAll(Loaded(), l) {
      var d: U32, primary: Vtable :| ProvesOverAll(Loaded(), d, primary, l);
      NamedOnce();
      NameIsUnique(Image(), d, DESCRIPTOR);
      SectionsAre();
      AllVtables();
      assert primary == PRIMARY_VTABLE;
      AcceptedIsYielded();
      MissedIsYielded();
      assert false;
    }
  }
}
