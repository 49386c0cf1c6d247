/** The environment block of a leased child: the caller's block without the SDL controller exclusion. */
module Environment {
  import opened Common

  const EQUALS: Unit := 0x3d

  /** `SDL_GAMECONTROLLER_IGNORE_DEVICES`. */
  const EXCLUSION: seq<Unit> := [
    0x53, 0x44, 0x4c, 0x5f, 0x47, 0x41, 0x4d, 0x45, 0x43, 0x4f, 0x4e, 0x54, 0x52, 0x4f, 0x4c, 0x4c, 0x45, 0x52, 0x5f,
    0x49, 0x47, 0x4e, 0x4f, 0x52, 0x45, 0x5f, 0x44, 0x45, 0x56, 0x49, 0x43, 0x45, 0x53
  ]

  /** ASCII lower case; every other unit is itself. */
  function Lower(unit: Unit): Unit {
    if 0x41 <= unit <= 0x5a then unit + 0x20 else unit
  }

  predicate EqualIgnoringAsciiCase(a: seq<Unit>, b: seq<Unit>) {
    |a| == |b| && forall i :: 0 <= i < |a| ==> Lower(a[i]) == Lower(b[i])
  }

  /** The first position of `unit`, or the length. */
  function Find(s: seq<Unit>, unit: Unit): (n: nat)
    ensures n <= |s| && (n < |s| ==> s[n] == unit) && forall i :: 0 <= i < n ==> s[i] != unit
  {
    if s == [] || s[0] == unit then 0 else 1 + Find(s[1..], unit)
  }

  /** A variable whose name, up to its first `=`, is `name` in any ASCII case. */
  predicate Named(entry: seq<Unit>, name: seq<Unit>) {
    EqualIgnoringAsciiCase(entry[..Find(entry, EQUALS)], name)
  }

  /** The unit is the letter, in upper or lower case; other characters only match themselves. */
  predicate Spells(unit: Unit, letter: char) {
    || unit == letter as int
    || ('A' <= letter <= 'Z' && unit == letter as int + 0x20)
  }

  const EXCLUDED_NAME := "SDL_GAMECONTROLLER_IGNORE_DEVICES"

  /** The part before the entry's first `=`, or all of it, spells the excluded name. */
  ghost predicate IsExclusion(entry: seq<Unit>) {
    exists n :: n == |EXCLUDED_NAME| <= |entry| && EQUALS !in entry[..n]
                && (n == |entry| || entry[n] == EQUALS)
                && forall i :: 0 <= i < n ==> Spells(entry[i], EXCLUDED_NAME[i])
  }

  lemma ExclusionIsSpelled(i: nat, unit: Unit)
    requires i < 33
    ensures |EXCLUSION| == |EXCLUDED_NAME| == 33
    ensures Lower(unit) == Lower(EXCLUSION[i]) <==> Spells(unit, EXCLUDED_NAME[i])
  {
    SameCharacter(i);
    hide EXCLUSION, EXCLUDED_NAME;
  }

  lemma SameCharacter(i: nat)
    requires i < 33
    ensures |EXCLUSION| == |EXCLUDED_NAME| == 33
    ensures EXCLUSION[i] == EXCLUDED_NAME[i] as int && !('a' <= EXCLUDED_NAME[i] <= 'z') && EXCLUDED_NAME[i] != '='
  {
  }

  /** Exactly the entries whose name is the excluded one, in any ASCII case, are named so; a longer name is not. */
  lemma NamedIsExclusion(entry: seq<Unit>)
    ensures Named(entry, EXCLUSION) <==> IsExclusion(entry)
  {
    hide EXCLUSION, EXCLUDED_NAME;
    var n := Find(entry, EQUALS);
    ExclusionIsSpelled(0, 0);
    forall i: nat | i < 33
      ensures |entry| > i ==> (Lower(entry[i]) == Lower(EXCLUSION[i]) <==> Spells(entry[i], EXCLUDED_NAME[i]))
    {
      if i < |entry| {
        ExclusionIsSpelled(i, entry[i]);
        SameCharacter(i);
      }
    }
    if IsExclusion(entry) {
      assert forall i :: 0 <= i < 33 ==> entry[i] == entry[..33][i];
      assert n == 33;
    }
  }

  /** How a process reads a block: entries end at a NUL, and the first empty entry ends the block. */
  function Entries(block: seq<Unit>): seq<seq<Unit>>
    decreases |block|
  {
    var n := Find(block, 0);
    if n == 0 then [] else [block[..n]] + (if n == |block| then [] else Entries(block[n + 1..]))
  }

  /** The entries that are not named `name`. */
  function Without(entries: seq<seq<Unit>>, name: seq<Unit>): seq<seq<Unit>> {
    if entries == [] then []
    else (if Named(entries[0], name) then [] else [entries[0]]) + Without(entries[1..], name)
  }

  /** Entries, each with its NUL. */
  function Terminated(entries: seq<seq<Unit>>): seq<Unit> {
    if entries == [] then [] else entries[0] + [0] + Terminated(entries[1..])
  }

  /** A double NUL at `i`. */
  predicate DoubleNul(block: seq<Unit>, i: nat) {
    i + 1 < |block| && block[i] == 0 && block[i + 1] == 0
  }

  /** The block's only double NUL is its end. */
  ghost predicate EndsAtOnlyDoubleNul(block: seq<Unit>) {
    |block| >= 2 && forall i :: DoubleNul(block, i) <==> i == |block| - 2
  }

  /** Entries that a block can hold: not empty, and without a NUL. */
  ghost predicate Storable(entries: seq<seq<Unit>>) {
    forall i :: 0 <= i < |entries| ==> entries[i] != [] && 0 !in entries[i]
  }

  lemma {:induction false} EntriesAreStorable(block: seq<Unit>)
    ensures Storable(Entries(block))
    decreases |block|
  {
    var n := Find(block, 0);
    if 0 < n < |block| {
      EntriesAreStorable(block[n + 1..]);
    }
  }

  lemma {:induction false} WithoutIsStorable(entries: seq<seq<Unit>>, name: seq<Unit>)
    requires Storable(entries)
    ensures Storable(Without(entries, name))
    ensures forall i :: 0 <= i < |Without(entries, name)| ==> !Named(Without(entries, name)[i], name)
  {
    if entries != [] {
      WithoutIsStorable(entries[1..], name);
    }
  }

  lemma {:induction false} RemovingTwiceIsRemovingOnce(entries: seq<seq<Unit>>, name: seq<Unit>)
    ensures Without(Without(entries, name), name) == Without(entries, name)
  {
    if entries != [] {
      RemovingTwiceIsRemovingOnce(entries[1..], name);
      if Named(entries[0], name) {
        assert Without(entries, name) == Without(entries[1..], name);
      } else {
        assert Without(entries, name)[1..] == Without(entries[1..], name);
      }
    }
  }

  /** A non-empty first entry, up to its NUL or the end of the block. */
  lemma FirstEntry(entry: seq<Unit>, after: seq<Unit>)
    requires entry != [] && 0 !in entry && (after != [] ==> after[0] == 0)
    ensures Entries(entry + after) == [entry] + (if after == [] then [] else Entries(after[1..]))
  {
    var block := entry + after;
    assert forall i :: 0 <= i < |entry| ==> block[i] == entry[i] && entry[i] in entry;
    assert after != [] ==> block[|entry|] == 0;
    assert Find(block, 0) == |entry|;
    assert block[..|entry|] == entry;
    assert after != [] ==> block[|entry| + 1..] == after[1..];
  }

  lemma NothingBeforeNul(end: seq<Unit>)
    requires end != [] && end[0] == 0
    ensures Entries(end) == []
  {
    assert Find(end, 0) == 0;
  }

  /** Reading back a written block gives its entries. */
  lemma {:induction false} EntriesOfTerminated(entries: seq<seq<Unit>>, end: seq<Unit>)
    requires Storable(entries) && end != [] && end[0] == 0
    ensures Entries(Terminated(entries) + end) == entries
  {
    hide Entries;
    if entries == [] {
      assert Terminated(entries) + end == end;
      NothingBeforeNul(end);
    } else {
      var rest := Terminated(entries[1..]) + end;
      FirstEntry(entries[0], [0] + rest);
      assert Terminated(entries) + end == entries[0] + ([0] + rest);
      assert ([0] + rest)[1..] == rest;
      EntriesOfTerminated(entries[1..], end);
      assert entries == [entries[0]] + entries[1..];
    }
  }

  lemma {:induction false} OnlyDoubleNulOfTerminated(entries: seq<seq<Unit>>)
    requires Storable(entries) && entries != []
    ensures Terminated(entries) != [] && Terminated(entries)[0] != 0
    ensures EndsAtOnlyDoubleNul(Terminated(entries) + [0])
  {
    var first := entries[0];
    if |entries| > 1 {
      var rest := Terminated(entries[1..]) + [0];
      OnlyDoubleNulOfTerminated(entries[1..]);
      var whole := Terminated(entries) + [0];
      assert whole == first + [0] + rest;
      forall i: nat
        ensures DoubleNul(whole, i) <==> i == |whole| - 2
      {
        if i < |first| {
          assert whole[i] == first[i];
        } else if i > |first| {
          assert DoubleNul(whole, i) <==> DoubleNul(rest, i - |first| - 1);
        }
      }
    } else {
      assert Terminated(entries) == first + [0];
    }
  }

  /**
   Copies a block without the excluded variables. Reading the result gives the input's other variables in order,
   and the result's only double NUL is its end, also when no variable is left.
   */
  method LeasedEnvironmentBlock(environment: seq<Unit>) returns (r: seq<Unit>)
    ensures r == Block(Without(Entries(environment), EXCLUSION))
    ensures Entries(r) == Without(Entries(environment), EXCLUSION)
    ensures EndsAtOnlyDoubleNul(r)
  {
    r := WriteWithout(environment, EXCLUSION);
    ghost var kept := Without(Entries(environment), EXCLUSION);
    EntriesAreStorable(environment);
    WithoutIsStorable(Entries(environment), EXCLUSION);
    BlockIsReadBack(kept);
    // A block without entries ends in a double NUL, too.
    if r == [] {
      r := r + [0];
    }
    r := r + [0];
    assert kept != [] ==> Terminated(kept) != [];
  }

  /** The entries still to write: the one at hand, and those of the rest. */
  ghost function Pending(entry: seq<Unit>, rest: seq<Unit>): seq<seq<Unit>> {
    if entry == [] then [] else [entry] + Entries(rest)
  }

  /** The loop over the entries of a block. */
  method WriteWithout(environment: seq<Unit>, name: seq<Unit>) returns (r: seq<Unit>)
    ensures r == Terminated(Without(Entries(environment), name))
  {
    hide Entries, Named, Terminated, Without, Written, Pending, Piece;
    r := [];
    ghost var all := Entries(environment);
    var entry, rest := SplitEntry(environment);
    while entry != []
      invariant Written(all, name) == r + Written(Pending(entry, rest), name)
      decreases |rest|, entry != []
    {
      PendingEntry(entry, rest, name);
      Regroup(r, Piece(entry, name), Written(Entries(rest), name));
      r := WriteEntry(r, entry, name);
      entry, rest := SplitEntry(rest);
    }
    NothingPending(rest, name);
    WrittenIsTerminated(all, name);
  }

  lemma NothingPending(rest: seq<Unit>, name: seq<Unit>)
    ensures Written(Pending([], rest), name) == []
  {
  }

  method WriteEntry(before: seq<Unit>, entry: seq<Unit>, name: seq<Unit>) returns (r: seq<Unit>)
    ensures r == before + Piece(entry, name)
  {
    hide Named;
    r := before;
    if !Named(entry, name) {
      r := r + entry;
      r := r + [0];
    }
  }

  /** What one entry adds to the written block. */
  function Piece(entry: seq<Unit>, name: seq<Unit>): seq<Unit> {
    if Named(entry, name) then [] else entry + [0]
  }

  lemma PendingEntry(entry: seq<Unit>, rest: seq<Unit>, name: seq<Unit>)
    requires entry != []
    ensures Written(Pending(entry, rest), name) == Piece(entry, name) + Written(Entries(rest), name)
  {
    hide Entries, Piece;
    assert Pending(entry, rest)[1..] == Entries(rest);
  }

  lemma Regroup(a: seq<Unit>, b: seq<Unit>, c: seq<Unit>)
    ensures a + (b + c) == a + b + c
  {
  }

  /** The units the loop writes for `entries`. */
  function Written(entries: seq<seq<Unit>>, name: seq<Unit>): seq<Unit> {
    if entries == [] then []
    else Piece(entries[0], name) + Written(entries[1..], name)
  }

  lemma {:induction false} WrittenIsTerminated(entries: seq<seq<Unit>>, name: seq<Unit>)
    ensures Written(entries, name) == Terminated(Without(entries, name))
  {
    if entries != [] {
      WrittenIsTerminated(entries[1..], name);
      var rest := Without(entries[1..], name);
      if Named(entries[0], name) {
        assert Without(entries, name) == rest;
      } else {
        assert Without(entries, name)[1..] == rest;
      }
    }
  }

  /** The entry at the front of a block, empty at its end, and what follows the entry's NUL. */
  method SplitEntry(block: seq<Unit>) returns (entry: seq<Unit>, more: seq<Unit>)
    ensures Pending(entry, more) == Entries(block)
    ensures |more| < |block| || (entry == [] && more == block)
  {
    var n := Find(block, 0);
    if n == 0 {
      return [], block;
    }
    entry := block[..n];
    more := if n == |block| then [] else block[n + 1..];
    assert Find([], 0) == 0;
  }

  /** A written block. */
  function Block(entries: seq<seq<Unit>>): seq<Unit> {
    if entries == [] then [0, 0] else Terminated(entries) + [0]
  }

  lemma BlockIsReadBack(entries: seq<seq<Unit>>)
    requires Storable(entries)
    ensures Entries(Block(entries)) == entries
    ensures EndsAtOnlyDoubleNul(Block(entries))
  {
    if entries == [] {
      assert Entries([0, 0]) == [];
    } else {
      EntriesOfTerminated(entries, [0]);
      OnlyDoubleNulOfTerminated(entries);
    }
  }

  /** Filtering a filtered block changes nothing. */
  lemma FilteringIsIdempotent(environment: seq<Unit>)
    ensures var once := Block(Without(Entries(environment), EXCLUSION));
            Block(Without(Entries(once), EXCLUSION)) == once
  {
    EntriesAreStorable(environment);
    WithoutIsStorable(Entries(environment), EXCLUSION);
    BlockIsReadBack(Without(Entries(environment), EXCLUSION));
    RemovingTwiceIsRemovingOnce(Entries(environment), EXCLUSION);
  }
}
