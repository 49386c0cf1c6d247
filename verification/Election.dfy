/** Separating the running HID thread from abandoned look-alikes by watching which candidate moves. */
module Election {
  import opened Common

  /** One observation of a candidate; the deadline is compared as raw bits. */
  datatype Sample = Sample(deadlineBits: bv64, counter: bv32)

  /** All candidates read in a fixed order, or `None` when one of them could not be read. */
  type Observation = Option<seq<Sample>>

  datatype Election =
    | Elected(index: nat)
    | Unreadable
    | Ambiguous(before: seq<Sample>, last: Observation)

  /** Candidate `i` is the only one that differs between the two observations. */
  ghost predicate OnlyMover(before: seq<Sample>, after: seq<Sample>, i: nat) {
    && |before| == |after| && i < |before|
    && before[i] != after[i]
    && forall j :: 0 <= j < |before| && j != i ==> before[j] == after[j]
  }

  method SelectProgressing(before: seq<Sample>, after: seq<Sample>) returns (r: Option<nat>)
    ensures forall i: nat :: r == Some(i) <==> OnlyMover(before, after, i)
  {
    if before == [] || |before| != |after| {
      return None;
    }
    r := None;
    for index := 0 to |before|
      invariant r == None ==> forall j :: 0 <= j < index ==> before[j] == after[j]
      invariant r.Some? ==> r.value < index && before[r.value] != after[r.value]
      invariant r.Some? ==> forall j :: 0 <= j < index && j != r.value ==> before[j] == after[j]
    {
      if before[index] != after[index] {
        if r.Some? {
          return None;
        }
        r := Some(index);
      }
    }
  }

  /** No candidate is singled out by this observation. */
  ghost predicate Undecided(before: seq<Sample>, after: Observation) {
    after.Some? && forall i: nat :: !OnlyMover(before, after.value, i)
  }

  /** `r` is decided by the first `n` observations: all but the last of them were readable and singled nobody out. */
  ghost predicate Ends(observations: seq<Observation>, n: nat, r: Election)
    requires 1 <= n <= |observations|
  {
    var first, final := observations[0], observations[n - 1];
    && (n > 1 ==> first.Some? && forall k :: 0 < k < n - 1 ==> Undecided(first.value, observations[k]))
    && match r
       case Unreadable => final == None
       case Elected(i) => n > 1 && final.Some? && OnlyMover(first.value, final.value, i)
       case Ambiguous(before, last) =>
         && n == |observations| && first == Some(before)
         && (if n == 1 then last == None else last == final && Undecided(before, final))
  }

  /**
   The election over `observations`: what sampling answers, in order, for as many samples as the clock leaves time
   for. `nudges` counts the notifications posted to Steam, `sampled` the observations made.
   */
  method ElectProgressing(observations: seq<Observation>) returns (r: Election, nudges: nat, sampled: nat)
    requires observations != []
    ensures 1 <= sampled <= |observations| && Ends(observations, sampled, r)
    ensures nudges == if observations[0].Some? then 1 else 0
  {
    sampled, nudges := 1, 0;
    if observations[0] == None {
      return Unreadable, nudges, sampled;
    }
    var before := observations[0].value;
    nudges := nudges + 1;
    var last: Observation := None;
    while sampled < |observations|
      invariant 1 <= sampled <= |observations|
      invariant forall k :: 0 < k < sampled ==> Undecided(before, observations[k])
      invariant last == if sampled == 1 then None else observations[sampled - 1]
    {
      var after := observations[sampled];
      sampled := sampled + 1;
      if after == None {
        return Unreadable, nudges, sampled;
      }
      var index := SelectProgressing(before, after.value);
      if index.Some? {
        return Elected(index.value), nudges, sampled;
      }
      last := after;
    }
    return Ambiguous(before, last), nudges, sampled;
  }

  /** The observations determine the outcome. */
  lemma OutcomeIsUnique(observations: seq<Observation>, n: nat, r: Election, m: nat, q: Election)
    requires 1 <= n <= m <= |observations|
    requires Ends(observations, n, r) && Ends(observations, m, q)
    ensures n == m && r == q
  {
  }

  /** Candidate `i` reads as it did first in every readable observation. */
  ghost predicate Frozen(observations: seq<Observation>, i: nat)
    requires observations != []
  {
    forall k :: 0 <= k < |observations| && observations[k].Some? && observations[0].Some? ==>
      |observations[k].value| == |observations[0].value| &&
      (i < |observations[0].value| ==> observations[k].value[i] == observations[0].value[i])
  }

  /** If every candidate but `live` is frozen, no other than `live` is ever elected. */
  lemma OnlyTheLiveOneIsElected(observations: seq<Observation>, live: nat, n: nat, i: nat)
    requires 1 <= n <= |observations| && Ends(observations, n, Elected(i))
    requires forall j: nat :: j != live ==> Frozen(observations, j)
    ensures i == live
  {
    assert i != live ==> Frozen(observations, i);
  }

  /** And it is elected at the first observation that shows it moving, if everything is readable until then. */
  lemma TheLiveOneIsElected(observations: seq<Observation>, live: nat, n: nat)
    requires 1 < n <= |observations| && forall k :: 0 <= k < n ==> observations[k].Some?
    requires live < |observations[0].value|
    requires forall j: nat :: j != live ==> Frozen(observations, j)
    requires forall k :: 0 <= k < n - 1 ==> observations[k].value == observations[0].value
    requires |observations[n - 1].value| == |observations[0].value|
    requires observations[n - 1].value[live] != observations[0].value[live]
    ensures Ends(observations, n, Elected(live))
  {
    var first, final := observations[0].value, observations[n - 1].value;
    forall j | 0 <= j < |first| && j != live
      ensures first[j] == final[j]
    {
      assert Frozen(observations, j);
    }
  }

  /** An unreadable candidate before any decision ends the election with nobody named. */
  lemma UnreadableNamesNobody(observations: seq<Observation>, k: nat, n: nat, r: Election)
    requires 1 <= n <= |observations| && Ends(observations, n, r)
    requires k < |observations| && observations[k] == None
    ensures n <= k + 1
    ensures n == k + 1 ==> r == Unreadable
  {
  }
}
