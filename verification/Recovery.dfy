/** Finding the running HID thread: resolution, then the scan, then an election if several objects look alive. */
module Recovery {
  import opened Common
  import Election
  import MemoryScan
  import Resolver

  type Layout = Resolver.Layout

  datatype Failure =
    | Unresolved(error: Resolver.ResolveError)
    | NotFound
    | Unreadable
    | Ambiguous

  /** What sampling would observe for a list of candidates: at least once, and one sample for each candidate. */
  ghost predicate Samples(watch: seq<nat> -> seq<Election.Observation>) {
    forall candidates: seq<nat> ::
      && watch(candidates) != []
      && forall o :: o in watch(candidates) && o.Some? ==> |o.value| == |candidates|
  }

  /** The election over the candidates names `address`. */
  ghost predicate Names(observations: seq<Election.Observation>, candidates: seq<nat>, address: nat) {
    exists n: nat, i: nat ::
      && 1 <= n <= |observations| && Election.Ends(observations, n, Election.Elected(i))
      && i < |candidates| && candidates[i] == address
  }

  /** Among the live objects of a list, `address` is the only one, or the one that the election names. */
  ghost predicate Chosen(watch: seq<nat> -> seq<Election.Observation>, live: seq<nat>, address: nat) {
    live == [address] || (|live| > 1 && Names(watch(live), live, address))
  }

  /** `live` lists the live objects of the layout that the image proves. */
  ghost predicate Lists(snapshot: Resolver.Snapshot, m: MemoryScan.Memory, live: seq<nat>) {
    && Ascending(live)
    && exists l: Layout :: Resolver.Resolves(snapshot, l) && MemoryScan.ScanIs(m, snapshot.moduleBase, l, live)
  }

  ghost predicate Located(snapshot: Resolver.Snapshot, m: MemoryScan.Memory,
                          watch: seq<nat> -> seq<Election.Observation>, address: nat) {
    exists live: seq<nat> :: Lists(snapshot, m, live) && Chosen(watch, live, address)
  }

  /** There is one list of live objects. */
  lemma ListIsUnique(snapshot: Resolver.Snapshot, m: MemoryScan.Memory, a: seq<nat>, b: seq<nat>)
    ensures Lists(snapshot, m, a) && Lists(snapshot, m, b) ==> a == b
  {
    hide Resolver.Resolves, MemoryScan.LiveObject;
    if Lists(snapshot, m, a) && Lists(snapshot, m, b) {
      var l: Layout :| Resolver.Resolves(snapshot, l) && MemoryScan.ScanIs(m, snapshot.moduleBase, l, a);
      var k: Layout :| Resolver.Resolves(snapshot, k) && MemoryScan.ScanIs(m, snapshot.moduleBase, k, b);
      Resolver.ResolutionIsUnique(snapshot, l, k);
      forall x: int
        ensures x in a <==> x in b
      {
        if x >= 0 {
          var n: nat := x;
          assert n in a <==> MemoryScan.LiveObject(m, snapshot.moduleBase, l, n);
        }
      }
      AscendingIsUnique(a, b);
    }
  }

  /** The election ends because a candidate could not be read. */
  ghost predicate EndsUnread(observations: seq<Election.Observation>) {
    exists n: nat :: 1 <= n <= |observations| && Election.Ends(observations, n, Election.Unreadable)
  }

  /** Chooses among the live objects; nothing but a sole object or an elected one is ever named. */
  method Choose(watch: seq<nat> -> seq<Election.Observation>, live: seq<nat>) returns (r: Result<nat, Failure>)
    requires Samples(watch)
    ensures forall a: nat :: r == Ok(a) <==> Chosen(watch, live, a)
    ensures r.Err? ==> !r.error.Unresolved? && (r.error.NotFound? <==> live == [])
    ensures r.Err? && live != [] ==> (r.error.Unreadable? <==> EndsUnread(watch(live)))
  {
    if |live| == 1 {
      return Ok(live[0]);
    }
    if live == [] {
      return Err(NotFound);
    }
    var observations := watch(live);
    var outcome, nudges, sampled := Election.ElectProgressing(observations);
    forall n: nat, e | 1 <= n <= |observations| && Election.Ends(observations, n, e)
      ensures e == outcome
    {
      OneOutcome(observations, n, e, sampled, outcome);
    }
    match outcome {
      case Elected(i) =>
        assert observations[0] in observations;
        r := Ok(live[i]);
      case Unreadable => r := Err(Failure.Unreadable);
      case Ambiguous(_, _) => r := Err(Failure.Ambiguous);
    }
  }

  lemma OneOutcome(observations: seq<Election.Observation>, n: nat, e: Election.Election, m: nat, f: Election.Election)
    requires 1 <= n <= |observations| && 1 <= m <= |observations|
    requires Election.Ends(observations, n, e) && Election.Ends(observations, m, f)
    ensures e == f
  {
    if n <= m {
      Election.OutcomeIsUnique(observations, n, e, m, f);
    } else {
      Election.OutcomeIsUnique(observations, m, f, n, e);
    }
  }

  /**
   Names an address exactly if it is the only live object of the layout that the image proves, or the one of several
   that the election singles out.
   */
  method LocateHidThread(snapshot: Resolver.Snapshot, m: MemoryScan.Memory,
                         watch: seq<nat> -> seq<Election.Observation>)
      returns (r: Result<nat, Failure>)
    requires MemoryScan.Tiled(m) && Samples(watch)
    ensures forall a: nat :: r == Ok(a) <==> Located(snapshot, m, watch, a)
    ensures r.Err? && r.error.Unresolved? <==> forall l: Layout :: !Resolver.Resolves(snapshot, l)
  {
    hide Resolver.Resolves, MemoryScan.ScanIs, Chosen, Samples, Ascending;
    var scanned := MemoryScan.ResolveAndScan(snapshot, m);
    if scanned.Err? {
      return Err(Unresolved(scanned.error));
    }
    var live := scanned.value;
    assert Lists(snapshot, m, live);
    forall other: seq<nat> | Lists(snapshot, m, other)
      ensures other == live
    {
      ListIsUnique(snapshot, m, other, live);
    }
    r := Choose(watch, live);
  }
}
