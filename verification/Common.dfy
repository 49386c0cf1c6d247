/** Values shared by every component: optional results and error returns. */
module Common {

  datatype Option<+T> = None | Some(value: T)

  datatype Result<+T, +E> = Ok(value: T) | Err(error: E)

  /** A UTF-16 code unit. */
  type Unit = u: int | 0 <= u < 0x1_0000

  /** A little-endian number. */
  function LeValue(bytes: seq<bv8>): nat {
    if bytes == [] then 0 else bytes[0] as nat + 0x100 * LeValue(bytes[1..])
  }

  /** No value appears twice. */
  ghost predicate Distinct<T>(s: seq<T>) {
    forall i, j :: 0 <= i < j < |s| ==> s[i] != s[j]
  }

  /** Strictly ascending, hence also without duplicates. */
  ghost predicate Ascending(s: seq<int>) {
    forall i, j :: 0 <= i < j < |s| ==> s[i] < s[j]
  }

  lemma AscendingAppend(a: seq<int>, x: int)
    requires Ascending(a) && forall i :: i in a ==> i < x
    ensures Ascending(a + [x])
  {
    assert forall i :: 0 <= i < |a| ==> a[i] in a;
  }

  /** A strictly ascending sequence is determined by the set of its elements. */
  lemma {:induction false} AscendingIsUnique(a: seq<int>, b: seq<int>)
    requires Ascending(a) && Ascending(b)
    requires forall x :: x in a <==> x in b
    ensures a == b
  {
    if a != [] {
      assert a[0] in a;
    }
    if b != [] {
      assert b[0] in b;
    }
    if a != [] && b != [] {
      forall x
        ensures x in a[1..] <==> x in b[1..]
      {
        RestElements(a, x);
        RestElements(b, x);
      }
      AscendingIsUnique(a[1..], b[1..]);
      assert a == [a[0]] + a[1..] && b == [b[0]] + b[1..];
    }
  }

  lemma RestElements(a: seq<int>, x: int)
    requires Ascending(a) && a != []
    ensures x in a[1..] <==> x in a && x != a[0]
  {
    if x in a && x != a[0] {
      var i :| 0 <= i < |a| && a[i] == x;
      assert a[1..][i - 1] == x;
    }
  }
}
