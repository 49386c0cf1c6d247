/** Copying a message into a fixed NUL-terminated UTF-8 buffer. */
module FixedUtf8 {

  type Byte = b: int | 0 <= b < 0x100

  /** A Unicode scalar value. */
  type Scalar = c: int | 0 <= c < 0xD800 || 0xE000 <= c < 0x11_0000

  /** UTF-8, section 3 of RFC 3629. */
  function Encode(c: Scalar): (r: seq<Byte>)
    ensures 1 <= |r| <= 4
    ensures !Continuation(r[0]) && forall i :: 0 < i < |r| ==> Continuation(r[i])
    ensures 0 in r <==> c == 0
  {
    if c < 0x80 then [c]
    else if c < 0x800 then [0xC0 + c / 0x40, 0x80 + c % 0x40]
    else if c < 0x1_0000 then [0xE0 + c / 0x1000, 0x80 + c / 0x40 % 0x40, 0x80 + c % 0x40]
    else [0xF0 + c / 0x4_0000, 0x80 + c / 0x1000 % 0x40, 0x80 + c / 0x40 % 0x40, 0x80 + c % 0x40]
  }

  predicate Continuation(b: Byte) {
    0x80 <= b < 0xC0
  }

  function EncodeAll(text: seq<Scalar>): seq<Byte> {
    if text == [] then [] else Encode(text[0]) + EncodeAll(text[1..])
  }

  /** Interior NULs become spaces. */
  function Sanitized(text: seq<Scalar>): (r: seq<Scalar>)
    ensures |r| == |text|
    ensures forall i :: 0 <= i < |text| ==> r[i] == if text[i] == 0 then 0x20 else text[i]
  {
    if text == [] then [] else [if text[0] == 0 then 0x20 else text[0]] + Sanitized(text[1..])
  }

  /** `str::is_char_boundary`, which looks at one byte. */
  predicate IsCharBoundary(bytes: seq<Byte>, i: nat) {
    i == 0 || i == |bytes| || (i < |bytes| && !Continuation(bytes[i]))
  }

  /** How many leading characters fit in `limit` bytes. */
  function Fitting(text: seq<Scalar>, limit: nat): (k: nat)
    ensures k <= |text|
  {
    if text == [] || |Encode(text[0])| > limit then 0 else 1 + Fitting(text[1..], limit - |Encode(text[0])|)
  }

  /** The number of bytes of the first `k` characters. */
  function Size(text: seq<Scalar>, k: nat): nat
    requires k <= |text|
  {
    |EncodeAll(text[..k])|
  }

  lemma {:induction false} EncodeAllAppend(a: seq<Scalar>, b: seq<Scalar>)
    ensures EncodeAll(a + b) == EncodeAll(a) + EncodeAll(b)
  {
    if a == [] {
      assert a + b == b;
    } else {
      assert (a + b)[1..] == a[1..] + b;
      EncodeAllAppend(a[1..], b);
    }
  }

  lemma PrefixOfText(text: seq<Scalar>, k: nat)
    requires k <= |text|
    ensures Size(text, k) <= |EncodeAll(text)|
    ensures EncodeAll(text)[..Size(text, k)] == EncodeAll(text[..k])
    ensures EncodeAll(text)[Size(text, k)..] == EncodeAll(text[k..])
  {
    EncodeAllAppend(text[..k], text[k..]);
    assert text == text[..k] + text[k..];
  }

  lemma SizeStep(text: seq<Scalar>, k: nat)
    requires k < |text|
    ensures Size(text, k + 1) == Size(text, k) + |Encode(text[k])|
  {
    assert text[..k + 1] == text[..k] + [text[k]];
    EncodeAllAppend(text[..k], [text[k]]);
    assert EncodeAll([text[k]]) == Encode(text[k]) + EncodeAll([]);
  }

  lemma {:induction false} SizeIsMonotone(text: seq<Scalar>, j: nat, k: nat)
    requires j <= k <= |text|
    ensures Size(text, j) <= Size(text, k)
    decreases k
  {
    if j < k {
      SizeStep(text, k - 1);
      SizeIsMonotone(text, j, k - 1);
    }
  }

  /** `Fitting` is the longest prefix that fits. */
  lemma {:induction false} FittingIsLongest(text: seq<Scalar>, limit: nat)
    ensures Size(text, Fitting(text, limit)) <= limit
    ensures Fitting(text, limit) < |text| ==> Size(text, Fitting(text, limit) + 1) > limit
  {
    if text != [] {
      var width := |Encode(text[0])|;
      if width <= limit {
        FittingIsLongest(text[1..], limit - width);
        var k := Fitting(text[1..], limit - width);
        SizeOfRest(text, k);
        if k < |text| - 1 {
          SizeOfRest(text, k + 1);
        }
      } else {
        SizeStep(text, 0);
      }
    }
  }

  lemma SizeOfRest(text: seq<Scalar>, k: nat)
    requires k < |text|
    ensures Size(text, k + 1) == |Encode(text[0])| + Size(text[1..], k)
  {
    assert text[..k + 1][1..] == text[1..][..k];
  }

  /** The byte test finds exactly the ends of whole characters. */
  lemma {:induction false} BoundaryIsPrefix(text: seq<Scalar>, i: nat)
    requires i <= |EncodeAll(text)|
    ensures IsCharBoundary(EncodeAll(text), i) <==> exists k :: 0 <= k <= |text| && Size(text, k) == i
  {
    if i == 0 {
      assert Size(text, 0) == 0;
    } else {
      var width, rest := |Encode(text[0])|, EncodeAll(text[1..]);
      if i < width {
        forall k | 0 <= k <= |text|
          ensures Size(text, k) != i
        {
          if k > 0 {
            SizeOfRest(text, k - 1);
          } else {
            assert Size(text, 0) == 0;
          }
        }
      } else {
        BoundaryIsPrefix(text[1..], i - width);
        FirstByteStartsACharacter(text[1..]);
        if k :| 0 <= k <= |text| - 1 && Size(text[1..], k) == i - width {
          SizeOfRest(text, k);
        }
        if k :| 0 <= k <= |text| && Size(text, k) == i {
          assert Size(text, 0) == 0;
          SizeOfRest(text, k - 1);
        }
      }
    }
  }

  lemma FirstByteStartsACharacter(text: seq<Scalar>)
    ensures text != [] ==> EncodeAll(text) != [] && !Continuation(EncodeAll(text)[0])
  {
  }

  lemma {:induction false} SanitizedHasNoNul(text: seq<Scalar>)
    requires 0 !in text
    ensures 0 !in EncodeAll(text)
  {
    if text != [] {
      SanitizedHasNoNul(text[1..]);
    }
  }

  /** Exactly the prefixes of at most `Fitting` characters fit. */
  lemma FittingIsExact(text: seq<Scalar>, limit: nat, j: nat)
    requires j <= |text|
    ensures Size(text, j) <= limit <==> j <= Fitting(text, limit)
  {
    var k := Fitting(text, limit);
    FittingIsLongest(text, limit);
    if j > k {
      SizeIsMonotone(text, k + 1, j);
    } else {
      SizeIsMonotone(text, j, k);
    }
  }

  /** Walks back from the byte limit to the end of a whole character. */
  method Truncate(text: seq<Scalar>, limit: nat) returns (kept: seq<Byte>)
    ensures kept == EncodeAll(text[..Fitting(text, limit)])
    ensures |kept| <= limit
  {
    var bytes := EncodeAll(text);
    ghost var k := Fitting(text, limit);
    FittingIsLongest(text, limit);
    PrefixOfText(text, k);
    BoundaryIsPrefix(text, Size(text, k));
    var end := if |bytes| < limit then |bytes| else limit;
    while end > 0 && !IsCharBoundary(bytes, end)
      invariant Size(text, k) <= end <= |bytes| && end <= limit
    {
      end := end - 1;
    }
    BoundaryIsPrefix(text, end);
    ghost var j :| 0 <= j <= |text| && Size(text, j) == end;
    FittingIsExact(text, limit, j);
    SizeIsMonotone(text, j, k);
    kept := bytes[..end];
  }

  /**
   Leaves the longest prefix of whole characters that fits, followed by a NUL and with no earlier NUL; the bytes
   behind the NUL keep their old values.
   */
  method WriteFixedUtf8(buffer: array<Byte>, text: seq<Scalar>)
    requires buffer.Length > 0
    modifies buffer
    ensures var kept := EncodeAll(Sanitized(text)[..Fitting(Sanitized(text), buffer.Length - 1)]);
            && |kept| < buffer.Length && 0 !in kept
            && buffer[..] == kept + [0] + old(buffer[..])[|kept| + 1..]
  {
    var sanitized := Sanitized(text);
    var kept := Truncate(sanitized, buffer.Length - 1);
    SanitizedHasNoNul(sanitized[..Fitting(sanitized, buffer.Length - 1)]);
    CopyWithNul(buffer, kept);
  }

  method CopyWithNul(buffer: array<Byte>, kept: seq<Byte>)
    requires |kept| < buffer.Length
    modifies buffer
    ensures buffer[..] == kept + [0] + old(buffer[..])[|kept| + 1..]
  {
    for i := 0 to |kept|
      invariant forall j :: 0 <= j < i ==> buffer[j] == kept[j]
      invariant forall j :: i <= j < buffer.Length ==> buffer[j] == old(buffer[j])
    {
      buffer[i] := kept[i];
    }
    buffer[|kept|] := 0;
  }

  // ----- Reading the bytes back -----

  /** The first character of a text, and how many bytes it takes; the lead byte tells how many. */
  function Decode(bytes: seq<Byte>): (r: (int, nat))
    requires bytes != []
    ensures 1 <= r.1 <= |bytes|
  {
    var lead: int := bytes[0];
    if lead < 0xC0 || |bytes| < 2 then (lead, 1)
    else
      var second: int := bytes[1];
      if lead < 0xE0 || |bytes| < 3 then ((lead - 0xC0) * 0x40 + second - 0x80, 2)
      else
        var third: int := bytes[2];
        if lead < 0xF0 || |bytes| < 4 then ((lead - 0xE0) * 0x1000 + (second - 0x80) * 0x40 + third - 0x80, 3)
        else
          var fourth: int := bytes[3];
          ((lead - 0xF0) * 0x4_0000 + (second - 0x80) * 0x1000 + (third - 0x80) * 0x40 + fourth - 0x80, 4)
  }

  function DecodeAll(bytes: seq<Byte>): seq<int>
    decreases |bytes|
  {
    if bytes == [] then []
    else
      var (c, n) := Decode(bytes);
      [c] + DecodeAll(bytes[n..])
  }

  lemma Digits(c: nat)
    ensures c == c / 0x40 * 0x40 + c % 0x40
    ensures c / 0x40 == c / 0x1000 * 0x40 + c / 0x40 % 0x40
    ensures c / 0x1000 == c / 0x4_0000 * 0x40 + c / 0x1000 % 0x40
  {
    assert c / 0x1000 == c / 0x40 / 0x40 && c / 0x4_0000 == c / 0x1000 / 0x40;
  }

  lemma DecodeUndoesEncode(c: Scalar, rest: seq<Byte>)
    ensures Decode(Encode(c) + rest) == (c, |Encode(c)|)
  {
    var bytes := Encode(c) + rest;
    Digits(c);
    assert bytes[0] == Encode(c)[0];
    assert |Encode(c)| > 1 ==> bytes[1] == Encode(c)[1];
    assert |Encode(c)| > 2 ==> bytes[2] == Encode(c)[2];
    assert |Encode(c)| > 3 ==> bytes[3] == Encode(c)[3];
    hide EncodeAll;
  }

  /** What is kept reads back as the kept characters. */
  lemma {:induction false} DecodeAllUndoesEncodeAll(text: seq<Scalar>)
    ensures DecodeAll(EncodeAll(text)) == text
  {
    if text != [] {
      var c, rest := text[0], EncodeAll(text[1..]);
      DecodeUndoesEncode(c, rest);
      assert (Encode(c) + rest)[|Encode(c)|..] == rest;
      DecodeAllUndoesEncodeAll(text[1..]);
    }
  }
}
