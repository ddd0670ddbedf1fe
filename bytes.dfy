/**
  Go strings are byte strings: `len`, slicing, `strings.Split`, `strings.Join`,
  `strings.Contains` and `strings.HasPrefix` all work on bytes. This module gives
  those operations on `seq<byte>`, together with the facts the rest of the model
  needs about them (Split and Join are inverse to each other, TrimSpace removes
  exactly the surrounding white space, decimal formatting can be read back).
*/
module GoStrings {

  newtype byte = x: int | 0 <= x < 256

  type Bytes = seq<byte>

  const Newline: byte := 10
  const Space: byte := 32
  const Colon: byte := 58
  const LeftBracket: byte := 91
  const Slash: byte := 47

  /** The UTF-8 encoding of a string literal whose characters are all ASCII. */
  function Ascii(s: string): (r: Bytes)
    ensures |r| == |s|
    ensures forall i :: 0 <= i < |s| && s[i] as int < 128 ==> r[i] as int == s[i] as int
  {
    seq(|s|, i requires 0 <= i < |s| => (s[i] as int % 256) as byte)
  }

  // ---------------------------------------------------------------------------
  // Searching

  predicate HasPrefix(s: Bytes, prefix: Bytes) {
    |prefix| <= |s| && s[..|prefix|] == prefix
  }

  predicate OccursAt(s: Bytes, sub: Bytes, i: nat) {
    i + |sub| <= |s| && s[i..i + |sub|] == sub
  }

  /** `strings.Contains`: `sub` is a contiguous part of `s`. */
  predicate Contains(s: Bytes, sub: Bytes) {
    exists i: nat | i <= |s| :: OccursAt(s, sub, i)
  }

  // ---------------------------------------------------------------------------
  // Split and Join on a one-byte separator

  /**
    `strings.Join(parts, string(sep))`: the parts with one separator byte between
    neighbours; no parts give the empty string.
  */
  function Join(parts: seq<Bytes>, sep: byte): Bytes
  {
    if |parts| == 0 then []
    else if |parts| == 1 then parts[0]
    else parts[0] + [sep] + Join(parts[1..], sep)
  }

  /**
    `strings.Split(s, string(sep))`: the maximal separator-free pieces of `s`, in
    order. There is always at least one piece (the empty string splits into [""]),
    and there is more than one exactly when the separator occurs.
  */
  function Split(s: Bytes, sep: byte): (parts: seq<Bytes>)
    ensures |parts| >= 1
    ensures forall k :: 0 <= k < |parts| ==> sep !in parts[k]
    ensures |parts| == 1 <==> sep !in s
    decreases |s|
  {
    if s == [] then [[]]
    else
      var rest := Split(s[1..], sep);
      if s[0] == sep then [[]] + rest
      else
        var head := [s[0]] + rest[0];
        if |rest| == 1 then [head]
        else [head] + rest[1..]
  }

  /** Joining the pieces of a split gives the original string back. */
  lemma {:induction false} JoinSplit(s: Bytes, sep: byte)
    ensures Join(Split(s, sep), sep) == s
    decreases |s|
  {
    if s != [] {
      var tail := s[1..];
      var rest := Split(tail, sep);
      JoinSplit(tail, sep);
      if s[0] == sep {
        assert Split(s, sep) == [[]] + rest;
        assert Join([[]] + rest, sep) == [] + [sep] + Join(rest, sep);
      } else if |rest| == 1 {
        assert Split(s, sep) == [[s[0]] + rest[0]];
      } else {
        var head := [s[0]] + rest[0];
        assert Split(s, sep) == [head] + rest[1..];
        assert Join([head] + rest[1..], sep) == head + [sep] + Join(rest[1..], sep);
        assert Join(rest, sep) == rest[0] + [sep] + Join(rest[1..], sep);
      }
    }
  }

  /** Splitting `p + [sep] + rest` with a separator-free `p` yields `p` and then the pieces of `rest`. */
  lemma {:induction false} SplitAfterPiece(p: Bytes, sep: byte, rest: Bytes)
    requires sep !in p
    ensures Split(p + [sep] + rest, sep) == [p] + Split(rest, sep)
    decreases |p|
  {
    var s := p + [sep] + rest;
    if p == [] {
      assert s[0] == sep && s[1..] == rest;
    } else {
      assert s[0] == p[0] && s[1..] == p[1..] + [sep] + rest;
      SplitAfterPiece(p[1..], sep, rest);
      assert [p[0]] + p[1..] == p;
    }
  }

  /** A separator-free string is its own single piece. */
  lemma {:induction false} SplitWithoutSeparator(s: Bytes, sep: byte)
    requires sep !in s
    ensures Split(s, sep) == [s]
    decreases |s|
  {
    if s != [] {
      SplitWithoutSeparator(s[1..], sep);
      assert [s[0]] + s[1..] == s;
    }
  }

  /** Split undoes Join when no part contains the separator. */
  lemma {:induction false} SplitJoin(parts: seq<Bytes>, sep: byte)
    requires |parts| >= 1
    requires forall k :: 0 <= k < |parts| ==> sep !in parts[k]
    ensures Split(Join(parts, sep), sep) == parts
    decreases |parts|
  {
    if |parts| == 1 {
      SplitWithoutSeparator(parts[0], sep);
    } else {
      SplitJoin(parts[1..], sep);
      SplitAfterPiece(parts[0], sep, Join(parts[1..], sep));
      assert [parts[0]] + parts[1..] == parts;
    }
  }

  /**
    `last` is the part of `s` after its last separator, or all of `s` if there is
    none: a separator-free suffix that is either all of `s` or preceded by a separator.
  */
  predicate IsLastPiece(s: Bytes, sep: byte, last: Bytes) {
    && |last| <= |s|
    && (forall k :: 0 <= k < |last| ==> last[k] == s[|s| - |last| + k])
    && (forall k :: 0 <= k < |last| ==> last[k] != sep)
    && (|last| < |s| ==> s[|s| - |last| - 1] == sep)
  }

  /** Putting one byte in front keeps the last piece, or extends it when it was the whole string. */
  lemma LastPieceCons(s: Bytes, sep: byte, last: Bytes)
    requires s != [] && IsLastPiece(s[1..], sep, last)
    ensures |last| < |s| - 1 || s[0] == sep ==> IsLastPiece(s, sep, last)
    ensures |last| == |s| - 1 && s[0] != sep ==> IsLastPiece(s, sep, [s[0]] + last)
  {
    assert forall k :: 0 <= k < |s| - 1 ==> s[1..][k] == s[k + 1];
  }

  /** No separator occurs in the part of `s` a last piece covers. */
  lemma LastPieceAvoidsSeparator(s: Bytes, sep: byte, last: Bytes)
    requires IsLastPiece(s, sep, last)
    ensures forall k :: |s| - |last| <= k < |s| ==> s[k] != sep
  {
    forall k | |s| - |last| <= k < |s|
      ensures s[k] != sep
    {
      assert last[k - (|s| - |last|)] == s[k];
    }
  }

  /** The last piece of a split is the part of `s` after its last separator. */
  lemma {:induction false} LastPieceIsTail(s: Bytes, sep: byte)
    ensures IsLastPiece(s, sep, Split(s, sep)[|Split(s, sep)| - 1])
    decreases |s|
  {
    var whole := Split(s, sep);
    if s == [] {
      assert whole == [[]];
    } else {
      var rest := Split(s[1..], sep);
      var last := rest[|rest| - 1];
      LastPieceIsTail(s[1..], sep);
      LastPieceCons(s, sep, last);
      if s[0] == sep {
        assert whole == [[]] + rest;
      } else if |rest| == 1 {
        SplitWithoutSeparator(s[1..], sep);
        assert whole == [[s[0]] + last];
      } else {
        assert whole == [[s[0]] + rest[0]] + rest[1..];
        assert sep in s[1..];
        var j :| 0 <= j < |s[1..]| && s[1..][j] == sep;
        LastPieceAvoidsSeparator(s[1..], sep, last);
      }
    }
  }

  // ---------------------------------------------------------------------------
  // ASCII case mapping and white space

  function LowerByte(b: byte): byte {
    if 65 <= b <= 90 then b + 32 else b
  }

  function UpperByte(b: byte): byte {
    if 97 <= b <= 122 then b - 32 else b
  }

  /** `strings.ToLower` restricted to ASCII letters. */
  function ToLower(s: Bytes): Bytes {
    seq(|s|, i requires 0 <= i < |s| => LowerByte(s[i]))
  }

  /** `strings.ToUpper` restricted to ASCII letters. */
  function ToUpper(s: Bytes): Bytes {
    seq(|s|, i requires 0 <= i < |s| => UpperByte(s[i]))
  }

  /** The ASCII white space that `strings.TrimSpace` removes: \t \n \v \f \r and space. */
  predicate IsSpace(b: byte) {
    b == 9 || b == 10 || b == 11 || b == 12 || b == 13 || b == 32
  }

  function TrimLeft(s: Bytes): (r: Bytes)
    ensures |r| <= |s| && r == s[|s| - |r|..]
    ensures forall j :: 0 <= j < |s| - |r| ==> IsSpace(s[j])
    ensures r != [] ==> !IsSpace(r[0])
  {
    if s != [] && IsSpace(s[0]) then TrimLeft(s[1..]) else s
  }

  function TrimRight(s: Bytes): (r: Bytes)
    ensures |r| <= |s| && r == s[..|r|]
    ensures forall j :: |r| <= j < |s| ==> IsSpace(s[j])
    ensures r != [] ==> !IsSpace(r[|r| - 1])
  {
    if s != [] && IsSpace(s[|s| - 1]) then TrimRight(s[..|s| - 1]) else s
  }

  /**
    `strings.TrimSpace`: the result is the part of `s` between its leading and
    trailing white space; it neither starts nor ends with white space.
  */
  function TrimSpace(s: Bytes): (r: Bytes)
    ensures r != [] ==> !IsSpace(r[0]) && !IsSpace(r[|r| - 1])
    ensures exists lead: nat :: SpaceAround(s, r, lead)
  {
    var left := TrimLeft(s);
    var r := TrimRight(left);
    var lead := |s| - |left|;
    assert SpaceAround(s, r, lead);
    r
  }

  /** `s` is `core` with only white space before it (`lead` bytes) and after it. */
  predicate SpaceAround(s: Bytes, core: Bytes, lead: nat) {
    && lead + |core| <= |s|
    && s[lead..lead + |core|] == core
    && (forall j :: 0 <= j < lead ==> IsSpace(s[j]))
    && (forall j :: lead + |core| <= j < |s| ==> IsSpace(s[j]))
  }

  // ---------------------------------------------------------------------------
  // Decimal formatting, as `fmt.Sprintf("%d", n)`

  predicate IsDigit(b: byte) {
    48 <= b <= 57
  }

  function Digits(n: nat): (r: Bytes)
    ensures |r| >= 1
    ensures forall i :: 0 <= i < |r| ==> IsDigit(r[i])
    ensures |r| > 1 ==> r[0] != 48
  {
    if n < 10 then [(48 + n) as byte] else Digits(n / 10) + [(48 + n % 10) as byte]
  }

  /** The number written by a sequence of decimal digits. */
  function DigitsValue(r: Bytes): int {
    if r == [] then 0 else DigitsValue(r[..|r| - 1]) * 10 + (r[|r| - 1] as int - 48)
  }

  /** `%d`: a minus sign for negative numbers, then the digits of the magnitude. */
  function Decimal(n: int): Bytes {
    if n < 0 then [45] + Digits(-n) else Digits(n)
  }

  lemma {:induction false} DigitsRoundTrip(n: nat)
    ensures DigitsValue(Digits(n)) == n
    decreases n
  {
    if n >= 10 {
      DigitsRoundTrip(n / 10);
      var r := Digits(n);
      assert r[..|r| - 1] == Digits(n / 10);
    }
  }
}
