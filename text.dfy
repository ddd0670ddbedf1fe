/**
  Pure text utilities of the plugin: the request-id scan over an analysis
  result, the status icon, and the short task id taken from a UUID.
*/
module TextUtil {
  import opened GoStrings
  import opened Tasks

  // ---------------------------------------------------------------------------
  // extractRequestID

  const RequestIdKey: Bytes := Ascii("requestid")

  /** The line mentions the key, in any ASCII letter case. */
  predicate MentionsKey(line: Bytes) {
    Contains(ToLower(line), RequestIdKey)
  }

  /** A line the scan takes its value from: it mentions the key and splits into at least two pieces on ':'. */
  predicate Carries(line: Bytes) {
    MentionsKey(line) && |Split(line, Colon)| >= 2
  }

  /** The value of a carrying line: the last ':'-piece, white space trimmed. */
  function ValueOf(line: Bytes): Bytes {
    var parts := Split(line, Colon);
    TrimSpace(parts[|parts| - 1])
  }

  /** The scan over the lines: the value of the first carrying line, or empty when there is none. */
  function ScanLines(lines: seq<Bytes>): Bytes {
    if lines == [] then []
    else if Carries(lines[0]) then ValueOf(lines[0])
    else ScanLines(lines[1..])
  }

  /**
    `extractRequestID`: the scan over the newline-separated lines of the result.
    The id it finds contains no colon and has no white space at either end.
  */
  function ExtractRequestId(result: Bytes): (id: Bytes)
    ensures id != [] ==> !IsSpace(id[0]) && !IsSpace(id[|id| - 1])
    ensures Colon !in id
  {
    ExtractRequestIdShape(Split(result, Newline));
    ScanLines(Split(result, Newline))
  }

  /** A line carries a value exactly when it mentions the key and has a colon. */
  lemma CarriesIffColon(line: Bytes)
    ensures Carries(line) <==> MentionsKey(line) && Colon in line
  {
  }

  /** The value of a carrying line is the trimmed text after its last colon. */
  lemma {:induction false} ValueIsAfterLastColon(line: Bytes)
    requires Colon in line
    ensures exists k: nat :: ValueAfterColon(line, k)
  {
    LastPieceIsTail(line, Colon);
    var parts := Split(line, Colon);
    var last := parts[|parts| - 1];
    var k := |line| - |last| - 1;
    assert |last| < |line| by {
      var j :| 0 <= j < |line| && line[j] == Colon;
      LastPieceAvoidsSeparator(line, Colon, last);
    }
    assert line[k + 1..] == last;
    assert ValueAfterColon(line, k);
  }

  /** `line[k]` is the last colon of `line`, and the value is the trimmed text after it. */
  predicate ValueAfterColon(line: Bytes, k: nat) {
    && k < |line| && line[k] == Colon && Colon !in line[k + 1..]
    && ValueOf(line) == TrimSpace(line[k + 1..])
  }

  /** No carrying line: the result is empty. */
  lemma {:induction false} ScanNoMatch(lines: seq<Bytes>)
    requires forall j :: 0 <= j < |lines| ==> !Carries(lines[j])
    ensures ScanLines(lines) == []
    decreases |lines|
  {
    if lines != [] {
      ScanNoMatch(lines[1..]);
    }
  }

  /**
    First-match semantics: the value comes from the first carrying line; earlier
    lines that mention the key without a colon are passed over.
  */
  lemma {:induction false} ScanFirstMatch(lines: seq<Bytes>, i: nat)
    requires i < |lines| && Carries(lines[i])
    requires forall j :: 0 <= j < i ==> !Carries(lines[j])
    ensures ScanLines(lines) == ValueOf(lines[i])
    decreases i
  {
    if i > 0 {
      ScanFirstMatch(lines[1..], i - 1);
    }
  }

  /** extractRequestID returns "" when no line of the result carries a value. */
  lemma ExtractRequestIdNone(result: Bytes)
    requires forall j :: 0 <= j < |Split(result, Newline)| ==> !Carries(Split(result, Newline)[j])
    ensures ExtractRequestId(result) == []
  {
    ScanNoMatch(Split(result, Newline));
  }

  /** Otherwise it returns the value of the first line that carries one. */
  lemma ExtractRequestIdFirst(result: Bytes, i: nat)
    requires i < |Split(result, Newline)| && Carries(Split(result, Newline)[i])
    requires forall j :: 0 <= j < i ==> !Carries(Split(result, Newline)[j])
    ensures ExtractRequestId(result) == ValueOf(Split(result, Newline)[i])
  {
    ScanFirstMatch(Split(result, Newline), i);
  }

  /** A first line that carries no value is passed over, and the second line's value is returned. */
  lemma ExtractFallsThrough(first: Bytes, second: Bytes)
    requires Newline !in first && Newline !in second
    requires !Carries(first) && Carries(second)
    ensures ExtractRequestId(first + [Newline] + second) == ValueOf(second)
  {
    SplitWithoutSeparator(second, Newline);
    SplitAfterPiece(first, Newline, second);
    ScanFirstMatch([first, second], 1);
  }

  /** The extracted id has no white space at either end and contains no colon. */
  lemma {:induction false} ExtractRequestIdShape(lines: seq<Bytes>)
    ensures var r := ScanLines(lines);
            && (r != [] ==> !IsSpace(r[0]) && !IsSpace(r[|r| - 1]))
            && Colon !in r
    decreases |lines|
  {
    if lines != [] {
      if Carries(lines[0]) {
        var parts := Split(lines[0], Colon);
        var last := parts[|parts| - 1];
        var r := TrimSpace(last);
        var lead: nat :| SpaceAround(last, r, lead);
        assert forall b :: b in r ==> b in last;
      } else {
        ExtractRequestIdShape(lines[1..]);
      }
    }
  }

  // Worked examples: "RequestID: abc-123" on its own, and after a line that
  // mentions the key but has no colon.

  const SampleKey: Bytes := [82, 101, 113, 117, 101, 115, 116, 73, 68]  // "RequestID"
  const SampleTail: Bytes := [32, 97, 98, 99, 45, 49, 50, 51]           // " abc-123"
  const SampleValue: Bytes := [97, 98, 99, 45, 49, 50, 51]              // "abc-123"

  lemma SampleMentionsKey(rest: Bytes)
    ensures MentionsKey(SampleKey + rest)
  {
    var line := SampleKey + rest;
    assert ToLower(line)[..9] == RequestIdKey;
    assert OccursAt(ToLower(line), RequestIdKey, 0);
  }

  lemma SamplePieces()
    ensures Split(SampleKey + [Colon] + SampleTail, Colon) == [SampleKey, SampleTail]
  {
    SplitAfterPiece(SampleKey, Colon, SampleTail);
    SplitWithoutSeparator(SampleTail, Colon);
  }

  /** One space in front of a value with no white space at its ends is trimmed away. */
  lemma TrimSpaceOfPadded(v: Bytes)
    requires v != [] && !IsSpace(v[0]) && !IsSpace(v[|v| - 1])
    ensures TrimSpace([Space] + v) == v
  {
    var s := [Space] + v;
    assert s[1..] == v;
    assert TrimLeft(s) == TrimLeft(v);
  }

  lemma SampleTrimmed()
    ensures TrimSpace(SampleTail) == SampleValue
  {
    assert SampleTail == [Space] + SampleValue;
    TrimSpaceOfPadded(SampleValue);
  }

  lemma SampleValueOf()
    ensures Carries(SampleKey + [Colon] + SampleTail)
    ensures ValueOf(SampleKey + [Colon] + SampleTail) == SampleValue
  {
    SampleMentionsKey([Colon] + SampleTail);
    assert SampleKey + [Colon] + SampleTail == SampleKey + ([Colon] + SampleTail);
    SamplePieces();
    SampleTrimmed();
  }

  /** "RequestID: abc-123" gives "abc-123". */
  lemma ExtractSingleLine()
    ensures ExtractRequestId(SampleKey + [Colon] + SampleTail) == SampleValue
  {
    SplitWithoutSeparator(SampleKey + [Colon] + SampleTail, Newline);
    SampleValueOf();
  }

  lemma SampleWithoutColonSkipped()
    ensures !Carries(SampleKey + SampleTail)
  {
    SplitWithoutSeparator(SampleKey + SampleTail, Colon);
  }

  /** "RequestID abc-123\nRequestID: abc-123" also gives "abc-123": the first line has no colon and is skipped. */
  lemma ExtractSkipsLineWithoutColon()
    ensures ExtractRequestId(SampleKey + SampleTail + [Newline] + SampleKey + [Colon] + SampleTail) == SampleValue
  {
    var first := SampleKey + SampleTail;
    var second := SampleKey + [Colon] + SampleTail;
    assert SampleKey + SampleTail + [Newline] + SampleKey + [Colon] + SampleTail == first + [Newline] + second;
    SampleWithoutColonSkipped();
    SampleValueOf();
    ExtractFallsThrough(first, second);
  }

  // ---------------------------------------------------------------------------
  // getStatusIcon

  const HourglassIcon: Bytes := [226, 143, 179]   // U+23F3, pending
  const CycleIcon: Bytes := [240, 159, 148, 132]  // U+1F504, running
  const CheckIcon: Bytes := [226, 156, 133]       // U+2705, completed
  const CrossIcon: Bytes := [226, 157, 140]       // U+274C, failed
  const QuestionIcon: Bytes := [226, 157, 147]    // U+2753, anything else

  /** `getStatusIcon`: defined for every string; unknown statuses get the question mark. */
  function StatusIcon(status: Bytes): (icon: Bytes)
    ensures icon in {HourglassIcon, CycleIcon, CheckIcon, CrossIcon, QuestionIcon}
    ensures icon == QuestionIcon <==>
              status !in {Pending.Name(), Running.Name(), Completed.Name(), Failed.Name()}
  {
    if status == Pending.Name() then HourglassIcon
    else if status == Running.Name() then CycleIcon
    else if status == Completed.Name() then CheckIcon
    else if status == Failed.Name() then CrossIcon
    else QuestionIcon
  }

  /** The four lifecycle states get four different icons, none of them the question mark. */
  lemma IconsTellStatusesApart(a: Status, b: Status)
    ensures StatusIcon(a.Name()) != QuestionIcon
    ensures StatusIcon(a.Name()) == StatusIcon(b.Name()) ==> a == b
  {
    NamesDistinct(Pending, Running);
    NamesDistinct(Pending, Completed);
    NamesDistinct(Pending, Failed);
    NamesDistinct(Running, Completed);
    NamesDistinct(Running, Failed);
    NamesDistinct(Completed, Failed);
  }

  // ---------------------------------------------------------------------------
  // generateShortID

  /**
    The short task id: the first eight bytes of the UUID text, upper-cased. It is
    the UUID prefix up to letter case, and contains no lower-case ASCII letter.
  */
  function ShortId(uuidText: Bytes): (id: Bytes)
    requires |uuidText| >= 8
    ensures |id| == 8
    ensures ToLower(id) == ToLower(uuidText[..8])
    ensures forall k :: 0 <= k < 8 ==> !(97 <= id[k] <= 122)
  {
    ToUpper(uuidText[..8])
  }
}
