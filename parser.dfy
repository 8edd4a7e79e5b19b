/** The parser that splits the model's reply into a subject and a body. */
module Parser {
  import opened Text

  /** Subject markers in the order they are tried: full-width colon, then ASCII colon. */
  const SubjectMarkers: seq<string> := ["件名：", "件名:"]
  const BodyMarkers: seq<string> := ["本文：", "本文:"]
  /** The subject used when the reply carries none. */
  const Placeholder: string := "（自動生成）"

  datatype Reply = Reply(subject: string, body: string)

  predicate IsSubjectLine(line: string) {
    StartsWith(line, SubjectMarkers[0]) || StartsWith(line, SubjectMarkers[1])
  }

  predicate IsBodyLine(line: string) {
    StartsWith(line, BodyMarkers[0]) || StartsWith(line, BodyMarkers[1])
  }

  /** The subject a marker line carries: what follows the first marker that
      matches, stripped. */
  function SubjectOf(line: string): string
    requires IsSubjectLine(line)
  {
    if StartsWith(line, SubjectMarkers[0]) then Strip(line[|SubjectMarkers[0]|..])
    else Strip(line[|SubjectMarkers[1]|..])
  }

  /** No line is both a subject-marker line and a body-marker line. */
  lemma MarkersDisjoint(line: string)
    ensures !(IsSubjectLine(line) && IsBodyLine(line))
  {
  }

  /** The stripped lines the scan walks over. */
  function ScannedLines(text: string): seq<string> {
    StripAll(Lines(text))
  }

  /** The values of `subject` and `body` when the scan over `lines` ends,
      starting with `subject`: a subject-marker line replaces the subject and
      the scan goes on; the first body-marker line takes the stripped join of
      every later line as the body and ends the scan. */
  function Scan(lines: seq<string>, subject: string): Reply {
    if lines == [] then Reply(subject, [])
    else if IsSubjectLine(lines[0]) then Scan(lines[1..], SubjectOf(lines[0]))
    else if IsBodyLine(lines[0]) then Reply(subject, Strip(JoinLines(lines[1..])))
    else Scan(lines[1..], subject)
  }

  /** Python's `parse_output`, as a function of the reply text. The subject is
      never empty, and the body is empty only when the whole reply is blank. */
  function Parse(text: string): (r: Reply)
    ensures r.subject != []
    ensures r.body == [] ==> Strip(text) == []
  {
    var scanned := Scan(ScannedLines(text), []);
    if scanned.subject == [] then Reply(Placeholder, Strip(text))
    else if scanned.body == [] then Reply(scanned.subject, Strip(text))
    else scanned
  }

  /** The scan as the source writes it: a loop over the stripped lines that
      `continue`s past subject lines and `break`s at the first body line. */
  method ParseOutput(text: string) returns (subject: string, body: string)
    ensures Reply(subject, body) == Parse(text)
    ensures subject != []
  {
    subject := [];
    body := [];
    var lines := ScannedLines(text);
    var idx := 0;
    while idx < |lines|
      invariant 0 <= idx <= |lines|
      invariant body == []
      invariant Scan(lines, []) == Scan(lines[idx..], subject)
    {
      var line := lines[idx];
      if IsSubjectLine(line) {
        if StartsWith(line, SubjectMarkers[0]) {
          subject := Strip(line[|SubjectMarkers[0]|..]);
        } else {
          subject := Strip(line[|SubjectMarkers[1]|..]);
        }
        idx := idx + 1;
        continue;
      }
      if IsBodyLine(line) {
        body := Strip(JoinLines(lines[idx + 1..]));
        assert lines[idx..][1..] == lines[idx + 1..];
        break;
      }
      idx := idx + 1;
    }
    assert Scan(lines, []) == Reply(subject, body);
    if subject == [] {
      return Placeholder, Strip(text);
    }
    if body == [] {
      return subject, Strip(text);
    }
  }

  // ----- An independent description of what the scan finds -----

  /** Index of the first body-marker line, or `|lines|` when there is none. */
  function FirstBodyLine(lines: seq<string>): (k: nat)
    ensures k <= |lines|
    ensures forall j :: 0 <= j < k ==> !IsBodyLine(lines[j])
    ensures k < |lines| ==> IsBodyLine(lines[k])
  {
    if lines == [] || IsBodyLine(lines[0]) then 0
    else 1 + FirstBodyLine(lines[1..])
  }

  /** The subject carried by the LAST subject-marker line of `lines`, or
      `initial` when there is none; computed from the end backwards. */
  function LastSubject(lines: seq<string>, initial: string): string {
    if lines == [] then initial
    else if IsSubjectLine(lines[|lines| - 1]) then SubjectOf(lines[|lines| - 1])
    else LastSubject(lines[..|lines| - 1], initial)
  }

  /** The body candidate: the stripped join of the lines after the body marker at `k`. */
  function BodyAfter(lines: seq<string>, k: nat): string {
    if k < |lines| then Strip(JoinLines(lines[k + 1..])) else []
  }

  /** Reading one more line at the front of `lines` only changes the starting subject. */
  lemma {:induction false} LastSubjectFront(line: string, lines: seq<string>, initial: string)
    ensures LastSubject([line] + lines, initial)
            == LastSubject(lines, NextSubject(line, initial))
    decreases |lines|
  {
    var all := [line] + lines;
    if lines != [] {
      assert all[|all| - 1] == lines[|lines| - 1];
      assert all[..|all| - 1] == [line] + lines[..|lines| - 1];
      LastSubjectFront(line, lines[..|lines| - 1], initial);
    } else {
      assert all[..|all| - 1] == [];
    }
  }

  /** The line at the front is not a body line: the scan moves past it. */
  lemma ScanPastLine(lines: seq<string>, subject: string)
    requires lines != [] && !IsBodyLine(lines[0])
    ensures Scan(lines, subject) == Scan(lines[1..], NextSubject(lines[0], subject))
    ensures FirstBodyLine(lines) == 1 + FirstBodyLine(lines[1..])
  {
  }

  function NextSubject(line: string, subject: string): string {
    if IsSubjectLine(line) then SubjectOf(line) else subject
  }

  /** The forward scan agrees with the backward description: it ends with the
      subject of the last marker line before the first body line, and the
      body candidate after that body line. */
  lemma {:induction false} ScanFinds(lines: seq<string>, subject: string)
    ensures var k := FirstBodyLine(lines);
            Scan(lines, subject) == Reply(LastSubject(lines[..k], subject), BodyAfter(lines, k))
  {
    if lines == [] {
      assert lines[..0] == [];
    } else if IsBodyLine(lines[0]) {
      MarkersDisjoint(lines[0]);
      assert lines[..0] == [];
    } else {
      var x := lines[0];
      var rest := lines[1..];
      var k' := FirstBodyLine(rest);
      ScanPastLine(lines, subject);
      ScanFinds(rest, NextSubject(x, subject));
      assert lines[..1 + k'] == [x] + rest[..k'];
      LastSubjectFront(x, rest[..k'], subject);
      BodyAfterFront(lines, k');
    }
  }

  lemma BodyAfterFront(lines: seq<string>, k: nat)
    requires lines != []
    ensures BodyAfter(lines, k + 1) == BodyAfter(lines[1..], k)
  {
    if k + 1 < |lines| {
      assert lines[k + 2..] == lines[1..][k + 1..];
    }
  }

  /** `Parse` in terms of the independent description. */
  lemma ParseFinds(text: string)
    ensures var lines := ScannedLines(text);
            var k := FirstBodyLine(lines);
            var candidate := LastSubject(lines[..k], []);
            var body := BodyAfter(lines, k);
            Parse(text) == if candidate == [] then Reply(Placeholder, Strip(text))
                           else if body == [] then Reply(candidate, Strip(text))
                           else Reply(candidate, body)
  {
    ScanFinds(ScannedLines(text), []);
  }

  /** The last marker line decides, even over earlier marker lines. */
  lemma {:induction false} LastSubjectIsLastMarker(lines: seq<string>, initial: string, i: nat)
    requires i < |lines| && IsSubjectLine(lines[i])
    requires forall j :: i < j < |lines| ==> !IsSubjectLine(lines[j])
    ensures LastSubject(lines, initial) == SubjectOf(lines[i])
  {
    if i < |lines| - 1 {
      LastSubjectIsLastMarker(lines[..|lines| - 1], initial, i);
    }
  }

  lemma {:induction false} LastSubjectWithoutMarker(lines: seq<string>, initial: string)
    requires forall j :: 0 <= j < |lines| ==> !IsSubjectLine(lines[j])
    ensures LastSubject(lines, initial) == initial
  {
    if lines != [] {
      LastSubjectWithoutMarker(lines[..|lines| - 1], initial);
    }
  }

  /** The subject is the stripped remainder of the last subject-marker line
      before the first body-marker line, or the placeholder when that
      remainder is empty. */
  lemma ParseSubjectIsLastMarker(text: string, i: nat)
    requires i < FirstBodyLine(ScannedLines(text))
    requires IsSubjectLine(ScannedLines(text)[i])
    requires forall j :: i < j < FirstBodyLine(ScannedLines(text)) ==>
               !IsSubjectLine(ScannedLines(text)[j])
    ensures var s := SubjectOf(ScannedLines(text)[i]);
            Parse(text).subject == if s == [] then Placeholder else s
  {
    var lines := ScannedLines(text);
    var k := FirstBodyLine(lines);
    ParseFinds(text);
    LastSubjectIsLastMarker(lines[..k], [], i);
  }

  /** Without a subject-marker line before the first body-marker line, the
      reply is the placeholder and the whole stripped text. */
  lemma ParseWithoutSubject(text: string)
    requires forall j :: 0 <= j < FirstBodyLine(ScannedLines(text)) ==>
               !IsSubjectLine(ScannedLines(text)[j])
    ensures Parse(text) == Reply(Placeholder, Strip(text))
  {
    var lines := ScannedLines(text);
    ParseFinds(text);
    LastSubjectWithoutMarker(lines[..FirstBodyLine(lines)], []);
  }

  // ----- Round trip -----

  /** The body as the parser reads it back from the lines after the marker. */
  function BodyText(b: string): string {
    Strip(JoinLines(StripAll(Lines(b))))
  }

  lemma SubjectMarkerShape(m: string)
    requires m in SubjectMarkers
    ensures |m| == 3 && !IsSpace(m[0]) && !IsSpace(m[2]) && '\n' !in m
    ensures IsSubjectLine(m) && (StartsWith(m, SubjectMarkers[0]) <==> m == SubjectMarkers[0])
  {
  }

  lemma BodyMarkerShape(m: string)
    requires m in BodyMarkers
    ensures |m| == 3 && !IsSpace(m[0]) && !IsSpace(m[2]) && '\n' !in m
    ensures IsBodyLine(m) && !IsSubjectLine(m)
  {
  }

  /** The lines of a reply in the requested format, where the body-marker
      line may carry text `t` after the marker. */
  lemma ReplyLines(m: string, bm: string, s: string, t: string, b: string)
    requires m in SubjectMarkers && bm in BodyMarkers
    requires '\n' !in s && '\n' !in t && b != []
    ensures Lines(m + s + "\n" + bm + t + "\n" + b) == [m + s, bm + t] + Lines(b)
  {
    SubjectMarkerShape(m);
    BodyMarkerShape(bm);
    assert '\n' !in m + s;
    assert '\n' !in bm + t;
    LinesAfterLine(bm + t, b);
    assert m + s + "\n" + bm + t + "\n" + b == (m + s) + "\n" + (bm + t + "\n" + b);
    LinesAfterLine(m + s, bm + t + "\n" + b);
  }

  /** The subject line of a reply in the requested format, once stripped. */
  lemma SubjectLineRead(m: string, s: string)
    requires m in SubjectMarkers
    ensures IsSubjectLine(Strip(m + s)) && SubjectOf(Strip(m + s)) == Strip(s)
  {
    SubjectMarkerShape(m);
    StripAfterPrefix(m, s);
    var first := m + TrimRight(s);
    assert first[..3] == m;
    assert first[3..] == TrimRight(s);
    StripOfTrimRight(s);
  }

  /** A body-marker line, whatever follows the marker, is read as a body line. */
  lemma BodyLineRead(bm: string, t: string)
    requires bm in BodyMarkers
    ensures IsBodyLine(Strip(bm + t)) && !IsSubjectLine(Strip(bm + t))
  {
    BodyMarkerShape(bm);
    StripAfterPrefix(bm, t);
    var line := bm + TrimRight(t);
    assert line[..3] == bm;
    assert line[0] == bm[0];
  }

  /** Text on the body-marker line itself is not part of the body: for a
      single-line subject `s` that is not blank, any single-line `t` after
      the body marker and a body `b` whose lines are not all blank,
      `Parse(m + s + "\n" + bm + t + "\n" + b)` is the stripped subject and
      the stripped join of the stripped lines of `b` alone. */
  lemma ParseDropsBodyMarkerLine(m: string, bm: string, s: string, t: string, b: string)
    requires m in SubjectMarkers && bm in BodyMarkers
    requires '\n' !in s && Strip(s) != [] && '\n' !in t
    requires BodyText(b) != []
    ensures Parse(m + s + "\n" + bm + t + "\n" + b) == Reply(Strip(s), BodyText(b))
  {
    var text := m + s + "\n" + bm + t + "\n" + b;
    assert b != [];
    ReplyLines(m, bm, s, t, b);
    var lines := ScannedLines(text);
    StripAllFront(m + s, bm + t, Lines(b));
    SubjectLineRead(m, s);
    BodyLineRead(bm, t);
    assert lines[1..][1..] == StripAll(Lines(b));
    assert Scan(lines, []) == Scan(lines[1..], Strip(s));
    assert Scan(lines[1..], Strip(s)) == Reply(Strip(s), BodyText(b));
  }

  /** A reply in the format the prompts ask for parses back to its parts:
      for either form of each marker, a single-line subject `s` that is not
      blank and a body `b` whose lines are not all blank,
      `Parse(m + s + "\n" + bm + "\n" + b)` is the stripped subject and the
      stripped join of the stripped body lines. */
  lemma ParseRoundTrip(m: string, bm: string, s: string, b: string)
    requires m in SubjectMarkers && bm in BodyMarkers
    requires '\n' !in s && Strip(s) != []
    requires BodyText(b) != []
    ensures Parse(m + s + "\n" + bm + "\n" + b) == Reply(Strip(s), BodyText(b))
  {
    var t: string := [];
    ParseDropsBodyMarkerLine(m, bm, s, t, b);
    assert m + s + "\n" + bm + t + "\n" + b == m + s + "\n" + bm + "\n" + b;
  }
}
