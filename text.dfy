/** String primitives the application relies on: Python's `str.strip`,
    `str.splitlines`, `str.startswith` and `"\n".join`, restated over
    `seq<char>` with a fixed whitespace set and '\n' as the only line break. */
module Text {

  /** The characters `strip` removes in this model. */
  predicate IsSpace(c: char) {
    c == ' ' || c == '\t' || c == '\n' || c == '\r' || c == '\U{0B}' || c == '\U{0C}'
    || c == '\U{A0}' || c == '\U{3000}'
  }

  predicate StartsWith(s: string, prefix: string) {
    |prefix| <= |s| && s[..|prefix|] == prefix
  }

  predicate EndsWith(s: string, suffix: string) {
    |suffix| <= |s| && s[|s| - |suffix|..] == suffix
  }

  /** Removes the maximal whitespace prefix. */
  function TrimLeft(s: string): (r: string)
    ensures |r| <= |s|
    ensures r == [] || !IsSpace(r[0])
    ensures forall i :: 0 <= i < |s| - |r| ==> IsSpace(s[i])
  {
    if s != [] && IsSpace(s[0]) then TrimLeft(s[1..]) else s
  }

  /** Removes the maximal whitespace suffix. */
  function TrimRight(s: string): (r: string)
    ensures |r| <= |s|
    ensures r == [] || !IsSpace(r[|r| - 1])
    ensures forall i :: |r| <= i < |s| ==> IsSpace(s[i])
  {
    if s != [] && IsSpace(s[|s| - 1]) then TrimRight(s[..|s| - 1]) else s
  }

  /** What `TrimLeft` keeps is a suffix of its input. */
  lemma {:induction false} TrimLeftIsSuffix(s: string)
    ensures TrimLeft(s) == s[|s| - |TrimLeft(s)|..]
  {
    if s != [] && IsSpace(s[0]) {
      TrimLeftIsSuffix(s[1..]);
    }
  }

  /** What `TrimRight` keeps is a prefix of its input. */
  lemma {:induction false} TrimRightIsPrefix(s: string)
    ensures TrimRight(s) == s[..|TrimRight(s)|]
  {
    if s != [] && IsSpace(s[|s| - 1]) {
      TrimRightIsPrefix(s[..|s| - 1]);
    }
  }

  /** Python's `s.strip()`: the text without leading and trailing whitespace. */
  function Strip(s: string): (r: string)
    ensures r == [] <==> forall i :: 0 <= i < |s| ==> IsSpace(s[i])
    ensures r != [] ==> !IsSpace(r[0]) && !IsSpace(r[|r| - 1])
  {
    TrimRightIsPrefix(s);
    var t := TrimRight(s);
    TrimLeftIsSuffix(t);
    var r := TrimLeft(t);
    assert r != [] ==> r[|r| - 1] == t[|t| - 1];
    r
  }

  /** Stripping only removes characters: what remains is a piece of the input. */
  lemma StripIsSlice(s: string)
    ensures |TrimRight(s)| >= |Strip(s)|
    ensures Strip(s) == s[|TrimRight(s)| - |Strip(s)|..|TrimRight(s)|]
  {
    TrimRightIsPrefix(s);
    TrimLeftIsSuffix(TrimRight(s));
  }

  lemma StripKeepsBreakFree(s: string)
    requires '\n' !in s
    ensures '\n' !in Strip(s)
  {
    StripIsSlice(s);
    var k := |TrimRight(s)| - |Strip(s)|;
    forall i | 0 <= i < |Strip(s)| ensures Strip(s)[i] != '\n' {
      assert Strip(s)[i] == s[k + i];
    }
  }

  /** An all-whitespace text trims to nothing. */
  lemma {:induction false} TrimRightAllSpace(s: string)
    requires forall i :: 0 <= i < |s| ==> IsSpace(s[i])
    ensures TrimRight(s) == []
  {
    if s != [] {
      TrimRightAllSpace(s[..|s| - 1]);
    }
  }

  /** A text with no whitespace at either end is its own strip. */
  lemma StripFixed(s: string)
    requires s == [] || (!IsSpace(s[0]) && !IsSpace(s[|s| - 1]))
    ensures Strip(s) == s
  {
  }

  lemma StripIdempotent(s: string)
    ensures Strip(Strip(s)) == Strip(s)
  {
    StripFixed(Strip(s));
  }

  lemma {:induction false} TrimRightAfterPrefix(p: string, s: string)
    requires p != [] && !IsSpace(p[|p| - 1])
    ensures TrimRight(p + s) == p + TrimRight(s)
    decreases |s|
  {
    if s == [] {
      assert p + s == p;
    } else if IsSpace(s[|s| - 1]) {
      assert (p + s)[..|p + s| - 1] == p + s[..|s| - 1];
      TrimRightAfterPrefix(p, s[..|s| - 1]);
    }
  }

  /** Stripping a text that opens with a word keeps the word and trims only the tail. */
  lemma StripAfterPrefix(p: string, s: string)
    requires p != [] && !IsSpace(p[0]) && !IsSpace(p[|p| - 1])
    ensures Strip(p + s) == p + TrimRight(s)
  {
    TrimRightAfterPrefix(p, s);
  }

  lemma StripOfTrimRight(s: string)
    ensures Strip(TrimRight(s)) == Strip(s)
  {
  }

  /** Leading whitespace never survives a strip. */
  lemma StripAfterSpace(c: char, s: string)
    requires IsSpace(c)
    ensures Strip([c] + s) == Strip(s)
  {
    var t := TrimRight([c] + s);
    if Strip(s) == [] {
      assert forall i :: 0 <= i < |[c] + s| ==> IsSpace(([c] + s)[i]);
    } else {
      TrimRightAfterSpace(c, s);
      assert ([c] + TrimRight(s))[1..] == TrimRight(s);
    }
  }

  lemma {:induction false} TrimRightAfterSpace(c: char, s: string)
    requires IsSpace(c) && TrimRight(s) != []
    ensures TrimRight([c] + s) == [c] + TrimRight(s)
    decreases |s|
  {
    if IsSpace(s[|s| - 1]) {
      assert ([c] + s)[..|[c] + s| - 1] == [c] + s[..|s| - 1];
      TrimRightAfterSpace(c, s[..|s| - 1]);
    }
  }

  /** The pieces of `s` between '\n' characters; a text with n line breaks has n + 1 pieces. */
  function Split(s: string): (r: seq<string>)
    ensures |r| >= 1
    ensures forall l :: l in r ==> '\n' !in l
  {
    if s == [] then [[]]
    else
      var rest := Split(s[1..]);
      if s[0] == '\n' then [[]] + rest
      else
        assert rest[0] in rest;
        [[s[0]] + rest[0]] + rest[1..]
  }

  /** Python's `text.splitlines()` with '\n' as the only line break: the
      pieces between line breaks, where a final line break does not open
      an empty last line and the empty text has no lines. */
  function Lines(text: string): (r: seq<string>)
    ensures forall l :: l in r ==> '\n' !in l
    ensures r == [] <==> text == []
  {
    if text == [] then []
    else if text[|text| - 1] == '\n' then Split(text[..|text| - 1])
    else Split(text)
  }

  /** Python's `"\n".join(lines)`. */
  function JoinLines(lines: seq<string>): string {
    if |lines| == 0 then []
    else if |lines| == 1 then lines[0]
    else lines[0] + "\n" + JoinLines(lines[1..])
  }

  /** Every element stripped: the list comprehension `[line.strip() for line in ...]`. */
  function StripAll(lines: seq<string>): (r: seq<string>)
    ensures |r| == |lines|
    ensures forall i :: 0 <= i < |r| ==> r[i] == Strip(lines[i])
  {
    seq(|lines|, i requires 0 <= i < |lines| => Strip(lines[i]))
  }

  /** Stripping every line of two leading lines and the rest. */
  lemma StripAllFront(x: string, y: string, rest: seq<string>)
    ensures StripAll([x, y] + rest) == [Strip(x), Strip(y)] + StripAll(rest)
  {
    var l := [x, y] + rest;
    var r := [Strip(x), Strip(y)] + StripAll(rest);
    assert |StripAll(l)| == |r|;
    forall i | 0 <= i < |r| ensures StripAll(l)[i] == r[i] {
      if i >= 2 {
        assert l[i] == rest[i - 2];
      }
    }
  }

  lemma {:induction false} SplitSingle(s: string)
    requires '\n' !in s
    ensures Split(s) == [s]
  {
    if s != [] {
      SplitSingle(s[1..]);
      assert [s[0]] + s[1..] == s;
    }
  }

  /** A line break splits the text into the pieces before it and the pieces after it. */
  lemma {:induction false} SplitAtBreak(x: string, y: string)
    ensures Split(x + "\n" + y) == Split(x) + Split(y)
  {
    if x == [] {
      assert x + "\n" + y == ['\n'] + y;
      assert (['\n'] + y)[1..] == y;
    } else {
      assert (x + "\n" + y)[1..] == x[1..] + "\n" + y;
      SplitAtBreak(x[1..], y);
    }
  }

  /** Joining the pieces restores the text. */
  lemma {:induction false} JoinSplit(s: string)
    ensures JoinLines(Split(s)) == s
  {
    if s != [] {
      var rest := Split(s[1..]);
      JoinSplit(s[1..]);
      if s[0] == '\n' {
        assert JoinLines([[]] + rest) == [] + "\n" + JoinLines(rest) by {
          assert ([[]] + rest)[1..] == rest;
        }
      } else if |rest| == 1 {
        assert [s[0]] + s[1..] == s;
      } else {
        var r := [[s[0]] + rest[0]] + rest[1..];
        assert r[1..] == rest[1..];
        assert JoinLines(rest) == rest[0] + "\n" + JoinLines(rest[1..]);
        assert [s[0]] + s[1..] == s;
      }
    }
  }

  /** Splitting a join of break-free pieces gives the pieces back. */
  lemma {:induction false} SplitJoin(lines: seq<string>)
    requires |lines| >= 1
    requires forall l :: l in lines ==> '\n' !in l
    ensures Split(JoinLines(lines)) == lines
  {
    if |lines| == 1 {
      SplitSingle(lines[0]);
    } else {
      assert lines[0] in lines;
      assert forall l :: l in lines[1..] ==> l in lines;
      SplitJoin(lines[1..]);
      SplitAtBreak(lines[0], JoinLines(lines[1..]));
      SplitSingle(lines[0]);
      assert [lines[0]] + lines[1..] == lines;
    }
  }

  lemma {:induction false} JoinLinesLastChar(lines: seq<string>)
    requires |lines| >= 1 && lines[|lines| - 1] != []
    ensures var j := JoinLines(lines); var l := lines[|lines| - 1];
            j != [] && j[|j| - 1] == l[|l| - 1]
  {
    if |lines| > 1 {
      assert lines[1..][|lines[1..]| - 1] == lines[|lines| - 1];
      JoinLinesLastChar(lines[1..]);
    }
  }

  /** `splitlines` undoes `"\n".join` when no piece holds a line break and the
      last piece is not empty. */
  lemma LinesJoin(lines: seq<string>)
    requires forall l :: l in lines ==> '\n' !in l
    requires lines == [] || lines[|lines| - 1] != []
    ensures Lines(JoinLines(lines)) == lines
  {
    if lines != [] {
      JoinLinesLastChar(lines);
      var l := lines[|lines| - 1];
      assert l in lines;
      assert l[|l| - 1] in l;
      SplitJoin(lines);
    }
  }

  /** A break-free first line followed by a line break and more text. */
  lemma LinesAfterLine(x: string, b: string)
    requires '\n' !in x && b != []
    ensures Lines(x + "\n" + b) == [x] + Lines(b)
  {
    SplitSingle(x);
    var t := x + "\n" + b;
    if b[|b| - 1] == '\n' {
      assert t[..|t| - 1] == x + "\n" + b[..|b| - 1];
      SplitAtBreak(x, b[..|b| - 1]);
    } else {
      SplitAtBreak(x, b);
    }
  }
}
