/** The normaliser that turns the free-text "required info" into one bullet per line. */
module Bullets {
  import opened Text

  const Marker: string := "- "

  /** One stripped, non-empty line as a bullet: kept as it is when it already
      opens with the marker, otherwise prefixed with it. */
  function Bullet(line: string): (r: string)
    ensures StartsWith(r, Marker)
    ensures EndsWith(r, line) && |r| <= |line| + |Marker|
    ensures StartsWith(line, Marker) ==> r == line
    ensures !StartsWith(line, Marker) ==> r == Marker + line
  {
    if StartsWith(line, Marker) then line else Marker + line
  }

  /** The stripped lines that are not empty, in their original order. */
  function DropEmpty(lines: seq<string>): (r: seq<string>)
    ensures |r| <= |lines|
    ensures forall l :: l in r ==> l in lines && l != []
  {
    if lines == [] then []
    else (if lines[0] == [] then [] else [lines[0]]) + DropEmpty(lines[1..])
  }

  /** Dropping removes the empty lines and only them: every non-empty line
      is kept, as often as it occurs. */
  lemma {:induction false} DropEmptyKeepsNonEmpty(lines: seq<string>)
    ensures multiset(DropEmpty(lines)) == multiset(lines)[[] := 0]
  {
    if lines != [] {
      DropEmptyKeepsNonEmpty(lines[1..]);
      assert lines == [lines[0]] + lines[1..];
    }
  }

  /** What the loop appends for a list of stripped lines. */
  function BulletLines(lines: seq<string>): seq<string> {
    if lines == [] then []
    else (if lines[0] == [] then [] else [Bullet(lines[0])]) + BulletLines(lines[1..])
  }

  /** The text the normaliser returns, as a function of its input. */
  function Normalized(text: string): string {
    JoinLines(BulletLines(StripAll(Lines(text))))
  }

  /** Python's `normalize_bullets`: strip every line, skip the empty ones,
      bullet the rest and join them with line breaks. */
  method NormalizeBullets(text: string) returns (result: string)
    ensures result == Normalized(text)
  {
    var lines := StripAll(Lines(text));
    var normalized: seq<string> := [];
    var i := 0;
    while i < |lines|
      invariant 0 <= i <= |lines|
      invariant normalized == BulletLines(lines[..i])
    {
      var line := lines[i];
      BulletLinesStep(lines, i);
      if line == [] {
        i := i + 1;
        continue;
      }
      if StartsWith(line, Marker) {
        assert Bullet(line) == line;
        normalized := normalized + [line];
      } else {
        assert Bullet(line) == Marker + line;
        normalized := normalized + [Marker + line];
      }
      i := i + 1;
    }
    assert lines[..i] == lines;
    result := JoinLines(normalized);
  }

  lemma BulletLinesStep(lines: seq<string>, i: nat)
    requires i < |lines|
    ensures BulletLines(lines[..i + 1])
            == BulletLines(lines[..i]) + (if lines[i] == [] then [] else [Bullet(lines[i])])
  {
    assert lines[..i + 1] == lines[..i] + [lines[i]];
    BulletLinesAppend(lines[..i], lines[i]);
  }

  lemma {:induction false} BulletLinesAppend(lines: seq<string>, line: string)
    ensures BulletLines(lines + [line])
            == BulletLines(lines) + (if line == [] then [] else [Bullet(line)])
  {
    if lines != [] {
      assert (lines + [line])[1..] == lines[1..] + [line];
      BulletLinesAppend(lines[1..], line);
    }
  }

  /** Dropping empty lines distributes over concatenation, so it keeps the
      order of the lines it keeps. */
  lemma {:induction false} DropEmptyAppend(a: seq<string>, b: seq<string>)
    ensures DropEmpty(a + b) == DropEmpty(a) + DropEmpty(b)
  {
    if a != [] {
      assert (a + b)[1..] == a[1..] + b;
      DropEmptyAppend(a[1..], b);
    } else {
      assert a + b == b;
    }
  }

  /** One output line per non-empty line, in the original order, each the
      bullet form of that line. */
  lemma {:induction false} BulletLinesCorrespond(lines: seq<string>)
    ensures |BulletLines(lines)| == |DropEmpty(lines)|
    ensures forall i :: 0 <= i < |BulletLines(lines)| ==>
              BulletLines(lines)[i] == Bullet(DropEmpty(lines)[i])
  {
    if lines != [] {
      BulletLinesCorrespond(lines[1..]);
      var head := if lines[0] == [] then [] else [Bullet(lines[0])];
      var kept := if lines[0] == [] then [] else [lines[0]];
      var out := BulletLines(lines[1..]);
      var rest := DropEmpty(lines[1..]);
      assert BulletLines(lines) == head + out;
      assert DropEmpty(lines) == kept + rest;
      forall i | 0 <= i < |BulletLines(lines)|
        ensures BulletLines(lines)[i] == Bullet(DropEmpty(lines)[i])
      {
        if i >= |head| {
          assert BulletLines(lines)[i] == out[i - |head|];
          assert DropEmpty(lines)[i] == rest[i - |head|];
        }
      }
    }
  }

  /** The bullet of a stripped, break-free, non-empty line is itself stripped and break-free. */
  lemma BulletShape(x: string)
    requires x != [] && Strip(x) == x && '\n' !in x
    ensures Strip(Bullet(x)) == Bullet(x) && '\n' !in Bullet(x)
  {
    if !StartsWith(x, Marker) {
      PrefixedStripped(x);
      PrefixedBreakFree(x);
    }
  }

  lemma PrefixedStripped(x: string)
    requires x != [] && Strip(x) == x
    ensures Strip(Marker + x) == Marker + x
  {
    var b := Marker + x;
    assert !IsSpace(x[|x| - 1]);
    assert b[|b| - 1] == x[|x| - 1];
    StripFixed(b);
  }

  lemma PrefixedBreakFree(x: string)
    requires '\n' !in x
    ensures '\n' !in Marker + x
  {
    var b := Marker + x;
    forall i | 0 <= i < |b| ensures b[i] != '\n' {
      if i >= 2 {
        assert b[i] == x[i - 2];
      }
    }
  }

  /** The shape of every emitted line, given stripped break-free input lines. */
  lemma {:induction false} BulletLinesShape(lines: seq<string>)
    requires forall l :: l in lines ==> Strip(l) == l && '\n' !in l
    ensures forall l :: l in BulletLines(lines) ==>
              StartsWith(l, Marker) && Strip(l) == l && '\n' !in l
  {
    if lines != [] {
      assert lines[0] in lines;
      assert forall l :: l in lines[1..] ==> l in lines;
      BulletLinesShape(lines[1..]);
      if lines[0] != [] {
        BulletShape(lines[0]);
      }
    }
  }

  /** Bulleting lines that are already stripped bullets changes nothing. */
  lemma {:induction false} BulletLinesOfBullets(lines: seq<string>)
    requires forall i :: 0 <= i < |lines| ==> StartsWith(lines[i], Marker)
    ensures BulletLines(lines) == lines
  {
    if lines != [] {
      assert StartsWith(lines[0], Marker);
      BulletLinesOfBullets(lines[1..]);
    }
  }

  lemma StrippedLines(text: string)
    ensures forall l :: l in StripAll(Lines(text)) ==> Strip(l) == l && '\n' !in l
  {
    var ls := Lines(text);
    forall l | l in StripAll(ls) ensures Strip(l) == l && '\n' !in l {
      var i :| 0 <= i < |ls| && l == Strip(ls[i]);
      assert ls[i] in ls;
      StripIdempotent(ls[i]);
      StripKeepsBreakFree(ls[i]);
    }
  }

  /** Every line of the normalised text opens with the marker (so none is
      empty), carries no surrounding whitespace, and the lines are exactly
      the bullets of the non-blank input lines. */
  lemma NormalizedShape(text: string)
    ensures Lines(Normalized(text)) == BulletLines(StripAll(Lines(text)))
    ensures forall l :: l in Lines(Normalized(text)) ==> StartsWith(l, Marker) && Strip(l) == l
  {
    var out := BulletLines(StripAll(Lines(text)));
    StrippedLines(text);
    BulletLinesShape(StripAll(Lines(text)));
    if out != [] {
      assert out[|out| - 1] in out;
    }
    LinesJoin(out);
  }

  /** Normalising twice is normalising once. */
  lemma NormalizeIdempotent(text: string)
    ensures Normalized(Normalized(text)) == Normalized(text)
  {
    var out := BulletLines(StripAll(Lines(text)));
    NormalizedShape(text);
    assert StripAll(out) == out;
    assert forall i :: 0 <= i < |out| ==> out[i] in out;
    BulletLinesOfBullets(out);
  }

  /** The normalised text is empty exactly when every input line is blank. */
  lemma NormalizedEmpty(text: string)
    ensures Normalized(text) == [] <==> forall l :: l in Lines(text) ==> Strip(l) == []
  {
    var ls := StripAll(Lines(text));
    var out := BulletLines(ls);
    NormalizedShape(text);
    assert Normalized(text) == [] <==> out == [];
    BulletLinesCorrespond(ls);
    DropEmptyNone(ls);
    assert (forall l :: l in Lines(text) ==> Strip(l) == [])
       <==> (forall i :: 0 <= i < |ls| ==> ls[i] == []) by {
      if forall i :: 0 <= i < |ls| ==> ls[i] == [] {
        forall l | l in Lines(text) ensures Strip(l) == [] {
          var i :| 0 <= i < |Lines(text)| && Lines(text)[i] == l;
          assert ls[i] == Strip(l);
        }
      }
    }
  }

  /** Nothing survives dropping the empty lines exactly when every line is empty. */
  lemma {:induction false} DropEmptyNone(lines: seq<string>)
    ensures DropEmpty(lines) == [] <==> forall i :: 0 <= i < |lines| ==> lines[i] == []
  {
    if lines != [] {
      DropEmptyNone(lines[1..]);
      assert forall i :: 1 <= i < |lines| ==> lines[i] == lines[1..][i - 1];
    }
  }
}
