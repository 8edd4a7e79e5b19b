/** The two instruction templates sent to the model. */
module Prompts {
  import opened Text
  import opened Parser

  /** Opening of the generation prompt; it ends with a blank line, so the
      format example starts on a line of its own. */
  const GenerateIntro: string :=
    "あなたはビジネスメール作成アシスタントです。"
    + "以下の条件に基づき日本語のメールを作成してください。"
    + "必ず次の形式で出力してください。\n\n"

  /** Opening of the rewrite prompt, also ending with a blank line. */
  const RewriteIntro: string :=
    "あなたはビジネスメールの編集アシスタントです。"
    + "以下のメール本文を指示に従って書き換えてください。"
    + "件名は基本維持し、明らかに不自然なら軽く整える程度にしてください。"
    + "必ず次の形式で出力してください。\n\n"

  /** What the signature line shows when no signature was given. */
  const NoSignature: string := "（なし）"

  /** The example reply from the format instructions of both prompts. */
  const FormatExample: string := "件名：...\n本文：\n...\n\n"

  /** The body lines of the format example read back as "...". */
  lemma ExampleBodyText()
    ensures BodyText("...\n\n") == "..."
  {
    var dots := "...";
    var b := dots + "\n\n";
    assert b == "...\n\n";
    assert b[..|b| - 1] == dots + "\n" + [];
    SplitAtBreak(dots, []);
    SplitSingle(dots);
    assert Lines(b) == [dots, []];
    StripAllFront(dots, [], []);
    StripFixed(dots);
    assert StripAll(Lines(b)) == [dots, []];
    assert JoinLines([dots, []]) == dots + "\n";
    assert TrimRight(dots + "\n") == dots;
    assert Strip(dots + "\n") == TrimLeft(dots) == dots;
    assert BodyText(b) == Strip(JoinLines([dots, []]));
  }

  lemma FormatExampleParts()
    ensures FormatExample == SubjectMarkers[0] + "..." + "\n" + BodyMarkers[0] + "\n" + "...\n\n"
  {
  }

  /** The format block the prompts show the model is one the parser accepts:
      its subject is "..." and its body is "...". */
  lemma FormatExampleParses()
    ensures Parse(FormatExample) == Reply("...", "...")
  {
    StripFixed("...");
    ExampleBodyText();
    ParseRoundTrip(SubjectMarkers[0], BodyMarkers[0], "...", "...\n\n");
    FormatExampleParts();
  }

  /** The signature as the prompt shows it: the text itself, or the
      placeholder when it is empty. */
  function SignatureOrNone(signature: string): (r: string)
    ensures r != []
    ensures signature != [] ==> r == signature
    ensures signature == [] ==> r == NoSignature
  {
    if signature == [] then NoSignature else signature
  }

  /** The signature line reads as the placeholder exactly when no signature
      was given, or when the signature is the placeholder text itself. */
  lemma SignaturePlaceholder(signature: string)
    ensures SignatureOrNone(signature) == NoSignature <==> signature == [] || signature == NoSignature
  {
  }

  /** The lines after the format block of the generation prompt. */
  function Conditions(relationship: string, purpose: string, tone: string,
                      requiredInfo: string, signature: string): string
  {
    "宛先の関係性: " + relationship + "\n"
    + "目的: " + purpose + "\n"
    + "トーン: " + tone + "\n"
    + "必須情報（箇条書き）:\n"
    + requiredInfo + "\n"
    + SignatureLine(signature)
  }

  function SignatureLine(signature: string): string {
    "署名: " + SignatureOrNone(signature) + "\n"
  }

  /** Python's `build_prompt`. The prompt opens with the instructions and the
      format block the parser reads back, and its last line is the signature
      line. */
  function BuildPrompt(relationship: string, purpose: string, tone: string,
                       requiredInfo: string, signature: string): (r: string)
    ensures StartsWith(r, GenerateIntro + FormatExample)
    ensures EndsWith(r, SignatureLine(signature))
  {
    var head := GenerateIntro + FormatExample;
    var tail := Conditions(relationship, purpose, tone, requiredInfo, signature);
    assert (head + tail)[..|head|] == head;
    assert (head + tail)[|head + tail| - |SignatureLine(signature)|..] == SignatureLine(signature);
    head + tail
  }

  /** The current mail as the rewrite prompt presents it. */
  function CurrentMail(subject: string, body: string): string {
    "件名: " + subject + "\n" + "本文:\n" + body + "\n"
  }

  /** Python's `build_rewrite_prompt`. The prompt opens with the instructions
      and the format block, then the instruction, and ends with the current
      mail. */
  function BuildRewritePrompt(subject: string, body: string, instruction: string): (r: string)
    ensures StartsWith(r, RewriteIntro + FormatExample)
    ensures EndsWith(r, CurrentMail(subject, body))
  {
    var head := RewriteIntro + FormatExample;
    var tail := "指示: " + instruction + "\n" + CurrentMail(subject, body);
    assert (head + tail)[..|head|] == head;
    assert (head + tail)[|head + tail| - |CurrentMail(subject, body)|..] == CurrentMail(subject, body);
    head + tail
  }

  lemma LinesWithFinalBreak(body: string)
    requires body != [] && body[|body| - 1] != '\n'
    ensures Lines(body + "\n") == Lines(body)
  {
    assert (body + "\n")[..|body + "\n"| - 1] == body;
  }

  /** The current mail in the rewrite prompt is itself in a format the parser
      accepts (the ASCII-colon forms of both markers): were the model to send
      it back unchanged, the parser would read back the same stripped subject
      and body. */
  lemma CurrentMailParses(subject: string, body: string)
    requires '\n' !in subject && subject != [] && Strip(subject) == subject
    requires Strip(body) == body && BodyText(body) != []
    ensures Parse(CurrentMail(subject, body)) == Reply(subject, BodyText(body))
  {
    assert body != [];
    LinesWithFinalBreak(body);
    assert BodyText(body + "\n") == BodyText(body);
    StripAfterSpace(' ', subject);
    assert [' '] + subject == " " + subject;
    ParseRoundTrip(SubjectMarkers[1], BodyMarkers[1], " " + subject, body + "\n");
    CurrentMailParts(subject, body);
  }

  lemma CurrentMailParts(subject: string, body: string)
    ensures CurrentMail(subject, body)
            == SubjectMarkers[1] + (" " + subject) + "\n" + BodyMarkers[1] + "\n" + (body + "\n")
  {
    var m := SubjectMarkers[1];
    var bm := BodyMarkers[1];
    assert "件名: " == m + " ";
    assert "本文:\n" == bm + "\n";
    calc {
      CurrentMail(subject, body);
      (m + " ") + subject + "\n" + (bm + "\n") + body + "\n";
      m + (" " + subject) + "\n" + bm + "\n" + (body + "\n");
    }
  }
}
