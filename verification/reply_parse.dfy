/** Reading the question, answer and hint out of the model's multi-line reply
    (`generate_question` in quiz_game.py and quiz_voice.py). */
module ReplyParse {
  import opened Text
  import opened Results

  const QuestionTag: string := "QUESTION:"
  const AnswerTag: string := "ANSWER:"
  const HintTag: string := "HINT:"

  /** The three fields of a generated question; a field whose tag never
      appeared stays empty. */
  datatype Card = Card(question: string, answer: string, hint: string)

  /** The lines of a reply: the stripped text split on newlines. There is
      always one line, no line holds a newline, and gluing them back with
      newlines gives the stripped text. */
  function Lines(text: string): (ls: seq<string>)
    ensures |ls| > 0
    ensures forall i :: 0 <= i < |ls| ==> '\n' !in ls[i]
    ensures Join(ls, '\n') == Strip(text)
  {
    Split(Strip(text), '\n')
  }

  /** What a tagged line contributes: the line with every occurrence of the
      tag removed, then stripped. */
  function FieldValue(line: string, tag: string): string
    requires |tag| > 0
  {
    Strip(RemoveAll(line, tag))
  }

  /** The last line that starts with `tag`, if any. */
  function LastTagged(lines: seq<string>, tag: string): Option<string>
    decreases |lines|
  {
    if |lines| == 0 then None
    else if StartsWith(lines[|lines| - 1], tag) then Some(lines[|lines| - 1])
    else LastTagged(lines[..|lines| - 1], tag)
  }

  /** Reference definition of one field: the value of the last line that
      starts with `tag`, or the empty string when no line does. */
  function FieldOf(lines: seq<string>, tag: string): string
    requires |tag| > 0
  {
    match LastTagged(lines, tag)
    case None => ""
    case Some(line) => FieldValue(line, tag)
  }

  /** `LastTagged` finds nothing exactly when no line carries the tag, and
      otherwise the tagged line that no later line overrides. */
  lemma {:induction false} LastTaggedIsLast(lines: seq<string>, tag: string)
    ensures LastTagged(lines, tag).None? <==> forall i :: 0 <= i < |lines| ==> !StartsWith(lines[i], tag)
    ensures forall i :: 0 <= i < |lines| && StartsWith(lines[i], tag)
                        && (forall j :: i < j < |lines| ==> !StartsWith(lines[j], tag))
                        ==> LastTagged(lines, tag) == Some(lines[i])
    decreases |lines|
  {
    if |lines| > 0 {
      var n := |lines| - 1;
      var init := lines[..n];
      LastTaggedIsLast(init, tag);
      assert forall i :: 0 <= i < |init| ==> init[i] == lines[i];
    }
  }

  /** A field nobody tagged stays empty; otherwise the last tagged line decides it. */
  lemma FieldOfLastTagged(lines: seq<string>, tag: string)
    requires |tag| > 0
    ensures (forall i :: 0 <= i < |lines| ==> !StartsWith(lines[i], tag)) ==> FieldOf(lines, tag) == ""
    ensures forall i :: 0 <= i < |lines| && StartsWith(lines[i], tag)
                        && (forall j :: i < j < |lines| ==> !StartsWith(lines[j], tag))
                        ==> FieldOf(lines, tag) == FieldValue(lines[i], tag)
  {
    LastTaggedIsLast(lines, tag);
  }

  /** No line can start with two different tags, so the if/elif order of the
      parse loop never hides a field. */
  lemma TagsExclusive(line: string)
    ensures !(StartsWith(line, QuestionTag) && StartsWith(line, AnswerTag))
    ensures !(StartsWith(line, QuestionTag) && StartsWith(line, HintTag))
    ensures !(StartsWith(line, AnswerTag) && StartsWith(line, HintTag))
  {
    if StartsWith(line, QuestionTag) { assert line[0] == 'Q'; }
    if StartsWith(line, AnswerTag) { assert line[0] == 'A'; }
  }

  /** The card a reply denotes, field by field. */
  function ParseOf(text: string): Card
  {
    var lines := Lines(text);
    Card(FieldOf(lines, QuestionTag), FieldOf(lines, AnswerTag), FieldOf(lines, HintTag))
  }

  /** One more line either overrides a field (it carries the tag) or leaves it alone. */
  lemma FieldOfSnoc(lines: seq<string>, i: nat, tag: string)
    requires |tag| > 0 && i < |lines|
    ensures FieldOf(lines[..i + 1], tag)
         == if StartsWith(lines[i], tag) then FieldValue(lines[i], tag) else FieldOf(lines[..i], tag)
  {
    assert lines[..i + 1][..i] == lines[..i];
  }

  /** The parse loop of `generate_question`: one pass over the lines, each
      tagged line overwriting its field. */
  method ParseReply(text: string) returns (card: Card)
    ensures card == ParseOf(text)
  {
    var lines := Lines(text);
    var question, answer, hint := "", "", "";
    var i := 0;
    while i < |lines|
      invariant 0 <= i <= |lines|
      invariant question == FieldOf(lines[..i], QuestionTag)
      invariant answer == FieldOf(lines[..i], AnswerTag)
      invariant hint == FieldOf(lines[..i], HintTag)
    {
      var line := lines[i];
      FieldOfSnoc(lines, i, QuestionTag);
      FieldOfSnoc(lines, i, AnswerTag);
      FieldOfSnoc(lines, i, HintTag);
      TagsExclusive(line);
      if StartsWith(line, QuestionTag) {
        question := FieldValue(line, QuestionTag);
      } else if StartsWith(line, AnswerTag) {
        answer := FieldValue(line, AnswerTag);
      } else if StartsWith(line, HintTag) {
        hint := FieldValue(line, HintTag);
      }
      i := i + 1;
    }
    assert lines[..i] == lines;
    card := Card(question, answer, hint);
  }

  /** Last write wins: lines appended after a reply override a field exactly
      when one of them carries its tag. */
  lemma LaterLinesOverride(a: seq<string>, b: seq<string>, tag: string)
    requires |tag| > 0
    ensures (exists j :: 0 <= j < |b| && StartsWith(b[j], tag)) ==> FieldOf(a + b, tag) == FieldOf(b, tag)
    ensures (forall j :: 0 <= j < |b| ==> !StartsWith(b[j], tag)) ==> FieldOf(a + b, tag) == FieldOf(a, tag)
  {
    LastTaggedAppend(a, b, tag);
  }

  /** The line-level fact behind `LaterLinesOverride`. */
  lemma {:induction false} LastTaggedAppend(a: seq<string>, b: seq<string>, tag: string)
    ensures LastTagged(a + b, tag) == if LastTagged(b, tag).Some? then LastTagged(b, tag) else LastTagged(a, tag)
    ensures LastTagged(b, tag).None? <==> forall j :: 0 <= j < |b| ==> !StartsWith(b[j], tag)
    decreases |b|
  {
    LastTaggedIsLast(b, tag);
    if |b| > 0 {
      var b' := b[..|b| - 1];
      assert (a + b)[..|a + b| - 1] == a + b';
      assert (a + b)[|a + b| - 1] == b[|b| - 1];
      LastTaggedAppend(a, b', tag);
    } else {
      assert a + b == a;
    }
  }

  /** The usual case: a tagged line whose remainder does not repeat the tag
      yields the stripped text after the tag. */
  lemma TaggedLineValue(line: string, tag: string)
    requires |tag| > 0
    requires StartsWith(line, tag)
    requires !Contains(line[|tag|..], tag)
    ensures FieldValue(line, tag) == Strip(line[|tag|..])
  {
    RemoveAllAbsent(line[|tag|..], tag);
  }

  /** The field a three-line reply gives, read from the bottom up. */
  lemma FieldOfThree(l1: string, l2: string, l3: string, tag: string)
    requires |tag| > 0
    ensures FieldOf([l1, l2, l3], tag)
         == if StartsWith(l3, tag) then FieldValue(l3, tag)
            else if StartsWith(l2, tag) then FieldValue(l2, tag)
            else if StartsWith(l1, tag) then FieldValue(l1, tag)
            else ""
  {
    assert [l1, l2, l3][..2] == [l1, l2];
    assert [l1, l2][..1] == [l1];
    assert [l1][..0] == [];
    assert LastTagged([l1], tag) == if StartsWith(l1, tag) then Some(l1) else None;
    assert LastTagged([l1, l2], tag) == if StartsWith(l2, tag) then Some(l2) else LastTagged([l1], tag);
    assert LastTagged([l1, l2, l3], tag) == if StartsWith(l3, tag) then Some(l3) else LastTagged([l1, l2], tag);
  }

  /** A line made of a tag and a remainder without that tag yields the stripped remainder. */
  lemma TagPlusText(tag: string, t: string)
    requires |tag| > 0 && !Contains(t, tag)
    ensures StartsWith(tag + t, tag)
    ensures FieldValue(tag + t, tag) == Strip(t)
  {
    assert (tag + t)[..|tag|] == tag;
    assert (tag + t)[|tag|..] == t;
    TaggedLineValue(tag + t, tag);
  }

  /** Three lines in the prompted format parse into their three fields. */
  lemma PromptedLines(q: string, a: string, h: string)
    requires !Contains(q, QuestionTag) && !Contains(a, AnswerTag) && !Contains(h, HintTag)
    ensures FieldOf([QuestionTag + q, AnswerTag + a, HintTag + h], QuestionTag) == Strip(q)
    ensures FieldOf([QuestionTag + q, AnswerTag + a, HintTag + h], AnswerTag) == Strip(a)
    ensures FieldOf([QuestionTag + q, AnswerTag + a, HintTag + h], HintTag) == Strip(h)
  {
    var l1, l2, l3 := QuestionTag + q, AnswerTag + a, HintTag + h;
    TagPlusText(QuestionTag, q);
    TagPlusText(AnswerTag, a);
    TagPlusText(HintTag, h);
    TagsExclusive(l1);
    TagsExclusive(l2);
    TagsExclusive(l3);
    FieldOfThree(l1, l2, l3, QuestionTag);
    FieldOfThree(l1, l2, l3, AnswerTag);
    FieldOfThree(l1, l2, l3, HintTag);
  }

  /** Joining three newline-free lines with newlines and splitting the
      stripped result gives the three lines back. */
  lemma ThreeLines(l1: string, l2: string, l3: string)
    requires '\n' !in l1 && '\n' !in l2 && '\n' !in l3
    requires |l1| > 0 && !IsSpace(l1[0])
    requires |l3| > 0 && !IsSpace(l3[|l3| - 1])
    ensures Lines(l1 + "\n" + l2 + "\n" + l3) == [l1, l2, l3]
  {
    var text := l1 + "\n" + l2 + "\n" + l3;
    assert text[0] == l1[0] && text[|text| - 1] == l3[|l3| - 1];
    StripNoop(text);
    assert Join([l3], '\n') == l3;
    assert Join([l2, l3], '\n') == l2 + "\n" + l3;
    assert Join([l1, l2, l3], '\n') == l1 + "\n" + (l2 + "\n" + l3);
    assert Join([l1, l2, l3], '\n') == text;
    SplitJoin([l1, l2, l3], '\n');
  }

  /** The reply format the prompt asks for. */
  function Prompted(q: string, a: string, h: string): string
  {
    QuestionTag + q + "\n" + AnswerTag + a + "\n" + HintTag + h
  }

  /** The prompted format with a hint that does not end in whitespace. */
  lemma WellFormedTrimmed(q: string, a: string, h: string)
    requires '\n' !in q && '\n' !in a && '\n' !in h
    requires !Contains(q, QuestionTag) && !Contains(a, AnswerTag) && !Contains(h, HintTag)
    requires h == [] || !IsSpace(h[|h| - 1])
    ensures ParseOf(Prompted(q, a, h)) == Card(Strip(q), Strip(a), Strip(h))
  {
    var l1, l2, l3 := QuestionTag + q, AnswerTag + a, HintTag + h;
    assert '\n' !in l1 && '\n' !in l2 && '\n' !in l3;
    assert l1[0] == 'Q';
    assert l3[|l3| - 1] == if h == [] then ':' else h[|h| - 1];
    var text := Prompted(q, a, h);
    assert text == l1 + "\n" + l2 + "\n" + l3;
    ThreeLines(l1, l2, l3);
    var lines := Lines(text);
    assert lines == [l1, l2, l3];
    PromptedLines(q, a, h);
    assert ParseOf(text) == Card(FieldOf(lines, QuestionTag), FieldOf(lines, AnswerTag), FieldOf(lines, HintTag));
  }

  /** The parse sees a reply only through its stripped text. */
  lemma ParseSeesStripped(t1: string, t2: string)
    requires Strip(t1) == Strip(t2)
    ensures ParseOf(t1) == ParseOf(t2)
  {
    assert Lines(t1) == Lines(t2);
  }

  /** Whitespace after the hint is whitespace at the end of the reply; a
      trimmed hint leaves the reply ending in non-whitespace. */
  lemma PromptedPadded(q: string, a: string, h0: string, w: string)
    requires h0 == [] || !IsSpace(h0[|h0| - 1])
    ensures Prompted(q, a, h0 + w) == Prompted(q, a, h0) + w
    ensures !IsSpace(Prompted(q, a, h0)[|Prompted(q, a, h0)| - 1])
  {
    var front := QuestionTag + q + "\n" + AnswerTag + a + "\n" + HintTag;
    assert Prompted(q, a, h0 + w) == front + (h0 + w);
    assert Prompted(q, a, h0) == front + h0;
    assert front[|front| - 1] == ':';
  }

  /** A reply in the prompted three-line format, without stray tags, parses
      into its three stripped fields. */
  lemma WellFormedReply(q: string, a: string, h: string)
    requires '\n' !in q && '\n' !in a && '\n' !in h
    requires !Contains(q, QuestionTag) && !Contains(a, AnswerTag) && !Contains(h, HintTag)
    ensures ParseOf(Prompted(q, a, h)) == Card(Strip(q), Strip(a), Strip(h))
  {
    var h0, w := TrimTrailing(h);
    assert '\n' !in h0 by {
      assert forall k :: 0 <= k < |h0| ==> h0[k] == h[k];
    }
    ContainsWithin(h0, w, HintTag);
    WellFormedTrimmed(q, a, h0);
    PromptedPadded(q, a, h0, w);
    StripTrailingSpace(Prompted(q, a, h0), w);
    ParseSeesStripped(Prompted(q, a, h), Prompted(q, a, h0));
  }
}
