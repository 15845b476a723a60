/** Reading the model's CORRECT/INCORRECT reply (`check_answer` in
    quiz_game.py and quiz_voice.py). */
module Verdict {
  import opened Text

  const CorrectWord: string := "CORRECT"
  const IncorrectWord: string := "INCORRECT"

  /** Whether the answer was judged correct, and the encouraging message
      that followed the verdict word. */
  datatype Judgement = Judgement(correct: bool, message: string)

  /** The reply is correct when, ignoring ASCII case and surrounding
      whitespace, it begins with CORRECT; the message is whatever follows the
      first space of the stripped reply. */
  function Judge(reply: string): (j: Judgement)
    ensures j.correct <==> OpensWithCorrect(Strip(reply))
    ensures ' ' !in Strip(reply) ==> j.message == ""
    ensures ' ' in Strip(reply) ==> FollowsFirstSpace(Strip(reply), j.message)
  {
    var r := Strip(reply);
    var correct := StartsWith(Upper(r), CorrectWord);
    UpperStartsWith(r, CorrectWord);
    assert correct <==> OpensWithCorrect(r);
    Judgement(correct, AfterFirstSpace(r))
  }

  /** `m` is what follows the first space of `r`. */
  predicate FollowsFirstSpace(r: string, m: string)
  {
    var k := |r| - |m| - 1;
    0 <= k && r[k] == ' ' && ' ' !in r[..k] && r[k + 1..] == m
  }

  /** `r.split(' ', 1)[1]` when there is a space, else the empty string: what
      follows the first space. */
  function AfterFirstSpace(r: string): (m: string)
    ensures ' ' !in r ==> m == ""
    ensures ' ' in r ==> FollowsFirstSpace(r, m)
  {
    if ' ' in r then r[IndexOf(r, ' ') + 1..] else ""
  }

  /** The first seven characters of `r`, upper-cased, spell CORRECT. */
  predicate OpensWithCorrect(r: string)
  {
    |r| >= |CorrectWord| && forall k :: 0 <= k < |CorrectWord| ==> UpperChar(r[k]) == CorrectWord[k]
  }

  /** An upper-cased string starts with an all-capital word exactly when its
      characters, upper-cased one by one, spell the word. */
  lemma UpperStartsWith(r: string, word: string)
    ensures StartsWith(Upper(r), word)
        <==> |r| >= |word| && forall k :: 0 <= k < |word| ==> UpperChar(r[k]) == word[k]
  {
    var u := Upper(r);
    assert forall k :: 0 <= k < |r| ==> u[k] == UpperChar(r[k]);
    if |r| >= |word| {
      assert forall k :: 0 <= k < |word| ==> u[..|word|][k] == u[k];
    }
  }

  /** A reply opening with INCORRECT, in any case, is never read as correct:
      the prefix test cannot be fooled by the longer word. */
  lemma IncorrectIsNotCorrect(reply: string)
    requires StartsWith(Upper(Strip(reply)), IncorrectWord)
    ensures !Judge(reply).correct
  {
    var r := Strip(reply);
    assert Upper(r)[0] == IncorrectWord[0];
    assert UpperChar(r[0]) == 'I';
  }

  /** Any casing of CORRECT at the head of a reply is accepted, whatever follows it. */
  lemma AnyCaseAccepted(word: string, rest: string)
    requires |word| == |CorrectWord|
    requires forall k :: 0 <= k < |word| ==> UpperChar(word[k]) == CorrectWord[k]
    ensures Judge(word + rest).correct
  {
    var s := word + rest;
    assert UpperChar(word[0]) == 'C' && UpperChar(word[6]) == 'T';
    assert !IsSpace(word[0]) && !IsSpace(word[|word| - 1]);
    assert s[..|word|] == word;
    StripKeepsHead(s, word);
    var r := Strip(s);
    assert forall k :: 0 <= k < |CorrectWord| ==> r[k] == r[..|word|][k] == word[k];
  }

  /** Splitting off the message undoes composing a reply from a space-free
      verdict word, one space and a message. */
  lemma ComposedReply(word: string, message: string)
    requires |word| > 0 && !IsSpace(word[0]) && ' ' !in word
    requires |message| > 0 && !IsSpace(message[|message| - 1])
    ensures Judge(word + " " + message).message == message
  {
    var s := word + " " + message;
    assert s[0] == word[0] && s[|s| - 1] == message[|message| - 1];
    StripNoop(s);
    assert s[|word|] == ' ';
    var k := IndexOf(s, ' ');
    assert s[..|word|] == word;
    assert k == |word|;
    assert s[k + 1..] == message;
  }
}
