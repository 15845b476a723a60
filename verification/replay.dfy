/** Deciding whether the player wants another round, from a typed reply
    (quiz_game.py) or a spoken one (quiz_voice.py), and whether a spoken
    answer was understood at all (quiz_voice.py, quiz_simple.py). */
module Replay {
  import opened Text
  import opened Results

  /** The exact replies, after trimming and lower-casing, that mean "yes" when typed. */
  const TypedYes: set<string> := {"yes", "y", "yeah", "sure", "ok"}

  /** The words whose appearance anywhere in a lower-cased transcript means "yes". */
  const SpokenYes: seq<string> := ["yes", "yeah", "sure", "ok"]

  /** The transcription service's reply for speech it could not make out. */
  const Unclear: string := "UNCLEAR"

  /** The typed play-again test: the whole trimmed, lower-cased reply must
      be one of the accepted words. A typed "yes" is short, and apart from
      the single letter "y" it would also pass the spoken test. */
  function TypedAgain(input: string): (r: bool)
    ensures r <==> exists w :: w in TypedYes && SpellsIgnoringCase(Strip(input), w)
    ensures r ==> 1 <= |Strip(input)| <= 4
    ensures r && Lower(Strip(input)) != "y" ==> SpokenAgain(Some(input))
  {
    var w := Lower(Strip(input));
    assert w in TypedYes ==> OccursAt(w, w, 0);
    TypedYesSpelled(Strip(input));
    w in TypedYes
  }

  /** Membership of the lower-cased reply is spelling an accepted word in any case. */
  lemma TypedYesSpelled(s: string)
    ensures Lower(s) in TypedYes <==> exists w :: w in TypedYes && SpellsIgnoringCase(s, w)
  {
    LowerSpells(s);
  }

  /** `s` spells the lower-case word `w`, letter by letter, in any case. */
  predicate SpellsIgnoringCase(s: string, w: string)
  {
    |s| == |w| && forall k :: 0 <= k < |w| ==> LowerChar(s[k]) == w[k]
  }

  /** The words a string spells ignoring case are exactly its lower-casing. */
  lemma LowerSpells(s: string)
    ensures forall w :: SpellsIgnoringCase(s, w) <==> Lower(s) == w
  {
    forall w | SpellsIgnoringCase(s, w)
      ensures Lower(s) == w
    {
      assert forall k :: 0 <= k < |w| ==> Lower(s)[k] == w[k];
    }
  }

  /** Some accepted word occurs inside an already lower-cased transcript. */
  predicate MentionsYes(heard: string)
  {
    exists w :: w in SpokenYes && Contains(heard, w)
  }

  /** The spoken play-again test: no recording means stop; otherwise the
      lower-cased transcript need only contain one of the words. */
  function SpokenAgain(transcript: Option<string>): (r: bool)
    ensures transcript.None? ==> !r
    ensures transcript.Some? ==> (r <==> MentionsYes(Lower(Strip(transcript.value))))
  {
    match transcript
    case None => false
    case Some(t) =>
      var heard := Lower(Strip(t));
      MentionsOneOfFour(heard);
      Contains(heard, "yes") || Contains(heard, "yeah") || Contains(heard, "sure") || Contains(heard, "ok")
  }

  /** The chain of `in` tests of the source is the search over the word list. */
  lemma MentionsOneOfFour(heard: string)
    ensures MentionsYes(heard)
        <==> Contains(heard, "yes") || Contains(heard, "yeah") || Contains(heard, "sure") || Contains(heard, "ok")
  {
    assert SpokenYes[0] == "yes" && SpokenYes[1] == "yeah" && SpokenYes[2] == "sure" && SpokenYes[3] == "ok";
  }

  /** A spoken answer is checked only when the transcript is neither empty
      nor the UNCLEAR marker. */
  predicate Understood(transcript: string)
  {
    transcript != "" && transcript != Unclear
  }

  /** quiz_simple.py's guard: the answer is sent for checking only when audio
      was recorded and its (stripped) transcript was understood. */
  function SimpleChecksAnswer(transcript: Option<string>): (r: bool)
    ensures transcript.None? ==> !r
    ensures r ==> transcript.Some? && Strip(transcript.value) != [] && Strip(transcript.value) != Unclear
    ensures transcript.Some? && Strip(transcript.value) != [] && Strip(transcript.value) != Unclear ==> r
  {
    match transcript
    case None => false
    case Some(t) => Understood(Strip(t))
  }

  /** Saying more around an accepted word never turns a spoken "yes" into a "no". */
  lemma SpokenYesSurvivesContext(before: string, heard: string, after: string)
    requires MentionsYes(heard)
    ensures MentionsYes(before + heard + after)
  {
    var w :| w in SpokenYes && Contains(heard, w);
    ContainsExtended(before, heard, after, w);
  }

  /** The substring test accepts words that merely contain "ok", where the
      typed test does not. */
  lemma SubstringAcceptsBook()
    ensures SpokenAgain(Some("book"))
    ensures !TypedAgain("book")
  {
    BookIsPlain();
    assert OccursAt("book", "ok", 2);
  }

  /** "book" needs neither trimming nor lower-casing. */
  lemma BookIsPlain()
    ensures Lower(Strip("book")) == "book"
  {
    var s := "book";
    assert !IsSpace(s[0]) && !IsSpace(s[3]);
    StripNoop(s);
    assert forall k :: 0 <= k < 4 ==> Lower(s)[k] == LowerChar(s[k]) == s[k];
  }
}
