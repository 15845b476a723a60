/** The score keeping of the quiz (`play_round` and `run` in quiz_game.py
    and quiz_voice.py): one question per round, one point per correct
    verdict, and a grade at the end. */
module Scoring {
  import opened Text
  import opened Results
  import opened Verdict
  import opened Replay

  /** The game's two counters. */
  datatype Tally = Tally(score: nat, asked: nat)

  /** The counters can never show more points than questions. */
  predicate Consistent(t: Tally)
  {
    t.score <= t.asked
  }

  /** What a round amounts to for the game: whether it earned a point and
      whether the player wants to go on. */
  datatype Outcome = Outcome(scored: bool, again: bool)

  /** A typed round: the typed answer, the model's verdict reply, and the
      typed reply to "Play another round?". */
  datatype TypedRound = TypedRound(answer: string, verdict: string, again: string)

  /** A spoken round: the transcript of the answer (None when nothing was
      recorded), the model's verdict reply, and the transcript of the
      play-again reply (None when nothing was recorded). */
  datatype SpokenRound = SpokenRound(answer: Option<string>, verdict: string, again: Option<string>)

  /** quiz_game.py's round: an empty answer ends the round without a point
      and the game goes on; otherwise the verdict decides the point and the
      typed reply whether to go on. */
  function TypedOutcome(r: TypedRound): (o: Outcome)
    ensures Strip(r.answer) == "" ==> o == Outcome(false, true)
    ensures o.scored ==> Strip(r.answer) != "" && Judge(r.verdict).correct
    ensures !o.again ==> Strip(r.answer) != "" && !TypedAgain(r.again)
    ensures Strip(r.answer) != "" ==> (o.scored <==> Judge(r.verdict).correct) && (o.again <==> TypedAgain(r.again))
  {
    if Strip(r.answer) == "" then Outcome(false, true)
    else Outcome(Judge(r.verdict).correct, TypedAgain(r.again))
  }

  /** quiz_voice.py's round: no recording, or a transcript that is empty or
      UNCLEAR, ends the round without a point and the game goes on. */
  function SpokenOutcome(r: SpokenRound): (o: Outcome)
    ensures r.answer.None? ==> o == Outcome(false, true)
    ensures r.answer.Some? && !Understood(Strip(r.answer.value)) ==> o == Outcome(false, true)
    ensures o.scored ==> r.answer.Some? && Understood(Strip(r.answer.value)) && Judge(r.verdict).correct
    ensures !o.again ==> r.answer.Some? && Understood(Strip(r.answer.value)) && !SpokenAgain(r.again)
    ensures r.answer.Some? && Understood(Strip(r.answer.value)) ==>
              (o.scored <==> Judge(r.verdict).correct) && (o.again <==> SpokenAgain(r.again))
  {
    match r.answer
    case None => Outcome(false, true)
    case Some(t) =>
      if !Understood(Strip(t)) then Outcome(false, true)
      else Outcome(Judge(r.verdict).correct, SpokenAgain(r.again))
  }

  /** The two voice scripts agree on when an answer is judged: a spoken round
      scores only when quiz_simple.py would check the same transcript, and
      then exactly when the verdict says correct. */
  lemma GuardsAgree(r: SpokenRound)
    ensures SpokenOutcome(r).scored ==> SimpleChecksAnswer(r.answer)
    ensures SimpleChecksAnswer(r.answer) ==> SpokenOutcome(r).scored == Judge(r.verdict).correct
    ensures !SimpleChecksAnswer(r.answer) ==> SpokenOutcome(r) == Outcome(false, true)
  {
  }

  /** The counters after one round: one more question, one more point only
      if the round scored. */
  function Step(t: Tally, o: Outcome): (t': Tally)
    ensures t'.asked == t.asked + 1
    ensures t.score <= t'.score <= t.score + 1
    ensures t'.score == t.score + 1 <==> o.scored
    ensures Consistent(t) ==> Consistent(t')
  {
    Tally(t.score + if o.scored then 1 else 0, t.asked + 1)
  }

  /** Number of rounds that earned a point. */
  function Points(os: seq<Outcome>): (n: nat)
    ensures n <= |os|
  {
    if |os| == 0 then 0 else (if os[0].scored then 1 else 0) + Points(os[1..])
  }

  /** How a game went: the final counters, how many rounds were played, and
      whether the player declined to go on (rather than the rounds running out). */
  datatype Game = Game(tally: Tally, played: nat, declined: bool)

  /** The `while playing` loop of `run`: rounds are played in order until one
      says not to go on. */
  function Play(t: Tally, rounds: seq<Outcome>): (g: Game)
    ensures g.played <= |rounds|
    ensures g.tally.asked == t.asked + g.played
    ensures g.tally.score == t.score + Points(rounds[..g.played])
    ensures Consistent(t) ==> Consistent(g.tally)
    ensures forall i :: 0 <= i < g.played - 1 ==> rounds[i].again
    ensures g.declined <==> g.played > 0 && !rounds[g.played - 1].again
    ensures !g.declined ==> g.played == |rounds|
    decreases |rounds|
  {
    if |rounds| == 0 then Game(t, 0, false)
    else
      var t' := Step(t, rounds[0]);
      if !rounds[0].again then
        assert rounds[..1] == [rounds[0]];
        Game(t', 1, true)
      else
        var g := Play(t', rounds[1..]);
        assert rounds[..g.played + 1] == [rounds[0]] + rounds[1..][..g.played];
        Game(g.tally, g.played + 1, g.declined)
  }

  /** The end-of-game message tiers. */
  datatype Tier = Champion | GreatJob | GoodEffort

  /** The grade of `run`: none when no question was asked; otherwise by the
      percentage of correct answers, at least 80 for champion, at least 60
      for great job. The body compares integers; the contract states the
      same thresholds on the exact percentage. */
  function Grade(t: Tally): (g: Option<Tier>)
    ensures g.None? <==> t.asked == 0
    ensures g == Some(Champion) <==> t.asked > 0 && Percent(t) >= 80.0
    ensures g == Some(GreatJob) <==> t.asked > 0 && 60.0 <= Percent(t) < 80.0
    ensures g == Some(GoodEffort) <==> t.asked > 0 && Percent(t) < 60.0
  {
    if t.asked == 0 then None
    else
      PercentScaled(t);
      if 100 * t.score >= 80 * t.asked then Some(Champion)
      else if 100 * t.score >= 60 * t.asked then Some(GreatJob)
      else Some(GoodEffort)
  }

  /** `(score / questions_asked) * 100`, in exact arithmetic. */
  function Percent(t: Tally): real
    requires t.asked > 0
  {
    (t.score as real / t.asked as real) * 100.0
  }

  lemma PercentScaled(t: Tally)
    requires t.asked > 0
    ensures Percent(t) >= 80.0 <==> 100 * t.score >= 80 * t.asked
    ensures Percent(t) >= 60.0 <==> 100 * t.score >= 60 * t.asked
  {
    Threshold(t, 80);
    Threshold(t, 60);
  }

  lemma Threshold(t: Tally, k: nat)
    requires t.asked > 0
    ensures Percent(t) >= k as real <==> 100 * t.score >= k * t.asked
  {
    var n := t.asked as real;
    var p := Percent(t);
    assert p * n == 100.0 * t.score as real;
    ScaleBy(p, k as real, n);
    assert (k * t.asked) as real == k as real * n;
    assert (100 * t.score) as real == 100.0 * t.score as real;
  }

  lemma ScaleBy(a: real, b: real, n: real)
    requires n > 0.0
    ensures a >= b <==> a * n >= b * n
  {
    assert a * n - b * n == (a - b) * n;
  }

  /** Rank of a tier, higher is better. */
  function Rank(g: Tier): nat
  {
    match g
    case GoodEffort => 0
    case GreatJob => 1
    case Champion => 2
  }

  /** One more correct answer out of the same number of questions never
      lowers the grade. */
  lemma GradeMonotone(t: Tally, u: Tally)
    requires t.asked == u.asked > 0
    requires t.score <= u.score
    ensures Rank(Grade(t).value) <= Rank(Grade(u).value)
  {
    assert 100 * t.score <= 100 * u.score;
  }

  /** A game of at least one question in which no answer was wrong earns the
      top tier; one without a single point earns the bottom one. */
  lemma GradeExtremes(asked: nat)
    requires asked > 0
    ensures Grade(Tally(asked, asked)) == Some(Champion)
    ensures Grade(Tally(0, asked)) == Some(GoodEffort)
  {
  }

  /** A whole game, from zero: the final score never exceeds the number of
      questions, and a grade is given exactly when a round was played. */
  lemma GameConsistent(rounds: seq<Outcome>)
    ensures var g := Play(Tally(0, 0), rounds);
            Consistent(g.tally) && g.tally.asked == g.played
            && (Grade(g.tally).Some? <==> g.played > 0)
  {
  }
}
