/**
 The response evaluator: four heuristic scores computed from the candidate's
 ("user") turns of a transcript.
 */
module Evaluator {
  import opened Wrappers
  import opened Text
  import opened Interview

  const TechnicalTerms: seq<string> :=
    ["api", "function", "class", "database", "algorithm",
     "framework", "architecture", "deployment", "testing",
     "debug", "optimize", "scalable", "concurrent", "async"]

  const ProblemSolvingTerms: seq<string> :=
    ["because", "therefore", "however", "solution",
     "approach", "method", "strategy", "implement"]

  const ExperienceTerms: seq<string> :=
    ["project", "worked", "implemented", "developed",
     "team", "company", "production", "deployed"]

  /** The four scores of one evaluation. */
  datatype ScoreSet = ScoreSet(
    technicalDepth: real,
    communication: real,
    problemSolving: real,
    experience: real)

  const ZeroScores := ScoreSet(0.0, 0.0, 0.0, 0.0)

  predicate InUnit(x: real) { 0.0 <= x <= 1.0 }

  predicate InUnitInterval(s: ScoreSet) {
    InUnit(s.technicalDepth) && InUnit(s.communication)
    && InUnit(s.problemSolving) && InUnit(s.experience)
  }

  /** Python's `min(1.0, x)`. */
  function Min1(x: real): (r: real)
    ensures r <= 1.0 && r <= x && (r == x || r == 1.0)
    ensures 0.0 <= x ==> InUnit(r)
  {
    if 1.0 <= x then 1.0 else x
  }

  /** A count divided by a positive count; never negative. */
  function Ratio(count: nat, total: nat): (r: real)
    requires total > 0
    ensures 0.0 <= r
  {
    count as real / total as real
  }

  const TechnicalDepthKey := "technical_depth"
  const CommunicationKey := "communication"
  const ProblemSolvingKey := "problem_solving"
  const ExperienceKey := "experience"

  /** The keys of a scores dictionary. */
  function Dimensions(d: ScoreDict): set<string> {
    set i | 0 <= i < |d| :: d[i].dimension
  }

  /** The value filed under `dimension`, if any. */
  function Lookup(d: ScoreDict, dimension: string): (r: Option<real>)
    ensures r.None? <==> dimension !in Dimensions(d)
    ensures r.Some? ==> exists i :: 0 <= i < |d| && d[i].dimension == dimension && d[i].value == r.value
  {
    if d == [] then None
    else if d[0].dimension == dimension then Some(d[0].value)
    else
      var r := Lookup(d[1..], dimension);
      assert forall i :: 1 <= i < |d| ==> d[i] == d[1..][i - 1];
      assert Dimensions(d) == {d[0].dimension} + Dimensions(d[1..]);
      r
  }

  /** The scores as the dictionary the backend returns and stores, keys in their fixed order. */
  function AsDict(s: ScoreSet): (d: ScoreDict)
    ensures |d| == 4
    ensures forall i, j :: 0 <= i < j < |d| ==> d[i].dimension != d[j].dimension
  {
    [Score(TechnicalDepthKey, s.technicalDepth),
     Score(CommunicationKey, s.communication),
     Score(ProblemSolvingKey, s.problemSolving),
     Score(ExperienceKey, s.experience)]
  }

  /**
   The dictionary holds exactly the keys "technical_depth", "communication",
   "problem_solving" and "experience", each with the matching score.
   */
  lemma AsDictLookup(s: ScoreSet)
    ensures Dimensions(AsDict(s)) == {TechnicalDepthKey, CommunicationKey, ProblemSolvingKey, ExperienceKey}
    ensures Lookup(AsDict(s), TechnicalDepthKey) == Some(s.technicalDepth)
    ensures Lookup(AsDict(s), CommunicationKey) == Some(s.communication)
    ensures Lookup(AsDict(s), ProblemSolvingKey) == Some(s.problemSolving)
    ensures Lookup(AsDict(s), ExperienceKey) == Some(s.experience)
  {
    var d := AsDict(s);
    assert d[0].dimension == TechnicalDepthKey && d[1].dimension == CommunicationKey;
    assert d[2].dimension == ProblemSolvingKey && d[3].dimension == ExperienceKey;
    assert d[1..][0] == d[1] && d[2..][0] == d[2] && d[3..][0] == d[3];
    assert d[1..][1..] == d[2..] && d[2..][1..] == d[3..];
  }

  // ---------------------------------------------------------------------------
  // Reference definition: counts over the candidate's turns
  // ---------------------------------------------------------------------------

  /** The lower-cased contents of the messages whose role is exactly "user", in order. */
  function UserTurns(messages: seq<ChatMessage>): (texts: seq<string>)
    ensures |texts| <= |messages|
    ensures |texts| == 0 <==> forall i :: 0 <= i < |messages| ==> messages[i].role != UserRole
  {
    if messages == [] then []
    else
      var last := messages[|messages| - 1];
      UserTurns(messages[..|messages| - 1]) + (if last.role == UserRole then [Lower(last.content)] else [])
  }

  /** Number of technical terms present in one turn. */
  function TurnTechTerms(text: string): nat {
    CountTerms(TechnicalTerms, text)
  }

  /** Number of whitespace-separated words of one turn. */
  function TurnWords(text: string): nat {
    |Split(text)|
  }

  /** Total number of vocabulary terms present, counted once per turn. */
  function TechTermTotal(texts: seq<string>): nat {
    if texts == [] then 0
    else TechTermTotal(texts[..|texts| - 1]) + TurnTechTerms(texts[|texts| - 1])
  }

  /** Total number of whitespace-separated words. */
  function WordTotal(texts: seq<string>): nat {
    if texts == [] then 0
    else WordTotal(texts[..|texts| - 1]) + TurnWords(texts[|texts| - 1])
  }

  /** Number of turns containing at least one of the terms. */
  function TurnsWithAny(terms: seq<string>, texts: seq<string>): (n: nat)
    ensures n <= |texts|
  {
    if texts == [] then 0
    else TurnsWithAny(terms, texts[..|texts| - 1]) + (if ContainsAny(terms, texts[|texts| - 1]) then 1 else 0)
  }

  /**
   The scores in closed form: with n candidate turns, technical depth is
   min(1, T / 3n), communication min(1, W / 50n), problem solving and experience
   the fraction of turns that mention one of their terms; all zero when n = 0.
   */
  function Evaluate(messages: seq<ChatMessage>): (r: ScoreSet)
    ensures InUnitInterval(r)
    ensures (forall i :: 0 <= i < |messages| ==> messages[i].role != UserRole) ==> r == ZeroScores
  {
    ScoreTurns(UserTurns(messages))
  }

  /** The closed-form scores of a list of lower-cased candidate turns. */
  function ScoreTurns(texts: seq<string>): (r: ScoreSet)
    ensures InUnitInterval(r)
    ensures |texts| == 0 ==> r == ZeroScores
  {
    if |texts| == 0 then ZeroScores
    else
      FromCounts(|texts|, TechTermTotal(texts), WordTotal(texts),
                 TurnsWithAny(ProblemSolvingTerms, texts), TurnsWithAny(ExperienceTerms, texts))
  }

  /**
   The scores of `turns` candidate turns holding `techTerms` vocabulary terms and
   `words` words, of which `problemTurns` and `experienceTurns` mention a term of
   the respective list.
   */
  function FromCounts(turns: nat, techTerms: nat, words: nat, problemTurns: nat, experienceTurns: nat): (r: ScoreSet)
    requires turns > 0
    ensures InUnitInterval(r)
  {
    ScoreSet(
      Min1(Ratio(techTerms, 3 * turns)),
      Min1(Ratio(words, 50 * turns)),
      Min1(Ratio(problemTurns, turns)),
      Min1(Ratio(experienceTurns, turns)))
  }

  // ---------------------------------------------------------------------------
  // The evaluator as the backend computes it: one pass for counts, then one
  // pass per keyword list
  // ---------------------------------------------------------------------------

  /** Extending a transcript prefix by one message extends its candidate turns by at most that message. */
  lemma UserTurnsStep(messages: seq<ChatMessage>, i: nat)
    requires i < |messages|
    ensures messages[i].role == UserRole ==>
              UserTurns(messages[..i + 1]) == UserTurns(messages[..i]) + [Lower(messages[i].content)]
    ensures messages[i].role != UserRole ==> UserTurns(messages[..i + 1]) == UserTurns(messages[..i])
  {
    assert messages[..i + 1][..i] == messages[..i];
  }

  /** Each per-turn total grows by the contribution of an appended turn. */
  lemma TotalsStep(texts: seq<string>, text: string)
    ensures |texts + [text]| == |texts| + 1
    ensures WordTotal(texts + [text]) == WordTotal(texts) + TurnWords(text)
    ensures TechTermTotal(texts + [text]) == TechTermTotal(texts) + TurnTechTerms(text)
  {
    assert (texts + [text])[..|texts|] == texts;
  }

  /** The count of turns mentioning a term grows by one exactly when the appended turn mentions one. */
  lemma TurnsWithAnyStep(terms: seq<string>, texts: seq<string>, text: string)
    ensures TurnsWithAny(terms, texts + [text])
         == TurnsWithAny(terms, texts) + (if ContainsAny(terms, text) then 1 else 0)
  {
    assert (texts + [text])[..|texts|] == texts;
  }

  /** Counts, in one pass, the candidate turns whose lower-cased text mentions a term of the list. */
  method CountTurnsWithAny(terms: seq<string>, messages: seq<ChatMessage>) returns (count: nat)
    ensures count == TurnsWithAny(terms, UserTurns(messages))
  {
    count := 0;
    for i := 0 to |messages|
      invariant count == TurnsWithAny(terms, UserTurns(messages[..i]))
    {
      ghost var before := UserTurns(messages[..i]);
      UserTurnsStep(messages, i);
      if messages[i].role == UserRole {
        var text := Lower(messages[i].content);
        TurnsWithAnyStep(terms, before, text);
        if ContainsAny(terms, text) {
          count := count + 1;
        }
      }
    }
    assert messages[..|messages|] == messages;
  }

  /**
   The backend's first pass: the number of candidate turns, their total word count
   and their total count of technical terms.
   */
  method CountUserTurns(messages: seq<ChatMessage>)
    returns (totalResponses: nat, totalWords: nat, technicalTerms: nat)
    ensures totalResponses == |UserTurns(messages)|
    ensures totalWords == WordTotal(UserTurns(messages))
    ensures technicalTerms == TechTermTotal(UserTurns(messages))
  {
    totalResponses, totalWords, technicalTerms := 0, 0, 0;
    for i := 0 to |messages|
      invariant totalResponses == |UserTurns(messages[..i])|
      invariant totalWords == WordTotal(UserTurns(messages[..i]))
      invariant technicalTerms == TechTermTotal(UserTurns(messages[..i]))
    {
      ghost var before := UserTurns(messages[..i]);
      UserTurnsStep(messages, i);
      if messages[i].role == UserRole {
        var response := Lower(messages[i].content);
        TotalsStep(before, response);
        totalWords := totalWords + TurnWords(response);
        totalResponses := totalResponses + 1;
        technicalTerms := technicalTerms + TurnTechTerms(response);
      }
    }
    assert messages[..|messages|] == messages;
  }

  /** The backend's evaluation; it agrees with the closed form on every transcript. */
  method EvaluateResponses(messages: seq<ChatMessage>) returns (scores: ScoreSet)
    ensures scores == Evaluate(messages)
  {
    scores := ZeroScores;
    var totalResponses, totalWords, technicalTerms := CountUserTurns(messages);
    if totalResponses > 0 {
      var technicalDepth := Min1(Ratio(technicalTerms, totalResponses * 3));
      var avgWords := Ratio(totalWords, totalResponses);
      var communication := Min1(avgWords / 50.0);
      AverageOverFifty(totalWords, totalResponses);
      var problemSolvingCount := CountTurnsWithAny(ProblemSolvingTerms, messages);
      var experienceCount := CountTurnsWithAny(ExperienceTerms, messages);
      scores := ScoreSet(
        technicalDepth,
        communication,
        Min1(Ratio(problemSolvingCount, totalResponses)),
        Min1(Ratio(experienceCount, totalResponses)));
    }
  }

  /** Averaging, then dividing by 50, is dividing by 50 times the number of turns. */
  lemma AverageOverFifty(words: nat, turns: nat)
    requires turns > 0
    ensures Ratio(words, turns) / 50.0 == Ratio(words, 50 * turns)
  {
  }

  // ---------------------------------------------------------------------------
  // Laws
  // ---------------------------------------------------------------------------

  /** Selecting the candidate's turns distributes over concatenation of transcripts. */
  lemma {:induction false} UserTurnsAppend(a: seq<ChatMessage>, b: seq<ChatMessage>)
    ensures UserTurns(a + b) == UserTurns(a) + UserTurns(b)
    decreases |b|
  {
    if b != [] {
      var b' := b[..|b| - 1];
      assert (a + b)[..|a + b| - 1] == a + b';
      UserTurnsAppend(a, b');
    } else {
      assert a + b == a;
    }
  }

  /** Inserting or deleting a message whose role is not "user" anywhere leaves every score unchanged. */
  lemma NonUserMessageIgnored(a: seq<ChatMessage>, m: ChatMessage, b: seq<ChatMessage>)
    requires m.role != UserRole
    ensures Evaluate(a + [m] + b) == Evaluate(a + b)
  {
    UserTurnsAppend(a + [m], b);
    UserTurnsAppend(a, [m]);
    UserTurnsAppend(a, b);
    assert [m][..0] == [];
    assert UserTurns([m]) == [];
    assert UserTurns(a + [m] + b) == UserTurns(a + b);
  }

  /** Appending the interviewer's reply to a transcript does not change its evaluation. */
  lemma ReplyDoesNotChangeScores(messages: seq<ChatMessage>, reply: string)
    ensures Evaluate(messages + [ChatMessage(AssistantRole, reply)]) == Evaluate(messages)
  {
    NonUserMessageIgnored(messages, ChatMessage(AssistantRole, reply), []);
    assert messages + [ChatMessage(AssistantRole, reply)] + [] == messages + [ChatMessage(AssistantRole, reply)];
    assert messages + [] == messages;
  }

  /**
   A transcript without a "user" message is scored as exactly the four dimensions,
   each 0.0.
   */
  lemma SilentTranscriptScoresZero(messages: seq<ChatMessage>)
    requires forall i :: 0 <= i < |messages| ==> messages[i].role != UserRole
    ensures var d := AsDict(Evaluate(messages));
            && Dimensions(d) == {TechnicalDepthKey, CommunicationKey, ProblemSolvingKey, ExperienceKey}
            && Lookup(d, TechnicalDepthKey) == Some(0.0)
            && Lookup(d, CommunicationKey) == Some(0.0)
            && Lookup(d, ProblemSolvingKey) == Some(0.0)
            && Lookup(d, ExperienceKey) == Some(0.0)
  {
    AsDictLookup(Evaluate(messages));
  }

  /** The technical vocabulary lists no term twice. */
  lemma TechnicalTermsDistinct()
    ensures Distinct(TechnicalTerms)
  {
  }

  /** With one turn, each ratio is its count over the constant alone. */
  lemma {:induction false} FromOneTurn(techTerms: nat, words: nat, problemTurns: nat, experienceTurns: nat)
    requires problemTurns <= 1 && experienceTurns <= 1
    ensures FromCounts(1, techTerms, words, problemTurns, experienceTurns)
         == ScoreSet(Min1(techTerms as real / 3.0), Min1(words as real / 50.0),
                     problemTurns as real, experienceTurns as real)
  {
  }

  /** The per-turn totals of a single turn are that turn's own counts. */
  lemma {:induction false} OneTurnTotals(text: string)
    ensures TechTermTotal([text]) == TurnTechTerms(text)
    ensures WordTotal([text]) == TurnWords(text)
  {
    assert [text][..0] == [];
  }

  /** A single turn counts for a keyword list exactly when it mentions one of its terms. */
  lemma {:induction false} OneTurnWithAny(terms: seq<string>, text: string)
    ensures TurnsWithAny(terms, [text]) == if ContainsAny(terms, text) then 1 else 0
  {
    assert [text][..0] == [];
  }

  /** A transcript holding one candidate answer has that answer, lower-cased, as its only turn. */
  lemma {:induction false} OneAnswerTurns(answer: string)
    ensures UserTurns([ChatMessage(UserRole, answer)]) == [Lower(answer)]
  {
    assert [ChatMessage(UserRole, answer)][..0] == [];
  }

  /** The closed form on a single turn, in terms of the totals of that turn. */
  lemma {:induction false} ScoreOneTurn(text: string)
    ensures ScoreTurns([text]) == FromCounts(1, TechTermTotal([text]), WordTotal([text]),
                                             TurnsWithAny(ProblemSolvingTerms, [text]),
                                             TurnsWithAny(ExperienceTerms, [text]))
  {
  }

  /** The evaluation of a transcript holding one candidate answer and nothing else. */
  lemma {:induction false} OneAnswer(answer: string)
    ensures var text := Lower(answer);
            Evaluate([ChatMessage(UserRole, answer)])
            == ScoreSet(Min1(TurnTechTerms(text) as real / 3.0), Min1(TurnWords(text) as real / 50.0),
                        TurnsWithAny(ProblemSolvingTerms, [text]) as real,
                        TurnsWithAny(ExperienceTerms, [text]) as real)
  {
    var text := Lower(answer);
    OneAnswerTurns(answer);
    ScoreOneTurn(text);
    OneTurnTotals(text);
    FromOneTurn(TurnTechTerms(text), TurnWords(text),
                TurnsWithAny(ProblemSolvingTerms, [text]), TurnsWithAny(ExperienceTerms, [text]));
  }

  /** A turn that mentions "implemented" counts for problem solving and for experience. */
  lemma {:induction false} ImplementedCountsTwice(text: string)
    requires Contains(text, "implemented")
    ensures TurnsWithAny(ProblemSolvingTerms, [text]) == 1
    ensures TurnsWithAny(ExperienceTerms, [text]) == 1
  {
    ImplementedContainsImplement(text);
    assert Contains(text, ProblemSolvingTerms[7]);
    OneTurnWithAny(ProblemSolvingTerms, text);
    assert Contains(text, ExperienceTerms[2]);
    OneTurnWithAny(ExperienceTerms, text);
  }

  /**
   A single answer: technical depth is the number of distinct vocabulary terms it
   mentions over three (capped at one), communication its word count over fifty
   (capped at one), and an answer that mentions "implemented" scores full marks on
   both problem solving (it contains "implement") and experience.
   */
  lemma {:induction false} SingleAnswer(answer: string)
    ensures var e := Evaluate([ChatMessage(UserRole, answer)]);
            && e.technicalDepth == Min1(|Matched(TechnicalTerms, Lower(answer))| as real / 3.0)
            && e.communication == Min1(|Split(Lower(answer))| as real / 50.0)
            && (Contains(Lower(answer), "implemented") ==> e.problemSolving == 1.0 && e.experience == 1.0)
  {
    var text := Lower(answer);
    OneAnswer(answer);
    TechnicalTermsDistinct();
    CountTermsIsDistinctMatches(TechnicalTerms, text);
    if Contains(text, "implemented") {
      ImplementedCountsTwice(text);
    }
  }
}
