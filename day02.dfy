/** Rock, paper, scissors: reading the strategy guide and scoring it. */
module Day02 {
  import opened Wrappers
  import opened Text

  datatype Action = Rock | Paper | Scissors

  datatype Outcome = Loss | Draw | Win

  /** `RPSAction::try_from`: A/X, B/Y, C/Z; anything else is an error. */
  function ParseAction(value: string): (r: Result<Action, ()>)
    ensures r.Success? <==> value in {"A", "B", "C", "X", "Y", "Z"}
    ensures r == Success(Rock) <==> value in {"A", "X"}
    ensures r == Success(Paper) <==> value in {"B", "Y"}
  {
    if value == "A" || value == "X" then Success(Rock)
    else if value == "B" || value == "Y" then Success(Paper)
    else if value == "C" || value == "Z" then Success(Scissors)
    else Failure(())
  }

  /** `RPSResult::try_from`: X, Y, Z; anything else is an error. */
  function ParseOutcome(value: string): (r: Result<Outcome, ()>)
    ensures r.Success? <==> value in {"X", "Y", "Z"}
    ensures r == Success(Loss) <==> value == "X"
    ensures r == Success(Draw) <==> value == "Y"
  {
    if value == "X" then Success(Loss)
    else if value == "Y" then Success(Draw)
    else if value == "Z" then Success(Win)
    else Failure(())
  }

  /** The points for playing a move. */
  function Value(a: Action): (v: int)
    ensures 1 <= v <= 3
  {
    match a
    case Rock => 1
    case Paper => 2
    case Scissors => 3
  }

  /** The move each move beats. */
  function Beats(a: Action): Action {
    match a
    case Rock => Scissors
    case Paper => Rock
    case Scissors => Paper
  }

  /** `result_against`: the outcome of playing `me` against `opponent`. */
  function ResultAgainst(me: Action, opponent: Action): (r: Outcome)
    ensures r == Draw <==> me == opponent
    ensures r == Win <==> Beats(me) == opponent
    ensures r == Loss <==> Beats(opponent) == me
  {
    match (me, opponent)
    case (Rock, Paper) => Loss
    case (Paper, Scissors) => Loss
    case (Scissors, Rock) => Loss
    case _ => if me == opponent then Draw else Win
  }

  function Flip(r: Outcome): Outcome {
    match r
    case Loss => Win
    case Draw => Draw
    case Win => Loss
  }

  /** Swapping the players flips the outcome. */
  lemma ResultAgainstAntisymmetric(a: Action, b: Action)
    ensures ResultAgainst(b, a) == Flip(ResultAgainst(a, b))
  {
  }

  function OutcomePoints(r: Outcome): int {
    match r
    case Loss => 0
    case Draw => 3
    case Win => 6
  }

  /** `score_against`: the move's value plus 0, 3 or 6 for the outcome. */
  function ScoreAgainst(me: Action, opponent: Action): (s: int)
    ensures 1 <= s <= 9
    ensures s == Value(me) + OutcomePoints(ResultAgainst(me, opponent))
  {
    match ResultAgainst(me, opponent)
    case Loss => Value(me)
    case Draw => Value(me) + 3
    case Win => Value(me) + 6
  }

  /** `move_for_result`: the move that gives outcome `result` against
      `opponent`. */
  function MoveForResult(opponent: Action, result: Outcome): (m: Action)
    ensures ResultAgainst(m, opponent) == result
  {
    match (opponent, result)
    case (Rock, Draw) => Rock
    case (Paper, Loss) => Rock
    case (Scissors, Win) => Rock
    case (Paper, Draw) => Paper
    case (Scissors, Loss) => Paper
    case (Rock, Win) => Paper
    case _ => Scissors
  }

  /** The move for an outcome is the only move with that outcome. */
  lemma MoveForResultUnique(opponent: Action, result: Outcome, m: Action)
    ensures ResultAgainst(m, opponent) == result <==> m == MoveForResult(opponent, result)
  {
  }

  /** `score_for_result`: the score of the move chosen for the outcome. */
  function ScoreForResult(opponent: Action, result: Outcome): (s: int)
    ensures 1 <= s <= 9
    ensures s == ScoreAgainst(MoveForResult(opponent, result), opponent)
  {
    var m := MoveForResult(opponent, result);
    match result
    case Loss => Value(m)
    case Draw => Value(m) + 3
    case Win => Value(m) + 6
  }

  /** `l.split_at(1)` and the trimmed halves; a line that is empty or whose
      halves do not parse panics. */
  function ParseRound(line: string): (r: Option<(Action, Action)>)
    ensures r.Some? ==> |line| >= 1 && ParseAction(Trim(line[..1])) == Success(r.value.0) && ParseAction(Trim(line[1..])) == Success(r.value.1)
  {
    if |line| < 1 then None
    else match (ParseAction(Trim(line[..1])), ParseAction(Trim(line[1..])))
      case (Success(a), Success(b)) => Some((a, b))
      case _ => None
  }

  function ParsePlan(line: string): (r: Option<(Action, Outcome)>)
    ensures r.Some? ==> |line| >= 1 && ParseAction(Trim(line[..1])) == Success(r.value.0) && ParseOutcome(Trim(line[1..])) == Success(r.value.1)
  {
    if |line| < 1 then None
    else match (ParseAction(Trim(line[..1])), ParseOutcome(Trim(line[1..])))
      case (Success(a), Success(b)) => Some((a, b))
      case _ => None
  }

  function Letter(a: Action): char {
    match a
    case Rock => 'A'
    case Paper => 'B'
    case Scissors => 'C'
  }

  function Answer(a: Action): char {
    match a
    case Rock => 'X'
    case Paper => 'Y'
    case Scissors => 'Z'
  }

  lemma TrimSpaced(c: char)
    requires !IsWhitespace(c)
    ensures Trim([c]) == [c] && Trim([' ', c]) == [c]
  {
    assert TrimStart([c]) == [c];
    assert TrimEnd([c]) == [c];
    var s := [' ', c];
    assert s[1..] == [c];
    assert TrimStart(s) == TrimStart([c]);
  }

  lemma ParseRoundOfChars(x: char, y: char)
    requires !IsWhitespace(x) && !IsWhitespace(y)
    requires ParseAction([x]).Success? && ParseAction([y]).Success?
    ensures ParseRound([x, ' ', y]) == Some((ParseAction([x]).value, ParseAction([y]).value))
  {
    var line := [x, ' ', y];
    assert line[..1] == [x];
    assert line[1..] == [' ', y];
    TrimSpaced(x);
    TrimSpaced(y);
    assert Trim(line[..1]) == [x];
    assert Trim(line[1..]) == [y];
  }

  lemma LetterParses(a: Action)
    ensures ParseAction([Letter(a)]) == Success(a) && ParseAction([Answer(a)]) == Success(a)
  {
    match a
    case Rock => assert [Letter(a)] == "A" && [Answer(a)] == "X";
    case Paper => assert [Letter(a)] == "B" && [Answer(a)] == "Y";
    case Scissors => assert [Letter(a)] == "C" && [Answer(a)] == "Z";
  }

  /** A guide line `A Y` reads back as its two moves. */
  lemma ParseRoundOfLine(a: Action, b: Action)
    ensures ParseRound([Letter(a), ' ', Answer(b)]) == Some((a, b))
  {
    LetterParses(a);
    LetterParses(b);
    ParseRoundOfChars(Letter(a), Answer(b));
  }

  function OutcomeLetter(r: Outcome): char {
    match r
    case Loss => 'X'
    case Draw => 'Y'
    case Win => 'Z'
  }

  lemma OutcomeLetterParses(r: Outcome)
    ensures ParseOutcome([OutcomeLetter(r)]) == Success(r)
  {
    match r
    case Loss => assert [OutcomeLetter(r)] == "X";
    case Draw => assert [OutcomeLetter(r)] == "Y";
    case Win => assert [OutcomeLetter(r)] == "Z";
  }

  lemma ParsePlanOfChars(x: char, y: char)
    requires !IsWhitespace(x) && !IsWhitespace(y)
    requires ParseAction([x]).Success? && ParseOutcome([y]).Success?
    ensures ParsePlan([x, ' ', y]) == Some((ParseAction([x]).value, ParseOutcome([y]).value))
  {
    var line := [x, ' ', y];
    assert line[..1] == [x];
    assert line[1..] == [' ', y];
    TrimSpaced(x);
    TrimSpaced(y);
    assert Trim(line[..1]) == [x];
    assert Trim(line[1..]) == [y];
  }

  /** A guide line `A Y` read as a plan gives the move and the outcome. */
  lemma ParsePlanOfLine(a: Action, r: Outcome)
    ensures ParsePlan([Letter(a), ' ', OutcomeLetter(r)]) == Some((a, r))
  {
    LetterParses(a);
    OutcomeLetterParses(r);
    ParsePlanOfChars(Letter(a), OutcomeLetter(r));
  }

  /** `part_one`: the second column is my move. */
  function TotalAgainst(rounds: seq<(Action, Action)>): (t: int)
    ensures |rounds| <= t <= 9 * |rounds|
  {
    if rounds == [] then 0
    else TotalAgainst(rounds[..|rounds| - 1]) + ScoreAgainst(rounds[|rounds| - 1].1, rounds[|rounds| - 1].0)
  }

  /** `part_two`: the second column is the wanted outcome. */
  function TotalForResult(plans: seq<(Action, Outcome)>): (t: int)
    ensures |plans| <= t <= 9 * |plans|
  {
    if plans == [] then 0
    else TotalForResult(plans[..|plans| - 1]) + ScoreForResult(plans[|plans| - 1].0, plans[|plans| - 1].1)
  }

  /** Playing the chosen moves scores the same as the plan. */
  lemma {:induction false} PlanIsPlayedMoves(plans: seq<(Action, Outcome)>)
    ensures TotalForResult(plans) == TotalAgainst(seq(|plans|, k requires 0 <= k < |plans| => (plans[k].0, MoveForResult(plans[k].0, plans[k].1))))
  {
    if plans != [] {
      var played := seq(|plans|, k requires 0 <= k < |plans| => (plans[k].0, MoveForResult(plans[k].0, plans[k].1)));
      var shorter := plans[..|plans| - 1];
      PlanIsPlayedMoves(shorter);
      assert played[..|played| - 1] == seq(|shorter|, k requires 0 <= k < |shorter| => (shorter[k].0, MoveForResult(shorter[k].0, shorter[k].1)));
    }
  }
}
