/**
 * One round of the Rock-Paper-Scissors console game: normalise and validate
 * the typed character, map the random number to the computer's choice,
 * decide the round and update the scores. The console and `rand` are inputs.
 */
module RockPaperScissors {
  import opened Options

  datatype Choice = Rock | Paper | Scissors

  /** The two running scores. */
  datatype Scores = Scores(user: int, computer: int)

  datatype Verdict = Tie | UserWins | ComputerWins

  /** What a round did: end the game, reject the input, or play. */
  datatype Round = Exit | Rejected | Played(user: Choice, computer: Choice, verdict: Verdict)

  /** `toupper` in the C locale: only `a` to `z` change. */
  function ToUpper(c: char): (u: char)
    ensures 'a' <= c <= 'z' ==> 'A' <= u <= 'Z' && u as int == c as int - 32
    ensures !('a' <= c <= 'z') ==> u == c
  {
    if 'a' <= c <= 'z' then (c as int - 32) as char else c
  }

  function Letter(c: Choice): char {
    match c
    case Rock => 'R'
    case Paper => 'P'
    case Scissors => 'S'
  }

  /** The choice an upper-case input names, if it names one. */
  function ChoiceOf(c: char): (r: Option<Choice>)
    ensures r.Some? <==> c == 'R' || c == 'P' || c == 'S'
    ensures r.Some? ==> Letter(r.value) == c
  {
    if c == 'R' then Some(Rock)
    else if c == 'P' then Some(Paper)
    else if c == 'S' then Some(Scissors)
    else None
  }

  /** The `switch` on `rand() % 3`: 0, 1 and 2 are rock, paper and scissors. */
  function ComputerChoice(randomNum: nat): (c: Choice)
    requires randomNum < 3
    ensures Letter(c) == "RPS"[randomNum]
  {
    if randomNum == 0 then Rock else if randomNum == 1 then Paper else Scissors
  }

  /** The round rule as written: equal choices tie, three pairings win for the user, the rest lose. */
  function Decide(user: Choice, computer: Choice): (v: Verdict)
    ensures v == CyclicVerdict(user, computer)
  {
    if user == computer then Tie
    else if (user == Rock && computer == Scissors)
         || (user == Paper && computer == Rock)
         || (user == Scissors && computer == Paper) then UserWins
    else ComputerWins
  }

  /** Position in the cycle rock, paper, scissors; each choice beats the one before it. */
  function Index(c: Choice): (i: nat)
    ensures i < 3
  {
    match c
    case Rock => 0
    case Paper => 1
    case Scissors => 2
  }

  /** An independent statement of the rule: the difference of the cycle positions, modulo three. */
  function CyclicVerdict(user: Choice, computer: Choice): Verdict {
    var d := (Index(user) - Index(computer)) % 3;
    if d == 0 then Tie else if d == 1 then UserWins else ComputerWins
  }

  /** Swapping the two choices swaps a win and a loss and keeps a tie. */
  lemma DecideSwaps(a: Choice, b: Choice)
    ensures Decide(a, b) == UserWins <==> Decide(b, a) == ComputerWins
    ensures Decide(a, b) == Tie <==> Decide(b, a) == Tie
    ensures Decide(a, b) == Tie <==> a == b
  {
  }

  /** The score update after a decided round: the winner, and only the winner, gains one point. */
  function Award(s: Scores, v: Verdict): (r: Scores)
    ensures r.user == s.user + 1 <==> v == UserWins
    ensures r.computer == s.computer + 1 <==> v == ComputerWins
    ensures s.user <= r.user && s.computer <= r.computer
    ensures r.user + r.computer == s.user + s.computer + (if v == Tie then 0 else 1)
  {
    match v
    case Tie => s
    case UserWins => s.(user := s.user + 1)
    case ComputerWins => s.(computer := s.computer + 1)
  }

  /**
   * One pass of the game loop: `input` is the character read, `rand` the
   * value `rand()` returned. `E` ends the game and anything but R, P, S is
   * rejected, both with the scores unchanged; otherwise the round is decided
   * and the winner's score goes up by one.
   */
  function PlayRound(input: char, rand: nat, s: Scores): (r: (Round, Scores))
    ensures r.0 == Exit <==> ToUpper(input) == 'E'
    ensures r.0 == Rejected <==> ToUpper(input) !in "RPSE"
    ensures !r.0.Played? ==> r.1 == s
    ensures r.0.Played? ==>
      && Letter(r.0.user) == ToUpper(input)
      && r.0.computer == ComputerChoice(rand % 3)
      && r.0.verdict == Decide(r.0.user, r.0.computer)
      && (r.0.verdict == Tie ==> r.1 == s)
      && (r.0.verdict == UserWins ==> r.1 == Scores(s.user + 1, s.computer))
      && (r.0.verdict == ComputerWins ==> r.1 == Scores(s.user, s.computer + 1))
  {
    var c := ToUpper(input);
    if c == 'E' then
      (Exit, s)
    else
      match ChoiceOf(c)
      case None => (Rejected, s)
      case Some(user) =>
        var computer := ComputerChoice(rand % 3);
        var verdict := Decide(user, computer);
        (Played(user, computer, verdict), Award(s, verdict))
  }

  /** Lower-case input behaves exactly like its upper-case letter. */
  lemma PlayRoundIgnoresCase(input: char, rand: nat, s: Scores)
    ensures PlayRound(input, rand, s) == PlayRound(ToUpper(input), rand, s)
  {
  }

  /** A played round raises exactly one score by one, unless it is a tie; no score ever falls. */
  lemma PlayRoundScoreStep(input: char, rand: nat, s: Scores)
    ensures var r := PlayRound(input, rand, s);
      && s.user <= r.1.user && s.computer <= r.1.computer
      && r.1.user + r.1.computer <= s.user + s.computer + 1
      && (r.1.user + r.1.computer == s.user + s.computer + 1 <==> r.0.Played? && r.0.verdict != Tie)
  {
  }

  /**
   * The game loop over the rounds read, each a typed character and the value
   * `rand()` would return for it: it stops at the first exit and returns the
   * final scores, which never fall and rise by at most one per round read.
   */
  function Play(rounds: seq<(char, nat)>, s: Scores): (f: Scores)
    ensures s.user <= f.user && s.computer <= f.computer
    ensures f.user + f.computer <= s.user + s.computer + |rounds|
  {
    if rounds == [] then s
    else
      var r := PlayRound(rounds[0].0, rounds[0].1, s);
      PlayRoundScoreStep(rounds[0].0, rounds[0].1, s);
      if r.0 == Exit then r.1 else Play(rounds[1..], r.1)
  }

  /** Typing `e` ends the game at once, whatever follows. */
  lemma PlayStopsAtExit(rest: seq<(char, nat)>, rand: nat, s: Scores)
    ensures Play([('e', rand)] + rest, s) == s
  {
  }
}
