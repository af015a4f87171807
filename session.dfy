/** The session settings of a human-versus-engine game (ai_system.py,
    `HumanVsAI`): the chosen tier and which colour the engine plays. */
module Session {
  import opened Wrappers
  import opened Grid
  import opened Policy

  /** Lower-casing of one character as far as it can matter here: the ASCII
      capitals, and the Kelvin sign, which Python lower-cases to the letter k. */
  function LowerChar(c: char): (l: char)
    ensures 'A' <= c <= 'Z' ==> 'a' <= l <= 'z' && l as int == c as int + 32
    ensures !('A' <= c <= 'Z') && c != '\U{212A}' ==> l == c
  {
    if 'A' <= c <= 'Z' then (c as int + 32) as char
    else if c == '\U{212A}' then 'k'
    else c
  }

  /** `str.lower()`, character by character. */
  function Lower(s: string): (r: string)
    ensures |r| == |s| && forall i :: 0 <= i < |s| ==> r[i] == LowerChar(s[i])
  {
    if s == [] then [] else [LowerChar(s[0])] + Lower(s[1..])
  }

  /** Lower-casing twice is lower-casing once. */
  lemma LowerIdempotent(s: string)
    ensures Lower(Lower(s)) == Lower(s)
  {
    assert forall i :: 0 <= i < |s| ==> LowerChar(LowerChar(s[i])) == LowerChar(s[i]);
  }

  /** The value of each `AIDifficulty` member. */
  function DifficultyName(d: Difficulty): string
  {
    match d
    case Beginner => "beginner"
    case Intermediate => "intermediate"
    case Advance => "advance"
    case Expert => "expert"
  }

  /** `AIDifficulty(s)`: the member whose value is `s`, if any (the source's
      `ValueError` is `None`). */
  function ParseDifficulty(s: string): (r: Option<Difficulty>)
    ensures r.Some? ==> DifficultyName(r.value) == s
    ensures r.None? ==> forall d :: DifficultyName(d) != s
  {
    if s == "beginner" then Some(Beginner)
    else if s == "intermediate" then Some(Intermediate)
    else if s == "advance" then Some(Advance)
    else if s == "expert" then Some(Expert)
    else None
  }

  /** Each tier's name parses back to it, whatever its capitalisation. */
  lemma ParseName(d: Difficulty, s: string)
    requires Lower(s) == DifficultyName(d)
    ensures ParseDifficulty(Lower(s)) == Some(d)
  {
  }

  /** The words that make the engine play black: "black", and the Chinese for
      "black stones" and "first hand". */
  predicate IsBlackWord(color: string)
  {
    var l := Lower(color);
    l == "black" || l == "\U{9ED1}\U{68CB}" || l == "\U{5148}\U{624B}"
  }

  class HumanVsAI {
    var currentDifficulty: Difficulty
    var aiColor: int
    var humanColor: int
    var boardSize: int
    var maxDepth: int

    /** The engine and the human play opposite colours. */
    ghost predicate Valid()
      reads this
    {
      {aiColor, humanColor} == {Black, White}
    }

    /** The default session: Intermediate, the engine second with white. */
    constructor ()
      ensures Valid()
      ensures currentDifficulty == Intermediate && aiColor == White && humanColor == Black
      ensures boardSize == BoardSize && maxDepth == 2
    {
      currentDifficulty := Intermediate;
      aiColor := White;
      humanColor := Black;
      boardSize := BoardSize;
      maxDepth := 2;
    }

    /** `set_difficulty`: takes the tier named by `difficulty` in any
        capitalisation; any other text leaves the tier as it was. Reports
        whether the name was accepted. */
    method SetDifficulty(difficulty: string) returns (accepted: bool)
      requires Valid()
      modifies this
      ensures accepted <==> exists d :: DifficultyName(d) == Lower(difficulty)
      ensures accepted ==> DifficultyName(currentDifficulty) == Lower(difficulty)
      ensures !accepted ==> currentDifficulty == old(currentDifficulty)
      ensures Valid()
      ensures aiColor == old(aiColor) && humanColor == old(humanColor)
      ensures boardSize == old(boardSize) && maxDepth == old(maxDepth)
    {
      var parsed := ParseDifficulty(Lower(difficulty));
      match parsed
      case Some(d) =>
        currentDifficulty := d;
        accepted := true;
      case None =>
        accepted := false;
    }

    /** `set_ai_color`: the engine plays black for one of the black words and
        white for anything else, and the human always gets the other colour.
        Reports whether the engine now plays black. */
    method SetAiColor(color: string) returns (aiBlack: bool)
      modifies this
      ensures aiBlack <==> IsBlackWord(color)
      ensures aiColor == (if aiBlack then Black else White)
      ensures humanColor == Opponent(aiColor)
      ensures Valid()
      ensures currentDifficulty == old(currentDifficulty)
      ensures boardSize == old(boardSize) && maxDepth == old(maxDepth)
    {
      if IsBlackWord(color) {
        aiColor := Black;
        humanColor := White;
        aiBlack := true;
      } else {
        aiColor := White;
        humanColor := Black;
        aiBlack := false;
      }
    }
  }
}
