/** The typewriter reveal animation and the integer-to-text labels drawn by
    the text helper (chosen level, penalty, score, difficulty). */
module TextHelper {
  import opened Wrappers

  /** Reveals a NUL-terminated string one character per frame. `text` holds
      the characters before the terminator. */
  class TextTypewriterAnimation {
    var text: seq<char>
    var charsProgress: nat

    ghost predicate Valid()
      reads this
    {
      '\0' !in text && charsProgress <= |text|
    }

    /** An animation with nothing to reveal; the program leaves the members
        unset until `Init`. */
    constructor ()
      ensures Valid() && text == [] && charsProgress == 0
    {
      text := [];
      charsProgress := 0;
    }

    /** The characters as laid out in memory, terminator included. */
    function Terminated(): seq<char>
      reads this
    {
      text + ['\0']
    }

    method Init(animationText: seq<char>) returns (ok: bool)
      requires '\0' !in animationText
      modifies this
      ensures Valid() && ok
      ensures text == animationText && charsProgress == 0
    {
      text := animationText;
      charsProgress := 0;
      return true;
    }

    /** The current character is not the terminator. */
    function IsFrameLeft(): (b: bool)
      reads this
      requires Valid()
      ensures b <==> charsProgress < |text|
    {
      Terminated()[charsProgress] != '\0'
    }

    /** Reveals one more character, unless all are shown. */
    method NextFrame()
      requires Valid()
      modifies this`charsProgress
      ensures Valid()
      ensures charsProgress == AdvanceFrame(|text|, old(charsProgress))
    {
      if IsFrameLeft() {
        charsProgress := charsProgress + 1;
      }
    }

    /** The text and the number of characters revealed, so that the revealed
        string is the prefix of that length. */
    function GetText(): (r: (seq<char>, nat))
      reads this
      requires Valid()
      ensures r.1 <= |r.0| && r.0[..r.1] == text[..charsProgress]
    {
      (text, charsProgress)
    }
  }

  /** The revealed length after one frame of a text of `length` characters:
      one more, up to the whole text, which it then stays at. */
  function AdvanceFrame(length: nat, progress: nat): (r: nat)
    ensures progress <= length ==> progress <= r <= length
    ensures r == progress <==> progress >= length
  {
    if progress < length then progress + 1 else progress
  }

  /** Right after Init, exactly `|t|` frames reveal the whole text; after that
      a further frame changes nothing. */
  method TypeOut(anim: TextTypewriterAnimation, t: seq<char>) returns (frames: nat)
    requires '\0' !in t
    modifies anim
    ensures anim.Valid() && frames == |t| && !anim.IsFrameLeft()
    ensures anim.GetText().0[..anim.GetText().1] == t
  {
    var _ := anim.Init(t);
    frames := 0;
    while anim.IsFrameLeft()
      invariant anim.Valid() && anim.text == t && anim.charsProgress == frames
      decreases |t| - frames
    {
      anim.NextFrame();
      frames := frames + 1;
    }
    anim.NextFrame();
    assert anim.charsProgress == |t|;
  }

  // ---- std::wostringstream << integer ----

  function DigitChar(d: int): (c: char)
    requires 0 <= d < 10
    ensures '0' <= c <= '9' && DigitValue(c) == d
  {
    "0123456789"[d]
  }

  function DigitValue(c: char): int
  {
    c as int - '0' as int
  }

  predicate IsDigit(c: char)
  {
    '0' <= c <= '9'
  }

  /** Decimal digits of a natural number, most significant first, no leading zeros. */
  function NatDecimal(n: nat): (s: string)
    decreases n
  {
    if n < 10 then [DigitChar(n)] else NatDecimal(n / 10) + [DigitChar(n % 10)]
  }

  /** The text of an integer written to a wide string stream. */
  function Decimal(n: int): string
  {
    if n < 0 then "-" + NatDecimal(-n) else NatDecimal(n)
  }

  /** Reads back a nonempty string of digits. */
  function ParseNat(s: string): (r: Option<nat>)
    decreases |s|
  {
    if |s| == 0 || !IsDigit(s[|s| - 1]) then None
    else if |s| == 1 then Some(DigitValue(s[0]))
    else match ParseNat(s[..|s| - 1])
      case None => None
      case Some(m) => Some(m * 10 + DigitValue(s[|s| - 1]))
  }

  /** Reads back an optionally negative decimal. */
  function ParseDecimal(s: string): Option<int>
  {
    if |s| > 0 && s[0] == '-' then
      match ParseNat(s[1..])
      case None => None
      case Some(m) => Some(-(m as int))
    else
      match ParseNat(s)
      case None => None
      case Some(m) => Some(m as int)
  }

  lemma {:induction false} NatDecimalShape(n: nat)
    ensures |NatDecimal(n)| > 0 && forall i :: 0 <= i < |NatDecimal(n)| ==> IsDigit(NatDecimal(n)[i])
    ensures n > 0 ==> NatDecimal(n)[0] != '0'
    decreases n
  {
    if n >= 10 {
      NatDecimalShape(n / 10);
    }
  }

  lemma {:induction false} NatDecimalRoundTrip(n: nat)
    ensures ParseNat(NatDecimal(n)) == Some(n)
    decreases n
  {
    if n >= 10 {
      var s := NatDecimal(n);
      NatDecimalRoundTrip(n / 10);
      assert s[..|s| - 1] == NatDecimal(n / 10);
      NatDecimalShape(n / 10);
    }
  }

  /** Reading the label back yields the number written. */
  lemma DecimalRoundTrip(n: int)
    ensures ParseDecimal(Decimal(n)) == Some(n)
  {
    if n < 0 {
      var digits := NatDecimal(-n);
      var s := "-" + digits;
      assert s == Decimal(n);
      assert s[1..] == digits;
      NatDecimalRoundTrip(-n);
      assert ParseDecimal(s) == Some(-(-n));
    } else {
      var digits := NatDecimal(n);
      NatDecimalRoundTrip(n);
      NatDecimalShape(n);
      assert IsDigit(digits[0]);
      assert ParseDecimal(digits) == Some(n);
    }
  }

  lemma DecimalInjective(a: int, b: int)
    requires Decimal(a) == Decimal(b)
    ensures a == b
  {
    DecimalRoundTrip(a);
    DecimalRoundTrip(b);
  }

  // ---- the label lambdas ----

  const LevelSuffix: string := " / 6"

  /** `DrawChosenLevel`: "_ / 6" before a level is chosen (-1), else the level
      out of six. */
  function ChosenLevelLabel(level: int): string
  {
    (if level == -1 then "_" else Decimal(level)) + LevelSuffix
  }

  /** `DrawPenalty`: the penalty shown as a loss. */
  function PenaltyLabel(penalty: int): string
  {
    Decimal(-penalty)
  }

  /** `DrawData`: the score. */
  function ScoreLabel(score: int): string
  {
    Decimal(score)
  }

  /** `DrawData`: the (unsigned) difficulty out of six. */
  function DifficultyLabel(difficulty: nat): string
  {
    Decimal(difficulty) + LevelSuffix
  }

  /** Inverse of ChosenLevelLabel. */
  function ParseChosenLevelLabel(s: string): Option<int>
  {
    if |s| < |LevelSuffix| || s[|s| - |LevelSuffix|..] != LevelSuffix then None
    else
      var head := s[..|s| - |LevelSuffix|];
      if head == "_" then Some(-1) else ParseDecimal(head)
  }

  lemma ChosenLevelLabelRoundTrip(level: int)
    ensures ParseChosenLevelLabel(ChosenLevelLabel(level)) == Some(level)
  {
    var s := ChosenLevelLabel(level);
    var head := if level == -1 then "_" else Decimal(level);
    assert s[..|s| - |LevelSuffix|] == head;
    assert s[|s| - |LevelSuffix|..] == LevelSuffix;
    if level != -1 {
      DecimalRoundTrip(level);
      if level < 0 {
        NatDecimalShape(-level);
      } else {
        NatDecimalShape(level);
      }
      assert head != "_" by {
        assert head[0] == '-' || IsDigit(head[0]);
      }
    }
  }

  /** Different levels give different labels; in particular no chosen level
      reads like the placeholder. */
  lemma ChosenLevelLabelInjective(a: int, b: int)
    requires ChosenLevelLabel(a) == ChosenLevelLabel(b)
    ensures a == b
  {
    ChosenLevelLabelRoundTrip(a);
    ChosenLevelLabelRoundTrip(b);
  }

  lemma PenaltyLabelRoundTrip(penalty: int)
    ensures ParseDecimal(PenaltyLabel(penalty)) == Some(-penalty)
  {
    DecimalRoundTrip(-penalty);
  }

  /** The difficulty label reads back like a chosen-level label. */
  lemma DifficultyLabelMatchesChosenLevel(difficulty: nat)
    ensures DifficultyLabel(difficulty) == ChosenLevelLabel(difficulty)
    ensures ParseChosenLevelLabel(DifficultyLabel(difficulty)) == Some(difficulty as int)
  {
    ChosenLevelLabelRoundTrip(difficulty);
  }

  lemma ChosenLevelLabelExamples()
    ensures ChosenLevelLabel(-1) == "_ / 6"
    ensures ChosenLevelLabel(4) == "4 / 6"
    ensures PenaltyLabel(12) == "-12"
  {
    assert NatDecimal(12) == NatDecimal(1) + [DigitChar(2)];
  }
}
