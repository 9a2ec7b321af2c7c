/** `getPasswordStrength`: a score built from five bonuses, then sorted into
    one of four bands shown as a coloured bar. */
module PasswordStrength {
  import opened JsBuiltins

  datatype Label = Weak | Fair | Good | Strong

  /** The object `{ strength, color, percentage }` the page renders. */
  datatype Rating = Rating(strength: Label, color: string, percentage: nat)

  /** The character classes of the regular expressions `/[a-z]/`, `/[A-Z]/`,
      `/\d/` and `/[!@#$%^&*(),.?":{}|<>]/` (no `u` flag: they test code units). */
  datatype CharClass = LowerLetter | UpperLetter | Digit | Symbol

  const Symbols: set<int> := set ch | ch in "!@#$%^&*(),.?\":{}|<>" :: ch as int

  predicate InClass(c: CodeUnit, k: CharClass)
  {
    match k
    case LowerLetter => 'a' as int <= c <= 'z' as int
    case UpperLetter => 'A' as int <= c <= 'Z' as int
    case Digit => '0' as int <= c <= '9' as int
    case Symbol => c in Symbols
  }

  /** `regex.test(s)` for a one-class regular expression. */
  function Matches(s: JsString, k: CharClass): (b: bool)
    ensures b <==> exists i :: 0 <= i < |s| && InClass(s[i], k)
    decreases |s|
  {
    if s == [] then false
    else InClass(s[0], k) || Matches(s[1..], k)
  }

  /** The conditions that earn a bonus. */
  datatype Criterion = MinLength(n: nat) | MixedCase | HasDigit | HasSymbol

  predicate Meets(password: JsString, c: Criterion)
  {
    match c
    case MinLength(n) => |password| >= n
    case MixedCase => Matches(password, LowerLetter) && Matches(password, UpperLetter)
    case HasDigit => Matches(password, Digit)
    case HasSymbol => Matches(password, Symbol)
  }

  /** Each criterion with the points it is worth. */
  const Bonuses: seq<(Criterion, nat)> :=
    [(MinLength(8), 25), (MinLength(12), 25), (MixedCase, 25), (HasDigit, 15), (HasSymbol, 10)]

  /** The points of the criteria in `rules` that `password` meets. */
  function Earned(password: JsString, rules: seq<(Criterion, nat)>): nat
  {
    if rules == [] then 0 else Points(password, rules[0]) + Earned(password, rules[1..])
  }

  function Points(password: JsString, rule: (Criterion, nat)): nat
  {
    if Meets(password, rule.0) then rule.1 else 0
  }

  lemma EarnedCons(password: JsString, rule: (Criterion, nat), rest: seq<(Criterion, nat)>)
    ensures Earned(password, [rule] + rest) == Points(password, rule) + Earned(password, rest)
  {
    assert ([rule] + rest)[1..] == rest;
  }

  function Score(password: JsString): nat
  {
    Earned(password, Bonuses)
  }

  /** The band a score falls in: Weak up to 25, Fair up to 50, Good up to 75,
      Strong above. The bar shows the score itself, except that a Strong rating
      fills it; red for Weak, amber for Fair, green otherwise. */
  function Classify(score: nat): (r: Rating)
    ensures r.strength == Weak <==> score <= 25
    ensures r.strength == Fair <==> 25 < score <= 50
    ensures r.strength == Good <==> 50 < score <= 75
    ensures r.strength == Strong <==> 75 < score
    ensures r.percentage == if score > 75 then 100 else score
    ensures r.percentage <= 100 && (score <= 100 ==> score <= r.percentage)
    ensures r.color == if r.strength == Weak then "#ef4444" else if r.strength == Fair then "#f59e0b" else "#10b981"
  {
    if score <= 25 then Rating(Weak, "#ef4444", score)
    else if score <= 50 then Rating(Fair, "#f59e0b", score)
    else if score <= 75 then Rating(Good, "#10b981", score)
    else Rating(Strong, "#10b981", 100)
  }

  /** `getPasswordStrength(password)`, accumulating `score` step by step. */
  method GetPasswordStrength(password: JsString) returns (r: Rating)
    ensures r == Classify(Score(password))
  {
    var score := 0;
    if |password| >= 8 { score := score + 25; }
    if |password| >= 12 { score := score + 25; }
    if Matches(password, LowerLetter) && Matches(password, UpperLetter) { score := score + 25; }
    if Matches(password, Digit) { score := score + 15; }
    if Matches(password, Symbol) { score := score + 10; }
    ScoreIsSumOfBonuses(password);

    // The banding below is the same table as `Classify`, written out again
    // because the method keeps the source's statement form; the ensures ties
    // the two together.
    if score <= 25 {
      r := Rating(Weak, "#ef4444", score);
    } else if score <= 50 {
      r := Rating(Fair, "#f59e0b", score);
    } else if score <= 75 {
      r := Rating(Good, "#10b981", score);
    } else {
      r := Rating(Strong, "#10b981", 100);
    }
  }

  /** The score is the sum of the five bonuses, lies in 0..100, and the
      12-code-unit bonus never comes without the 8-code-unit one. */
  lemma ScoreIsSumOfBonuses(password: JsString)
    ensures Score(password) ==
      (if |password| >= 8 then 25 else 0) + (if |password| >= 12 then 25 else 0)
      + (if Meets(password, MixedCase) then 25 else 0)
      + (if Meets(password, HasDigit) then 15 else 0)
      + (if Meets(password, HasSymbol) then 10 else 0)
    ensures 0 <= Score(password) <= 100
    ensures Meets(password, MinLength(12)) ==> Meets(password, MinLength(8))
  {
    var pw := password;
    EarnedCons(pw, (HasSymbol, 10), []);
    EarnedCons(pw, (HasDigit, 15), [(HasSymbol, 10)]);
    EarnedCons(pw, (MixedCase, 25), [(HasDigit, 15), (HasSymbol, 10)]);
    EarnedCons(pw, (MinLength(12), 25), [(MixedCase, 25), (HasDigit, 15), (HasSymbol, 10)]);
    EarnedCons(pw, (MinLength(8), 25), [(MinLength(12), 25), (MixedCase, 25), (HasDigit, 15), (HasSymbol, 10)]);
  }

  function Rank(l: Label): nat
  {
    match l
    case Weak => 0
    case Fair => 1
    case Good => 2
    case Strong => 3
  }

  /** A higher score never gives a weaker band. */
  lemma ClassifyMonotone(s1: nat, s2: nat)
    requires s1 <= s2
    ensures Rank(Classify(s1).strength) <= Rank(Classify(s2).strength)
    ensures Classify(s1).percentage <= Classify(s2).percentage
  {
  }

  /** What the bonuses add up to: a password rates Strong exactly when it has at
      least 12 code units, both lower- and upper-case letters, and a digit or a
      symbol. */
  lemma {:induction false} StrongIff(password: JsString)
    ensures Classify(Score(password)).strength == Strong <==>
      |password| >= 12 && Meets(password, MixedCase) && (Meets(password, HasDigit) || Meets(password, HasSymbol))
  {
    ScoreIsSumOfBonuses(password);
  }

  /** A password with fewer than 8 code units rates at most Fair, whatever it contains. */
  lemma {:induction false} ShortIsAtMostFair(password: JsString)
    requires |password| < 8
    ensures Rank(Classify(Score(password)).strength) <= Rank(Fair)
  {
    ScoreIsSumOfBonuses(password);
  }

  /** The full 100 points need all five bonuses. */
  lemma {:induction false} FullScoreIff(password: JsString)
    ensures Score(password) == 100 <==>
      |password| >= 12 && Meets(password, MixedCase) && Meets(password, HasDigit) && Meets(password, HasSymbol)
  {
    ScoreIsSumOfBonuses(password);
  }
}
