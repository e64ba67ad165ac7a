/** The password strength meter: a score out of four, a label, a colour and a bar width. */
module PasswordStrength {
  predicate HasUpper(s: string) {
    exists i :: 0 <= i < |s| && 'A' <= s[i] <= 'Z'
  }

  predicate HasDigit(s: string) {
    exists i :: 0 <= i < |s| && '0' <= s[i] <= '9'
  }

  predicate IsAlnum(c: char) {
    'A' <= c <= 'Z' || 'a' <= c <= 'z' || '0' <= c <= '9'
  }

  predicate HasSymbol(s: string) {
    exists i :: 0 <= i < |s| && !IsAlnum(s[i])
  }

  function Indicator(b: bool): nat {
    if b then 1 else 0
  }

  /** `calcStrength`: the number of criteria met among length at least 8, an upper-case letter, a digit, a symbol. */
  function Score(s: string): (r: nat)
    ensures r <= 4
    ensures r == 4 <==> |s| >= 8 && HasUpper(s) && HasDigit(s) && HasSymbol(s)
    ensures r == 0 <==> |s| < 8 && !HasUpper(s) && !HasDigit(s) && !HasSymbol(s)
  {
    Indicator(|s| >= 8) + Indicator(HasUpper(s)) + Indicator(HasDigit(s)) + Indicator(HasSymbol(s))
  }

  const Labels: seq<string> := ["Faible", "Moyen", "Bon", "Fort"]
  const Colors: seq<string> := ["danger", "warning", "info", "success"]

  /** `labels[score - 1] || labels[0]`: a zero score reads as the weakest label. */
  function StrengthLabel(score: nat): (r: string)
    requires score <= 4
    ensures score == 0 ==> r == "Faible"
    ensures score > 0 ==> r == Labels[score - 1]
  {
    if score == 0 then Labels[0] else Labels[score - 1]
  }

  /** `colors[score - 1] || 'danger'`. */
  function StrengthColor(score: nat): (r: string)
    requires score <= 4
    ensures score == 0 ==> r == "danger"
    ensures score > 0 ==> r == Colors[score - 1]
  {
    if score == 0 then "danger" else Colors[score - 1]
  }

  /** The bar width in percent, `score / 4 * 100`. */
  function Width(score: nat): (r: nat)
    requires score <= 4
    ensures r <= 100 && (r == 100 <==> score == 4) && (r == 0 <==> score == 0)
    ensures r * 4 == score * 100
  {
    score * 25
  }

  /** Typing more characters never lowers the score: every criterion only ever becomes true. */
  lemma ScoreMonotone(s: string, t: string)
    ensures Score(s) <= Score(s + t)
  {
    assert forall i :: 0 <= i < |s| ==> (s + t)[i] == s[i];
  }
}
