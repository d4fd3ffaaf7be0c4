/**
 * The password-strength meter: one point each for length >= 8, length >= 12,
 * an ASCII lower-case letter, an ASCII upper-case letter, an ASCII digit and
 * any other character; 0-2 points is weak, 3-4 medium, 5-6 strong.
 */
module Passwords {

  datatype Level = Weak | Medium | Strong

  /** The meter's verdict: a level, and the label and colour shown with it. */
  datatype Strength = Strength(level: Level, text: string, color: string)

  predicate IsLower(c: char) { 'a' <= c <= 'z' }
  predicate IsUpper(c: char) { 'A' <= c <= 'Z' }
  predicate IsDigit(c: char) { '0' <= c <= '9' }
  /** `[^a-zA-Z0-9]`: anything but an ASCII letter or digit. */
  predicate IsSymbol(c: char) { !IsLower(c) && !IsUpper(c) && !IsDigit(c) }

  predicate HasLower(password: string) { exists i :: 0 <= i < |password| && IsLower(password[i]) }
  predicate HasUpper(password: string) { exists i :: 0 <= i < |password| && IsUpper(password[i]) }
  predicate HasDigit(password: string) { exists i :: 0 <= i < |password| && IsDigit(password[i]) }
  predicate HasSymbol(password: string) { exists i :: 0 <= i < |password| && IsSymbol(password[i]) }

  function Point(b: bool): nat { if b then 1 else 0 }

  /** The meter's score. Only a password of 12 or more characters can reach 6, only one of 8 or more can reach 5. */
  function Score(password: string): (score: nat)
    ensures score <= 6
    ensures |password| < 12 ==> score <= 5
    ensures |password| < 8 ==> score <= 4
    ensures password == [] ==> score == 0
  {
    Point(|password| >= 8) + Point(|password| >= 12)
      + Point(HasLower(password)) + Point(HasUpper(password))
      + Point(HasDigit(password)) + Point(HasSymbol(password))
  }

  /** `checkPasswordStrength`: the level is decided by the score alone. */
  function CheckPasswordStrength(password: string): (r: Strength)
    ensures r.level == Weak <==> Score(password) <= 2
    ensures r.level == Medium <==> 3 <= Score(password) <= 4
    ensures r.level == Strong <==> Score(password) >= 5
  {
    var score := Score(password);
    if score <= 2 then Strength(Weak, "Weak password", "#f44336")
    else if score <= 4 then Strength(Medium, "Medium strength", "#ff9800")
    else Strength(Strong, "Strong password", "#4caf50")
  }

  /** A password shorter than 8 characters is never strong, and the empty one is weak. */
  lemma ShortPasswordNeverStrong(password: string)
    ensures |password| < 8 ==> CheckPasswordStrength(password).level != Strong
    ensures CheckPasswordStrength([]).level == Weak
  {
  }

  /** Score 6 needs length 12 and all four kinds of character. */
  lemma FullScore(password: string)
    ensures Score(password) == 6 <==>
            |password| >= 12 && HasLower(password) && HasUpper(password) && HasDigit(password) && HasSymbol(password)
  {
  }

  /** "abc" is weak; "Abcdef12!" (nine characters of all four kinds) is strong. */
  lemma StrengthExamples()
    ensures CheckPasswordStrength("abc").level == Weak
    ensures CheckPasswordStrength("Abcdef12!").level == Strong
  {
    var p := "Abcdef12!";
    assert IsUpper(p[0]) && IsLower(p[1]) && IsDigit(p[6]) && IsSymbol(p[8]);
    assert IsLower("abc"[0]);
    assert !HasUpper("abc") && !HasDigit("abc") && !HasSymbol("abc") by {
      forall i | 0 <= i < 3
        ensures IsLower("abc"[i])
      {
      }
    }
  }
}
