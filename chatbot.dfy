/**
 * The chat widget's reply rules: a fixed, ordered list of substring tests on
 * the lower-cased message. The model returns which kind of reply is given;
 * the random choice among canned greeting and farewell texts is left out.
 */
module Chatbot {
  import opened Options

  /** The kind of reply; `Answer` names the question-table key that matched. */
  datatype Response = Greeting | Farewell | Answer(question: string) | Thanks | Help | Default

  const Greetings: seq<string> := ["hello", "hi", "hey"]
  const Farewells: seq<string> := ["bye", "goodbye", "see you"]

  /** The keys of the question table, in the order the table lists them. */
  const Questions: seq<string> := [
    "what is carbon footprint",
    "how can i reduce my carbon footprint",
    "how does diet affect carbon footprint",
    "what are renewable energy sources",
    "how to calculate carbon footprint",
    "what is sdg 12",
    "benefits of reducing carbon footprint",
    "what is climate change",
    "how does transportation affect carbon footprint",
    "what is sustainable living"]

  /** `toLowerCase` on ASCII letters; every other character is kept. */
  function LowerChar(c: char): char
  {
    if 'A' <= c <= 'Z' then (c as int + 32) as char else c
  }

  function ToLower(s: string): (r: string)
    ensures |r| == |s|
    ensures forall i :: 0 <= i < |s| ==> r[i] == LowerChar(s[i])
    ensures forall i :: 0 <= i < |r| ==> !('A' <= r[i] <= 'Z')
    ensures forall i :: 0 <= i < |s| && 'A' <= s[i] <= 'Z' ==> r[i] as int == s[i] as int + 32
    ensures forall i :: 0 <= i < |s| && !('A' <= s[i] <= 'Z') ==> r[i] == s[i]
  {
    seq(|s|, i requires 0 <= i < |s| => LowerChar(s[i]))
  }

  /** Lower-casing twice is lower-casing once. */
  lemma ToLowerIdempotent(s: string)
    ensures ToLower(ToLower(s)) == ToLower(s)
  {
  }

  /** `s.includes(pattern)`. */
  predicate Contains(s: string, pattern: string)
    ensures Contains(s, pattern) ==> |pattern| <= |s|
    ensures pattern <= s ==> Contains(s, pattern)
  {
    pattern <= s || (s != [] && Contains(s[1..], pattern))
  }

  /** `s` contains `pattern` exactly when `pattern` starts at some position of `s`. */
  lemma {:induction false} ContainsAt(s: string, pattern: string)
    ensures Contains(s, pattern) <==> exists i :: 0 <= i <= |s| && pattern <= s[i..]
  {
    if s != [] {
      ContainsAt(s[1..], pattern);
      if pattern <= s {
        assert s[0..] == s;
      }
      if Contains(s[1..], pattern) {
        var i :| 0 <= i <= |s| - 1 && pattern <= s[1..][i..];
        assert s[1..][i..] == s[i + 1..];
      }
      if exists i :: 0 <= i <= |s| && pattern <= s[i..] {
        var i :| 0 <= i <= |s| && pattern <= s[i..];
        if i > 0 {
          assert s[1..][i - 1..] == s[i..];
          assert Contains(s[1..], pattern);
        } else {
          assert pattern <= s;
        }
      }
    } else {
      assert forall i :: 0 <= i <= |s| ==> s[i..] == [];
    }
  }

  predicate ContainsAny(s: string, patterns: seq<string>)
  {
    exists k :: 0 <= k < |patterns| && Contains(s, patterns[k])
  }

  /** The position of the first key of `questions` that `lower` contains. */
  function FirstQuestion(lower: string, questions: seq<string>): (r: Option<nat>)
    ensures r.Some? ==> r.value < |questions| && Contains(lower, questions[r.value])
    ensures r.Some? ==> forall j :: 0 <= j < r.value ==> !Contains(lower, questions[j])
    ensures r.None? <==> forall j :: 0 <= j < |questions| ==> !Contains(lower, questions[j])
  {
    if questions == [] then None
    else if Contains(lower, questions[0]) then Some(0)
    else
      match FirstQuestion(lower, questions[1..])
      case Some(i) =>
        assert forall j :: 0 < j <= i ==> questions[j] == questions[1..][j - 1];
        Some(i + 1)
      case None =>
        assert forall j :: 0 < j < |questions| ==> questions[j] == questions[1..][j - 1];
        None
  }

  /** `generateResponse`: greeting, farewell, the question table in order, 'thank', 'help', then the default. */
  function GenerateResponse(message: string): (r: Response)
    ensures var lower := ToLower(message);
            var greeting := ContainsAny(lower, Greetings);
            var farewell := !greeting && ContainsAny(lower, Farewells);
            var question := !greeting && !farewell && ContainsAny(lower, Questions);
            var thanks := !greeting && !farewell && !question && Contains(lower, "thank");
            var help := !greeting && !farewell && !question && !thanks && Contains(lower, "help");
            && (r == Greeting <==> greeting)
            && (r == Farewell <==> farewell)
            && (r.Answer? <==> question)
            && (r == Thanks <==> thanks)
            && (r == Help <==> help)
            && (r == Default <==> !greeting && !farewell && !question && !thanks && !help)
    ensures r.Answer? ==> exists i :: 0 <= i < |Questions| && Questions[i] == r.question
                                      && Contains(ToLower(message), Questions[i])
                                      && forall j :: 0 <= j < i ==> !Contains(ToLower(message), Questions[j])
  {
    var lower := ToLower(message);
    if ContainsAny(lower, Greetings) then Greeting
    else if ContainsAny(lower, Farewells) then Farewell
    else
      match FirstQuestion(lower, Questions)
      case Some(i) => Answer(Questions[i])
      case None =>
        if Contains(lower, "thank") then Thanks
        else if Contains(lower, "help") then Help
        else Default
  }

  /** Matching ignores the case of ASCII letters. */
  lemma CaseInsensitive(message: string)
    ensures GenerateResponse(ToLower(message)) == GenerateResponse(message)
  {
    ToLowerIdempotent(message);
  }

  /** Any message containing "hi", even inside a word such as "which" or "this", is taken as a greeting. */
  lemma HiIsAlwaysGreeting(message: string, i: nat)
    requires i + 2 <= |message| && ToLower(message[i..i + 2]) == "hi"
    ensures GenerateResponse(message) == Greeting
  {
    var lower := ToLower(message);
    assert lower[i..][..2] == ToLower(message[i..i + 2]);
    ContainsAt(lower, "hi");
    assert Contains(lower, Greetings[1]);
  }

  /** A question about diets that starts with "Which" gets a greeting. */
  lemma WhichQuestionExample()
    ensures GenerateResponse("Which diet is best?") == Greeting
  {
    HiIsAlwaysGreeting("Which diet is best?", 1);
  }

  /** `trim()`: the characters ECMAScript counts as white space or line terminators. */
  predicate IsWhitespace(c: char)
  {
    var n := c as int;
    n == 0x09 || n == 0x0A || n == 0x0B || n == 0x0C || n == 0x0D || n == 0x20 || n == 0xA0
    || n == 0x1680 || (0x2000 <= n <= 0x200A) || n == 0x2028 || n == 0x2029 || n == 0x202F
    || n == 0x205F || n == 0x3000 || n == 0xFEFF
  }

  /** How many white-space characters `s` starts with. */
  function LeadingWhitespace(s: string): (n: nat)
    ensures n <= |s|
    ensures forall i :: 0 <= i < n ==> IsWhitespace(s[i])
    ensures n < |s| ==> !IsWhitespace(s[n])
  {
    if s != [] && IsWhitespace(s[0]) then
      var n := 1 + LeadingWhitespace(s[1..]);
      assert forall i :: 1 <= i < n ==> s[i] == s[1..][i - 1];
      n
    else 0
  }

  /** How many white-space characters `s` ends with. */
  function TrailingWhitespace(s: string): (n: nat)
    ensures n <= |s|
    ensures forall i :: |s| - n <= i < |s| ==> IsWhitespace(s[i])
    ensures n < |s| ==> !IsWhitespace(s[|s| - n - 1])
  {
    if s != [] && IsWhitespace(s[|s| - 1]) then
      var n := 1 + TrailingWhitespace(s[..|s| - 1]);
      assert forall i :: |s| - n <= i < |s| - 1 ==> s[i] == s[..|s| - 1][i];
      n
    else 0
  }

  /**
   * `s.trim()`: `s` without its leading and trailing white space. It is
   * empty exactly when `s` is all white space, and otherwise starts and ends
   * with other characters.
   */
  function Trim(s: string): (r: string)
    ensures r == [] <==> forall i :: 0 <= i < |s| ==> IsWhitespace(s[i])
    ensures r != [] ==> !IsWhitespace(r[0]) && !IsWhitespace(r[|r| - 1])
    ensures exists a, b :: 0 <= a <= b <= |s| && r == s[a..b]
                           && (forall i :: 0 <= i < a ==> IsWhitespace(s[i]))
                           && (forall i :: b <= i < |s| ==> IsWhitespace(s[i]))
  {
    var a := LeadingWhitespace(s);
    var b := if a == |s| then a else |s| - TrailingWhitespace(s);
    TrimBounds(s);
    s[a..b]
  }

  /** The bounds `Trim` cuts at: all white space outside them, and other characters just inside them. */
  lemma {:induction false} TrimBounds(s: string)
    ensures var a := LeadingWhitespace(s);
            var b := if a == |s| then a else |s| - TrailingWhitespace(s);
            && a <= b
            && (forall i :: b <= i < |s| ==> IsWhitespace(s[i]))
            && (a == b <==> a == |s|)
            && (a < b ==> !IsWhitespace(s[a]) && !IsWhitespace(s[b - 1]))
  {
    var a := LeadingWhitespace(s);
    if a < |s| {
      var n := TrailingWhitespace(s);
      assert !IsWhitespace(s[a]);
      assert a < |s| - n;
    }
  }

  /** `sendMessage`: a message that trims to nothing is not answered; any other gets the reply for the trimmed text. */
  function SendMessage(input: string): (r: Option<Response>)
    ensures r.None? <==> forall i :: 0 <= i < |input| ==> IsWhitespace(input[i])
    ensures r.Some? ==> r.value == GenerateResponse(Trim(input))
  {
    var message := Trim(input);
    if message == [] then None else Some(GenerateResponse(message))
  }
}
