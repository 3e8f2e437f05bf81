/** Game limits read from the configuration module. */
module Config {
  /** Declared minimum; the start-game handlers test `< 1` literally instead. */
  const MIN_PLAYERS: nat := 1
  /** Lobby capacity; the join handlers test the literal `>= 10`. */
  const MAX_PLAYERS: nat := 10
  const MAX_NAME_LENGTH: nat := 30
  const MAX_SCENARIO_LENGTH: nat := 500
  const MAX_ACTION_LENGTH: nat := 500
}

/** The three text validators. Each answers `(ok, reason)` and tries its
    checks in a fixed order: empty, then too long, then a character the
    field's pattern does not allow. */
module Validation {
  import opened Basics
  import opened Config

  /** Letters of the name and text patterns: `а-я`, `А-Я`, `ё`, `Ё`,
      `a-z` and `A-Z`. */
  predicate IsLetter(c: char) {
    || ('а' <= c <= 'я')
    || ('А' <= c <= 'Я')
    || c == 'ё'
    || c == 'Ё'
    || ('a' <= c <= 'z')
    || ('A' <= c <= 'Z')
  }

  /** The class of the name pattern: letters, whitespace and `-`. */
  predicate IsNameChar(c: char) {
    IsLetter(c) || IsSpace(c) || c == '-'
  }

  /** The punctuation the scenario and action patterns allow. */
  const TEXT_PUNCTUATION: string := ".,-!?_():;\"'"

  /** The class shared by the scenario and action patterns: letters, ASCII
      digits, whitespace and the punctuation above. */
  predicate IsTextChar(c: char) {
    IsLetter(c) || ('0' <= c <= '9') || IsSpace(c) || c in TEXT_PUNCTUATION
  }

  datatype Field = NameField | ScenarioField | ActionField

  predicate InClass(f: Field, c: char) {
    match f
    case NameField => IsNameChar(c)
    case _ => IsTextChar(c)
  }

  predicate AllInClass(f: Field, s: string) {
    forall i :: 0 <= i < |s| ==> InClass(f, s[i])
  }

  /** `re.match(r'^[C]+$', s)`: one or more class characters from the start,
      then the end of the string, where Python's `$` also accepts a position
      just before a final newline. */
  predicate PatternMatches(f: Field, s: string) {
    exists k | 1 <= k <= |s| :: MatchEndsAt(f, s, k)
  }

  predicate MatchEndsAt(f: Field, s: string, k: int) {
    && 1 <= k <= |s|
    && AllInClass(f, s[..k])
    && (k == |s| || (k == |s| - 1 && s[k] == '\n'))
  }

  /** Because every class contains the newline, the pattern accepts exactly
      the non-empty strings made of class characters. */
  lemma PatternMatchesIff(f: Field, s: string)
    ensures PatternMatches(f, s) <==> |s| > 0 && AllInClass(f, s)
  {
    if |s| > 0 && AllInClass(f, s) {
      assert s[..|s|] == s;
      assert MatchEndsAt(f, s, |s|);
    }
    if PatternMatches(f, s) {
      var k :| 1 <= k <= |s| && MatchEndsAt(f, s, k);
      assert forall i :: 0 <= i < k ==> s[..k][i] == s[i];
      assert IsSpace('\n');
    }
  }

  function MaxLength(f: Field): nat {
    match f
    case NameField => MAX_NAME_LENGTH
    case ScenarioField => MAX_SCENARIO_LENGTH
    case ActionField => MAX_ACTION_LENGTH
  }

  function EmptyReason(f: Field): string {
    match f
    case NameField => "Имя не может быть пустым"
    case ScenarioField => "Сценарий не может быть пустым"
    case ActionField => "Действие не может быть пустым"
  }

  function TooLongReason(f: Field): string {
    match f
    case NameField => "Имя не может быть длиннее " + NatToDecimal(MAX_NAME_LENGTH) + " символов"
    case ScenarioField => "Сценарий не может быть длиннее " + NatToDecimal(MAX_SCENARIO_LENGTH) + " символов"
    case ActionField => "Действие не может быть длиннее " + NatToDecimal(MAX_ACTION_LENGTH) + " символов"
  }

  function CharsetReason(f: Field): string {
    match f
    case NameField => "Имя может содержать только буквы, пробелы и дефисы"
    case ScenarioField => "Сценарий содержит недопустимые символы"
    case ActionField => "Действие содержит недопустимые символы"
  }

  /** The `(ok, reason)` pair a validator returns. */
  datatype Verdict = Verdict(ok: bool, reason: Option<string>)

  /** The shared shape of the three validators. */
  function Validate(f: Field, s: string): (v: Verdict)
    ensures v.ok <==> v.reason.None?
    ensures v.ok <==> 0 < |s| <= MaxLength(f) && AllInClass(f, s)
    ensures |s| == 0 ==> v.reason == Some(EmptyReason(f))
    ensures |s| > MaxLength(f) ==> v.reason == Some(TooLongReason(f))
    ensures 0 < |s| <= MaxLength(f) && !AllInClass(f, s) ==> v.reason == Some(CharsetReason(f))
  {
    PatternMatchesIff(f, s);
    if |s| == 0 then Verdict(false, Some(EmptyReason(f)))
    else if |s| > MaxLength(f) then Verdict(false, Some(TooLongReason(f)))
    else if !PatternMatches(f, s) then Verdict(false, Some(CharsetReason(f)))
    else Verdict(true, None)
  }

  /** `validate_name`: non-empty, at most 30 characters, letters, whitespace
      and hyphens only. */
  function ValidateName(name: string): (v: Verdict)
    ensures v.ok <==> v.reason.None?
    ensures v.ok <==> 0 < |name| <= 30 && forall i :: 0 <= i < |name| ==> IsNameChar(name[i])
    ensures |name| == 0 ==> v == Verdict(false, Some("Имя не может быть пустым"))
    ensures |name| > 30 ==> v == Verdict(false, Some("Имя не может быть длиннее 30 символов"))
    ensures 0 < |name| <= 30 && (exists i :: 0 <= i < |name| && !IsNameChar(name[i])) ==>
              v == Verdict(false, Some("Имя может содержать только буквы, пробелы и дефисы"))
  {
    assert NatToDecimal(30) == "30";
    assert TooLongReason(NameField) == "Имя не может быть длиннее 30 символов";
    Validate(NameField, name)
  }

  /** `validate_scenario`: non-empty, at most 500 characters, text class only. */
  function ValidateScenario(scenario: string): (v: Verdict)
    ensures v.ok <==> v.reason.None?
    ensures v.ok <==> 0 < |scenario| <= 500 && forall i :: 0 <= i < |scenario| ==> IsTextChar(scenario[i])
    ensures |scenario| == 0 ==> v == Verdict(false, Some("Сценарий не может быть пустым"))
    ensures |scenario| > 500 ==> v == Verdict(false, Some("Сценарий не может быть длиннее 500 символов"))
    ensures 0 < |scenario| <= 500 && (exists i :: 0 <= i < |scenario| && !IsTextChar(scenario[i])) ==>
              v == Verdict(false, Some("Сценарий содержит недопустимые символы"))
  {
    assert NatToDecimal(500) == "500";
    assert TooLongReason(ScenarioField) == "Сценарий не может быть длиннее 500 символов";
    Validate(ScenarioField, scenario)
  }

  /** `validate_action`: the scenario rules with the action's own messages. */
  function ValidateAction(action: string): (v: Verdict)
    ensures v.ok <==> v.reason.None?
    ensures v.ok <==> 0 < |action| <= 500 && forall i :: 0 <= i < |action| ==> IsTextChar(action[i])
    ensures |action| == 0 ==> v == Verdict(false, Some("Действие не может быть пустым"))
    ensures |action| > 500 ==> v == Verdict(false, Some("Действие не может быть длиннее 500 символов"))
    ensures 0 < |action| <= 500 && (exists i :: 0 <= i < |action| && !IsTextChar(action[i])) ==>
              v == Verdict(false, Some("Действие содержит недопустимые символы"))
  {
    assert NatToDecimal(500) == "500";
    assert TooLongReason(ActionField) == "Действие не может быть длиннее 500 символов";
    Validate(ActionField, action)
  }

  /** Scenario and action accept exactly the same texts. */
  lemma ScenarioAndActionAgree(s: string)
    ensures ValidateScenario(s).ok <==> ValidateAction(s).ok
  {
  }

  /** Every accepted name is also an accepted action: the name class is
      contained in the text class and 30 < 500. */
  lemma NameClassWithinTextClass(c: char)
    ensures IsNameChar(c) ==> IsTextChar(c)
  {
    assert '-' in TEXT_PUNCTUATION;
  }

  /** The names the repository's tests accept. */
  lemma AcceptedNameExamples()
    ensures ValidateName("Иван") == Verdict(true, None)
    ensures ValidateName("John") == Verdict(true, None)
    ensures ValidateName("Иван-Петр") == Verdict(true, None)
  {
  }

  /** The names the repository's tests reject, with their reasons. */
  lemma RejectedNameExamples()
    ensures ValidateName("") == Verdict(false, Some("Имя не может быть пустым"))
    ensures ValidateName("Иван123") == Verdict(false, Some("Имя может содержать только буквы, пробелы и дефисы"))
    ensures ValidateName(seq(31, _ => 'А')) == Verdict(false, Some("Имя не может быть длиннее 30 символов"))
  {
    var bad := "Иван123";
    assert !IsNameChar(bad[4]);
  }

  /** The plain scenarios the repository's tests accept. */
  lemma AcceptedScenarioExamples()
    ensures ValidateScenario("Тестовый сценарий") == Verdict(true, None)
    ensures ValidateScenario("Test scenario with numbers 123") == Verdict(true, None)
  {
  }

  /** The scenarios the repository's tests reject, with their reasons. */
  lemma RejectedScenarioExamples()
    ensures ValidateScenario("") == Verdict(false, Some("Сценарий не может быть пустым"))
    ensures ValidateScenario(seq(501, _ => 'А')) == Verdict(false, Some("Сценарий не может быть длиннее 500 символов"))
  {
  }

  /** A plain action the repository's tests accept. */
  lemma AcceptedActionExamples()
    ensures ValidateAction("Бежать из здания") == Verdict(true, None)
  {
  }

  /** An action with punctuation the repository's tests accept. */
  lemma PunctuatedActionExample()
    ensures ValidateAction("Run and hide! Quickly.") == Verdict(true, None)
  {
    assert '!' in TEXT_PUNCTUATION && '.' in TEXT_PUNCTUATION;
  }

  /** The actions the repository's tests reject, with their reasons. */
  lemma RejectedActionExamples()
    ensures ValidateAction("") == Verdict(false, Some("Действие не может быть пустым"))
    ensures ValidateAction(seq(501, _ => 'А')) == Verdict(false, Some("Действие не может быть длиннее 500 символов"))
  {
  }
}
