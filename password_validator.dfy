/** The password policy of `lib/password-validator.ts`: five rules checked in a fixed order,
    the first rule that fails choosing the message. */
module PasswordValidator {
  import opened Wrappers

  /** The shortest password accepted. */
  const MinLength := 12

  /** The five rules, named in the order the validator checks them. */
  datatype Rule = Length | Uppercase | Lowercase | Digit | Special

  const Rules: seq<Rule> := [Length, Uppercase, Lowercase, Digit, Special]

  /** The characters of the class `[!@#$%^&*()_+\-=\[\]{};':"\\|,.<>\/?]`. */
  const SpecialCharacters: string := "!@#$%^&*()_+-=[]{};':\"\\|,.<>/?"

  predicate HasUppercase(p: string) { exists i :: 0 <= i < |p| && 'A' <= p[i] <= 'Z' }
  predicate HasLowercase(p: string) { exists i :: 0 <= i < |p| && 'a' <= p[i] <= 'z' }
  predicate HasDigit(p: string) { exists i :: 0 <= i < |p| && '0' <= p[i] <= '9' }
  predicate HasSpecial(p: string) { exists i :: 0 <= i < |p| && p[i] in SpecialCharacters }

  /** What each rule demands of a password. */
  predicate Satisfies(p: string, rule: Rule)
  {
    match rule
    case Length => |p| >= MinLength
    case Uppercase => HasUppercase(p)
    case Lowercase => HasLowercase(p)
    case Digit => HasDigit(p)
    case Special => HasSpecial(p)
  }

  /** The message the validator returns when `rule` is the first to fail. */
  function Message(rule: Rule): string
  {
    match rule
    case Length => "Le mot de passe doit contenir au moins 12 caractères"
    case Uppercase => "Le mot de passe doit contenir au moins une majuscule"
    case Lowercase => "Le mot de passe doit contenir au moins une minuscule"
    case Digit => "Le mot de passe doit contenir au moins un chiffre"
    case Special => "Le mot de passe doit contenir au moins un caractère spécial (!@#$%^&*...)"
  }

  /** The `{ valid, message? }` record the validator returns. */
  datatype Validation = Validation(valid: bool, message: Option<string>)

  /** `validatePassword`: the five tests with early returns, length first. */
  function ValidatePassword(password: string): (r: Validation)
    ensures r.valid <==> forall rule :: Satisfies(password, rule)
    ensures r.valid <==> r.message.None?
    ensures !r.valid ==> exists rule :: !Satisfies(password, rule) && r.message == Some(Message(rule))
  {
    if |password| < MinLength then
      assert !Satisfies(password, Length);
      Validation(false, Some(Message(Length)))
    else if !HasUppercase(password) then
      assert !Satisfies(password, Uppercase);
      Validation(false, Some(Message(Uppercase)))
    else if !HasLowercase(password) then
      assert !Satisfies(password, Lowercase);
      Validation(false, Some(Message(Lowercase)))
    else if !HasDigit(password) then
      assert !Satisfies(password, Digit);
      Validation(false, Some(Message(Digit)))
    else if !HasSpecial(password) then
      assert !Satisfies(password, Special);
      Validation(false, Some(Message(Special)))
    else
      Validation(true, None)
  }

  /** Reference definition: the position of the first rule of `rules` that `p` fails,
      or `|rules|` when it satisfies them all. */
  function FirstFailing(p: string, rules: seq<Rule>): (k: nat)
    ensures k <= |rules|
    ensures forall j :: 0 <= j < k ==> Satisfies(p, rules[j])
    ensures k < |rules| ==> !Satisfies(p, rules[k])
  {
    if rules == [] then 0
    else if !Satisfies(p, rules[0]) then 0
    else 1 + FirstFailing(p, rules[1..])
  }

  /** The validator rejects with the message of the first rule that fails, in the order
      length, upper case, lower case, digit, special character, and accepts when none fails. */
  lemma ValidateReportsFirstFailure(p: string)
    ensures var k := FirstFailing(p, Rules);
      ValidatePassword(p) ==
        if k == |Rules| then Validation(true, None)
        else Validation(false, Some(Message(Rules[k])))
  {
    var k := FirstFailing(p, Rules);
    assert Rules[0] == Length && Rules[1] == Uppercase && Rules[2] == Lowercase;
    assert Rules[3] == Digit && Rules[4] == Special;
    if k == |Rules| {
      forall rule ensures Satisfies(p, rule) {
        match rule
        case Length => assert Satisfies(p, Rules[0]);
        case Uppercase => assert Satisfies(p, Rules[1]);
        case Lowercase => assert Satisfies(p, Rules[2]);
        case Digit => assert Satisfies(p, Rules[3]);
        case Special => assert Satisfies(p, Rules[4]);
      }
    } else if k == 0 {
      assert |p| < MinLength;
    } else if k == 1 {
      assert !HasUppercase(p);
    } else if k == 2 {
      assert !HasLowercase(p);
    } else if k == 3 {
      assert !HasDigit(p);
    } else {
      assert !HasSpecial(p);
    }
  }

  /** Length is checked first: a short password gets the length message whatever it holds. */
  lemma ShortPasswordRejected(p: string)
    requires |p| < MinLength
    ensures ValidatePassword(p) == Validation(false, Some(Message(Length)))
  {
  }

  /** Distinct rules have distinct messages, so the message names the rule that failed. */
  lemma MessagesIdentifyRule(a: Rule, b: Rule)
    requires Message(a) == Message(b)
    ensures a == b
  {
  }

  /** The requirement shown to users for each rule. */
  function Requirement(rule: Rule): string
  {
    match rule
    case Length => "Au moins 12 caractères"
    case Uppercase => "Au moins une majuscule (A-Z)"
    case Lowercase => "Au moins une minuscule (a-z)"
    case Digit => "Au moins un chiffre (0-9)"
    case Special => "Au moins un caractère spécial (!@#$%^&*...)"
  }

  /** `getPasswordRequirements`: one requirement per rule, in the order the validator checks them. */
  function GetPasswordRequirements(): (r: seq<string>)
    ensures |r| == |Rules| == 5
    ensures forall i :: 0 <= i < |r| ==> r[i] == Requirement(Rules[i])
  {
    [
      "Au moins 12 caractères",
      "Au moins une majuscule (A-Z)",
      "Au moins une minuscule (a-z)",
      "Au moins un chiffre (0-9)",
      "Au moins un caractère spécial (!@#$%^&*...)"
    ]
  }
}
