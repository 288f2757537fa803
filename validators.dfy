/** The form validators of helpers.py (validate_username, validate_email,
    validate_password, validate_confirmation_password, validate_contact_inputs).
    Each inspects one string and appends at most one danger message to the
    caller's message list. */
module Validators {
  import opened Wrappers
  import opened Messages

  // ---------------------------------------------------------------------------
  // Character classes (ASCII; see README for Python's Unicode classes)
  // ---------------------------------------------------------------------------

  predicate IsUpper(c: char) { 'A' <= c <= 'Z' }

  predicate IsLower(c: char) { 'a' <= c <= 'z' }

  predicate IsDigit(c: char) { '0' <= c <= '9' }

  predicate IsLetter(c: char) { IsUpper(c) || IsLower(c) }

  /** The regex class [A-Za-z0-9]. */
  predicate IsAlphanumeric(c: char) { IsLetter(c) || IsDigit(c) }

  /** The characters that count as "special" in a password; the last one is a space. */
  const SpecialCharacters: string := "!@#$%^&*()_+-=[]{};':\"\\|,.<>/? "

  predicate IsSpecial(c: char) { c in SpecialCharacters }

  /** The regex class [a-zA-Z0-9._%+-] of the part before the '@'. */
  predicate IsLocalChar(c: char) { IsAlphanumeric(c) || c in "._%+-" }

  /** The regex class [a-zA-Z0-9.-] of the domain part. */
  predicate IsDomainChar(c: char) { IsAlphanumeric(c) || c in ".-" }

  /** Python's any(p(ch) for ch in s): a scan that stops at the first hit. */
  method Any(s: string, p: char -> bool) returns (found: bool)
    ensures found <==> exists i :: 0 <= i < |s| && p(s[i])
  {
    found := false;
    var i := 0;
    while i < |s| && !found
      invariant 0 <= i <= |s|
      invariant found ==> 0 < i && p(s[i - 1])
      invariant !found ==> forall j :: 0 <= j < i ==> !p(s[j])
    {
      found := p(s[i]);
      i := i + 1;
    }
  }

  // ---------------------------------------------------------------------------
  // Messages
  // ---------------------------------------------------------------------------

  const UsernameRequired := Error("Username is required.")
  const UsernameInvalid := Error("Username must contain only characters and numbers.")
  const EmailRequired := Error("Email is required.")
  const EmailInvalid := Error("Please enter a valid email address.")
  const ConfirmationRequired := Error("Confirmation password is required.")
  const PasswordsDoNotMatch := Error("Passwords do not match.")

  // ---------------------------------------------------------------------------
  // validate_username
  // ---------------------------------------------------------------------------

  /** re.match(r'^[A-Za-z0-9]+$', username) */
  predicate MatchesUsernamePattern(username: string)
  {
    |username| > 0 && forall i :: 0 <= i < |username| ==> IsAlphanumeric(username[i])
  }

  /** What validate_username appends. */
  function UsernameReport(username: string): (r: seq<Message>)
    ensures |r| <= 1 && AllErrors(r)
    ensures r == [UsernameRequired] <==> username == ""
    ensures r == [] <==> username != "" && forall i :: 0 <= i < |username| ==> IsAlphanumeric(username[i])
  {
    if username == "" then [UsernameRequired]
    else if !MatchesUsernamePattern(username) then [UsernameInvalid]
    else []
  }

  method ValidateUsername(username: string, messages: MessageLog)
    modifies messages
    ensures messages.entries == old(messages.entries) + UsernameReport(username)
  {
    if username == "" {
      messages.Append(UsernameRequired);
    } else if !MatchesUsernamePattern(username) {
      messages.Append(UsernameInvalid);
    }
  }

  // ---------------------------------------------------------------------------
  // validate_email
  // ---------------------------------------------------------------------------

  /** `s` splits as local '@' domain '.' tld at positions `at` and `dot`, the
      shape of ^[a-zA-Z0-9._%+-]+@[a-zA-Z0-9.-]+\.[a-zA-Z]{2,}$ */
  predicate EmailSplit(s: string, at: int, dot: int)
  {
    0 < at && at + 1 < dot && dot + 2 < |s| &&
    s[at] == '@' && s[dot] == '.' &&
    (forall i :: 0 <= i < at ==> IsLocalChar(s[i])) &&
    (forall i :: at < i < dot ==> IsDomainChar(s[i])) &&
    (forall i :: dot < i < |s| ==> IsLetter(s[i]))
  }

  /** The regex matches: some choice of '@' and final '.' fits the shape. */
  ghost predicate MatchesEmailPattern(s: string)
  {
    exists at, dot :: EmailSplit(s, at, dot)
  }

  /** Position of the first `c` in `s`. */
  function IndexOf(s: string, c: char): (r: Option<nat>)
    ensures r.None? <==> c !in s
    ensures r.Some? ==> r.value < |s| && s[r.value] == c
    ensures r.Some? ==> forall j :: 0 <= j < r.value ==> s[j] != c
  {
    if s == [] then None
    else if s[0] == c then Some(0)
    else
      match IndexOf(s[1..], c)
      case None => None
      case Some(k) => Some(k + 1)
  }

  /** Position of the last `c` in `s`. */
  function LastIndexOf(s: string, c: char): (r: Option<nat>)
    ensures r.None? <==> c !in s
    ensures r.Some? ==> r.value < |s| && s[r.value] == c
    ensures r.Some? ==> forall j :: r.value < j < |s| ==> s[j] != c
  {
    if s == [] then None
    else if s[|s| - 1] == c then Some(|s| - 1)
    else
      var r := LastIndexOf(s[..|s| - 1], c);
      assert c !in s[..|s| - 1] ==> c !in s by {
        assert s == s[..|s| - 1] + [s[|s| - 1]];
      }
      r
  }

  /** Decides the email pattern: the local part holds no '@' and the top-level
      domain no '.', so the only candidates are the first '@' and the last '.'. */
  function EmailPatternMatch(s: string): (b: bool)
    ensures b <==> MatchesEmailPattern(s)
  {
    var at := IndexOf(s, '@');
    var dot := LastIndexOf(s, '.');
    EmailCandidatesSuffice(s);
    at.Some? && dot.Some? && EmailSplit(s, at.value, dot.value)
  }

  lemma EmailCandidatesSuffice(s: string)
    ensures MatchesEmailPattern(s) ==>
      var at, dot := IndexOf(s, '@'), LastIndexOf(s, '.');
      at.Some? && dot.Some? && EmailSplit(s, at.value, dot.value)
  {
    if MatchesEmailPattern(s) {
      var a, d :| EmailSplit(s, a, d);
      EmailSplitIsUnique(s, a, d);
    }
  }

  lemma EmailSplitIsUnique(s: string, at: int, dot: int)
    requires EmailSplit(s, at, dot)
    ensures IndexOf(s, '@') == Some(at)
    ensures LastIndexOf(s, '.') == Some(dot)
  {
    assert s[at] == '@' && s[dot] == '.';
    assert forall i :: 0 <= i < at ==> s[i] != '@' by {
      forall i | 0 <= i < at ensures s[i] != '@' { assert IsLocalChar(s[i]); }
    }
    assert forall i :: dot < i < |s| ==> s[i] != '.' by {
      forall i | dot < i < |s| ensures s[i] != '.' { assert IsLetter(s[i]); }
    }
  }

  /** What validate_email appends: the regex test plus the two redundant
      membership tests of the source. */
  function EmailReport(email: string): (r: seq<Message>)
    ensures |r| <= 1 && AllErrors(r)
    ensures r == [EmailRequired] <==> email == ""
  {
    if email == "" then [EmailRequired]
    else if !EmailPatternMatch(email) || '@' !in email || '.' !in email then [EmailInvalid]
    else []
  }

  /** The '@' and '.' tests add nothing: the email is accepted exactly when it
      has the local@domain.tld shape. */
  lemma EmailAcceptedIffPattern(email: string)
    ensures EmailReport(email) == [] <==> MatchesEmailPattern(email)
  {
    if MatchesEmailPattern(email) {
      var at, dot :| EmailSplit(email, at, dot);
      assert email[at] == '@' && email[dot] == '.';
    }
  }

  method ValidateEmail(email: string, messages: MessageLog)
    modifies messages
    ensures messages.entries == old(messages.entries) + EmailReport(email)
  {
    if email == "" {
      messages.Append(EmailRequired);
    } else if !EmailPatternMatch(email) || '@' !in email || '.' !in email {
      messages.Append(EmailInvalid);
    }
  }

  // ---------------------------------------------------------------------------
  // validate_confirmation_password
  // ---------------------------------------------------------------------------

  /** What validate_confirmation_password appends. */
  function ConfirmationReport(password: string, confirmation: string): (r: seq<Message>)
    ensures |r| <= 1 && AllErrors(r)
    ensures r == [] <==> confirmation != "" && confirmation == password
    ensures confirmation == "" ==> r == [ConfirmationRequired]
    ensures PasswordsDoNotMatch in r <==> confirmation != "" && confirmation != password
  {
    if confirmation == "" then [ConfirmationRequired]
    else if password != confirmation then [PasswordsDoNotMatch]
    else []
  }

  method ValidateConfirmationPassword(password: string, confirmation: string, messages: MessageLog)
    modifies messages
    ensures messages.entries == old(messages.entries) + ConfirmationReport(password, confirmation)
  {
    if confirmation == "" {
      messages.Append(ConfirmationRequired);
    } else if password != confirmation {
      messages.Append(PasswordsDoNotMatch);
    }
  }

  // ---------------------------------------------------------------------------
  // validate_password
  // ---------------------------------------------------------------------------

  /** The password rules, in the order the source tests them. */
  datatype PasswordRule = NonEmpty | MinLength | HasUppercase | HasLowercase | HasDigit | HasSpecial

  const PasswordRules: seq<PasswordRule> :=
    [NonEmpty, MinLength, HasUppercase, HasLowercase, HasDigit, HasSpecial]

  const MinPasswordLength := 8

  predicate HasUpperChar(s: string) { exists i :: 0 <= i < |s| && IsUpper(s[i]) }

  predicate HasLowerChar(s: string) { exists i :: 0 <= i < |s| && IsLower(s[i]) }

  predicate HasDigitChar(s: string) { exists i :: 0 <= i < |s| && IsDigit(s[i]) }

  predicate HasSpecialChar(s: string) { exists i :: 0 <= i < |s| && IsSpecial(s[i]) }

  predicate Satisfies(password: string, rule: PasswordRule)
  {
    match rule
    case NonEmpty => password != ""
    case MinLength => |password| >= MinPasswordLength
    case HasUppercase => HasUpperChar(password)
    case HasLowercase => HasLowerChar(password)
    case HasDigit => HasDigitChar(password)
    case HasSpecial => HasSpecialChar(password)
  }

  /** The text reported when `rule` is the first one broken. */
  function RuleText(rule: PasswordRule): string
  {
    match rule
    case NonEmpty => "Password is required."
    case MinLength => "Password must be at least 8 characters long."
    case HasUppercase => "Password must contain at least 1 uppercase letter."
    case HasLowercase => "Password must contain at least 1 lowercase letter."
    case HasDigit => "Password must contain at least 1 number."
    case HasSpecial => "Password must contain at least one special character (!@#$%^&*()_+-=[]{};':\"\\|,.<>/?)."
  }

  function RuleMessage(rule: PasswordRule): Message
  {
    Error(RuleText(rule))
  }

  /** `rules[k]` is the first of `rules` that `password` breaks. */
  predicate FirstBrokenAt(password: string, rules: seq<PasswordRule>, k: int)
  {
    0 <= k < |rules| && !Satisfies(password, rules[k]) &&
    forall j :: 0 <= j < k ==> Satisfies(password, rules[j])
  }

  /** The first rule of `rules` that `password` breaks. */
  function FirstBroken(password: string, rules: seq<PasswordRule>): (r: Option<PasswordRule>)
    ensures r.None? <==> forall i :: 0 <= i < |rules| ==> Satisfies(password, rules[i])
    ensures r.Some? ==> exists k :: FirstBrokenAt(password, rules, k) && rules[k] == r.value
  {
    if rules == [] then None
    else if !Satisfies(password, rules[0]) then
      assert FirstBrokenAt(password, rules, 0);
      Some(rules[0])
    else
      var r := FirstBroken(password, rules[1..]);
      if r.Some? then
        var k :| FirstBrokenAt(password, rules[1..], k) && rules[1..][k] == r.value;
        assert FirstBrokenAt(password, rules, k + 1) by {
          forall j | 0 <= j < k + 1 ensures Satisfies(password, rules[j]) {
            if j > 0 { assert rules[j] == rules[1..][j - 1]; }
          }
        }
        r
      else
        assert forall i :: 0 <= i < |rules| ==> Satisfies(password, rules[i]) by {
          forall i | 0 <= i < |rules| ensures Satisfies(password, rules[i]) {
            if i > 0 { assert rules[i] == rules[1..][i - 1]; }
          }
        }
        r
  }

  /** A password is accepted when it keeps every rule. */
  predicate AcceptablePassword(password: string)
  {
    forall i :: 0 <= i < |PasswordRules| ==> Satisfies(password, PasswordRules[i])
  }

  /** What validate_password appends: the message of the first broken rule. */
  function PasswordReport(password: string): (r: seq<Message>)
    ensures |r| <= 1 && AllErrors(r)
    ensures r == [] <==> AcceptablePassword(password)
  {
    match FirstBroken(password, PasswordRules)
    case None => []
    case Some(rule) => [RuleMessage(rule)]
  }

  /** Accepted exactly when non-empty, at least 8 long, and holding an
      uppercase letter, a lowercase letter, a digit and a special character. */
  lemma PasswordAcceptedIffAllRules(password: string)
    ensures PasswordReport(password) == [] <==>
      password != "" && |password| >= 8 &&
      (exists i :: 0 <= i < |password| && IsUpper(password[i])) &&
      (exists i :: 0 <= i < |password| && IsLower(password[i])) &&
      (exists i :: 0 <= i < |password| && IsDigit(password[i])) &&
      (exists i :: 0 <= i < |password| && IsSpecial(password[i]))
  {
    assert Satisfies(password, PasswordRules[0]) == (password != "");
    assert Satisfies(password, PasswordRules[1]) == (|password| >= 8);
    assert PasswordRules[2] == HasUppercase && PasswordRules[3] == HasLowercase;
    assert PasswordRules[4] == HasDigit && PasswordRules[5] == HasSpecial;
  }

  /** The one message reported is that of the first rule, in source order,
      that the password breaks. */
  lemma PasswordReportNamesFirstBroken(password: string, k: int)
    requires FirstBrokenAt(password, PasswordRules, k)
    ensures PasswordReport(password) == [RuleMessage(PasswordRules[k])]
  {
    var r := FirstBroken(password, PasswordRules);
    var k' :| FirstBrokenAt(password, PasswordRules, k') && PasswordRules[k'] == r.value;
    assert k' == k;
  }

  /** A space is one of the special characters: a password of eight letters
      and digits followed by a space is accepted. */
  lemma SpaceCountsAsSpecial()
    ensures PasswordReport("Passw0rd ") == []
  {
    var p := "Passw0rd ";
    assert IsUpper(p[0]) && IsLower(p[1]) && IsDigit(p[5]) && IsSpecial(p[8]);
    PasswordAcceptedIffAllRules(p);
  }

  /** The first broken rule is the one the source's if/elif chain stops at. */
  lemma FirstBrokenIsChain(password: string)
    ensures FirstBroken(password, PasswordRules) ==
      if !Satisfies(password, NonEmpty) then Some(NonEmpty)
      else if !Satisfies(password, MinLength) then Some(MinLength)
      else if !Satisfies(password, HasUppercase) then Some(HasUppercase)
      else if !Satisfies(password, HasLowercase) then Some(HasLowercase)
      else if !Satisfies(password, HasDigit) then Some(HasDigit)
      else if !Satisfies(password, HasSpecial) then Some(HasSpecial)
      else None
  {
    var p := password;
    assert FirstBroken(p, [HasSpecial]) ==
      if !Satisfies(p, HasSpecial) then Some(HasSpecial) else None by {
      assert [HasSpecial][1..] == [];
    }
    assert FirstBroken(p, [HasDigit, HasSpecial]) ==
      if !Satisfies(p, HasDigit) then Some(HasDigit) else FirstBroken(p, [HasSpecial]) by {
      assert [HasDigit, HasSpecial][1..] == [HasSpecial];
    }
    assert FirstBroken(p, [HasLowercase, HasDigit, HasSpecial]) ==
      if !Satisfies(p, HasLowercase) then Some(HasLowercase) else FirstBroken(p, [HasDigit, HasSpecial]) by {
      assert [HasLowercase, HasDigit, HasSpecial][1..] == [HasDigit, HasSpecial];
    }
    assert FirstBroken(p, [HasUppercase, HasLowercase, HasDigit, HasSpecial]) ==
      if !Satisfies(p, HasUppercase) then Some(HasUppercase)
      else FirstBroken(p, [HasLowercase, HasDigit, HasSpecial]) by {
      assert [HasUppercase, HasLowercase, HasDigit, HasSpecial][1..] == [HasLowercase, HasDigit, HasSpecial];
    }
    assert FirstBroken(p, [MinLength, HasUppercase, HasLowercase, HasDigit, HasSpecial]) ==
      if !Satisfies(p, MinLength) then Some(MinLength)
      else FirstBroken(p, [HasUppercase, HasLowercase, HasDigit, HasSpecial]) by {
      assert [MinLength, HasUppercase, HasLowercase, HasDigit, HasSpecial][1..] ==
        [HasUppercase, HasLowercase, HasDigit, HasSpecial];
    }
    assert FirstBroken(p, PasswordRules) ==
      if !Satisfies(p, NonEmpty) then Some(NonEmpty)
      else FirstBroken(p, [MinLength, HasUppercase, HasLowercase, HasDigit, HasSpecial]) by {
      assert PasswordRules[1..] == [MinLength, HasUppercase, HasLowercase, HasDigit, HasSpecial];
    }
  }

  /** The chain again, with the four character scans already done. */
  lemma FirstBrokenFromScans(password: string, hasUpper: bool, hasLower: bool,
                             hasDigit: bool, hasSpecial: bool)
    requires hasUpper == HasUpperChar(password) && hasLower == HasLowerChar(password)
    requires hasDigit == HasDigitChar(password) && hasSpecial == HasSpecialChar(password)
    ensures FirstBroken(password, PasswordRules) ==
      if password == "" then Some(NonEmpty)
      else if |password| < MinPasswordLength then Some(MinLength)
      else if !hasUpper then Some(HasUppercase)
      else if !hasLower then Some(HasLowercase)
      else if !hasDigit then Some(HasDigit)
      else if !hasSpecial then Some(HasSpecial)
      else None
  {
    FirstBrokenIsChain(password);
  }

  /** The if/elif chain of validate_password, with its four `any` scans:
      it stops at the first broken rule. */
  method FindBrokenRule(password: string) returns (broken: Option<PasswordRule>)
    ensures broken == FirstBroken(password, PasswordRules)
  {
    var hasUpper := Any(password, IsUpper);
    var hasLower := Any(password, IsLower);
    var hasDigit := Any(password, IsDigit);
    var hasSpecial := Any(password, IsSpecial);
    FirstBrokenFromScans(password, hasUpper, hasLower, hasDigit, hasSpecial);
    broken := None;
    if password == "" {
      broken := Some(NonEmpty);
    } else if |password| < MinPasswordLength {
      broken := Some(MinLength);
    } else if !hasUpper {
      broken := Some(HasUppercase);
    } else if !hasLower {
      broken := Some(HasLowercase);
    } else if !hasDigit {
      broken := Some(HasDigit);
    } else if !hasSpecial {
      broken := Some(HasSpecial);
    }
  }

  /** validate_password: appends the message of the rule the chain stops at. */
  method ValidatePassword(password: string, messages: MessageLog)
    modifies messages
    ensures messages.entries == old(messages.entries) + PasswordReport(password)
  {
    var broken := FindBrokenRule(password);
    if broken.Some? {
      messages.Append(RuleMessage(broken.value));
    }
  }

  // ---------------------------------------------------------------------------
  // validate_contact_inputs
  // ---------------------------------------------------------------------------

  /** What validate_contact_inputs appends. */
  function ContactReport(fieldValue: string, fieldName: string): (r: seq<Message>)
    ensures r == [] <==> fieldValue != ""
    ensures r != [] ==> r == [Required(fieldName)]
  {
    if fieldValue == "" then [Required(fieldName)] else []
  }

  method ValidateContactInputs(fieldValue: string, fieldName: string, messages: MessageLog)
    modifies messages
    ensures messages.entries == old(messages.entries) + ContactReport(fieldValue, fieldName)
  {
    if fieldValue == "" {
      messages.Append(Required(fieldName));
    }
  }
}
