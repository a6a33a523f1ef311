/** The form checks of public/script.js: `validateInput` with its three
    rules, the live rules attached to the login and register fields, and
    the length checks the register form makes before sending anything. */
module Validation {
  import opened JsValues

  // ---------------------------------------------------------------------
  // String.prototype.trim

  /** The characters `trim` removes: ECMAScript WhiteSpace and
      LineTerminator code points. */
  predicate IsJsSpace(c: char)
  {
    || ('\U{9}' <= c <= '\U{D}')    // tab, line feed, vertical tab, form feed, carriage return
    || c == ' ' || c == '\U{A0}' || c == '\U{1680}'
    || ('\U{2000}' <= c <= '\U{200A}')
    || c == '\U{2028}' || c == '\U{2029}' || c == '\U{202F}' || c == '\U{205F}'
    || c == '\U{3000}' || c == '\U{FEFF}'
  }

  predicate AllSpace(s: string)
  {
    forall i :: 0 <= i < |s| ==> IsJsSpace(s[i])
  }

  /** Leading white space removed. */
  function TrimStart(s: string): (t: string)
    ensures |t| <= |s| && t == s[|s| - |t|..]
    ensures AllSpace(s[..|s| - |t|])
    ensures t == [] || !IsJsSpace(t[0])
  {
    if s == [] || !IsJsSpace(s[0]) then s
    else
      var t := TrimStart(s[1..]);
      assert s[1..][..|s[1..]| - |t|] == s[1..|s| - |t|];
      t
  }

  /** Trailing white space removed. */
  function TrimEnd(s: string): (t: string)
    ensures |t| <= |s| && t == s[..|t|]
    ensures AllSpace(s[|t|..])
    ensures t == [] || !IsJsSpace(t[|t| - 1])
  {
    if s == [] || !IsJsSpace(s[|s| - 1]) then s
    else
      var t := TrimEnd(s[..|s| - 1]);
      assert s[..|s| - 1][|t|..] == s[|t|..|s| - 1];
      assert s[|t|..] == s[|t|..|s| - 1] + [s[|s| - 1]];
      assert AllSpace(s[|t|..|s| - 1]);
      t
  }

  /** `s.trim()`: neither starts nor ends with white space, and is empty
      exactly when `s` is all white space. */
  function Trim(s: string): (t: string)
    ensures t == [] || (!IsJsSpace(t[0]) && !IsJsSpace(t[|t| - 1]))
    ensures AllSpace(s) <==> t == []
  {
    var a := TrimStart(s);
    var t := TrimEnd(a);
    assert t == [] ==> AllSpace(s) by {
      if t == [] {
        assert a[|t|..] == a;
        assert s[..|s| - |a|] == s;
      }
    }
    assert t != [] ==> !AllSpace(s) by {
      if t != [] { assert s[|s| - |a|] == t[0]; }
    }
    t
  }

  /** The trimmed value is what lies between the white space at the two
      ends of `s`. */
  lemma TrimIsInfix(s: string)
    ensures exists i, j :: 0 <= i <= j <= |s| && Trim(s) == s[i..j] && AllSpace(s[..i]) && AllSpace(s[j..])
  {
    var a := TrimStart(s);
    var t := TrimEnd(a);
    var i := |s| - |a|;
    var j := i + |t|;
    assert t == s[i..j];
    assert s[j..] == a[|t|..];
  }

  /** White space around a value makes no difference to its trimmed form. */
  lemma {:induction false} TrimIgnoresPadding(pre: string, s: string, post: string)
    requires AllSpace(pre) && AllSpace(post)
    ensures Trim(pre + s + post) == Trim(s)
  {
    assert pre + s + post == pre + (s + post);
    TrimStartPadding(pre, s + post);
    if TrimStart(s) == [] {
      TrimStartBlank(s, post);
    } else {
      TrimStartKeepsTail(s, post);
      TrimEndPadding(TrimStart(s), post);
    }
  }

  lemma {:induction false} TrimStartBlank(s: string, post: string)
    requires AllSpace(post) && TrimStart(s) == []
    ensures TrimStart(s + post) == []
    decreases |s|
  {
    if s == [] {
      assert s + post == post;
      AllSpaceTrimStart(post);
    } else {
      assert (s + post)[1..] == s[1..] + post;
      TrimStartBlank(s[1..], post);
    }
  }

  lemma {:induction false} TrimStartPadding(pre: string, s: string)
    requires AllSpace(pre)
    ensures TrimStart(pre + s) == TrimStart(s)
    decreases |pre|
  {
    if pre != [] {
      assert (pre + s)[1..] == pre[1..] + s;
      TrimStartPadding(pre[1..], s);
    } else {
      assert pre + s == s;
    }
  }

  lemma {:induction false} AllSpaceTrimStart(s: string)
    requires AllSpace(s)
    ensures TrimStart(s) == []
    decreases |s|
  {
    if s != [] {
      AllSpaceTrimStart(s[1..]);
    }
  }

  /** Once a non-space character is reached, what follows is kept. */
  lemma {:induction false} TrimStartKeepsTail(s: string, post: string)
    requires TrimStart(s) != []
    ensures TrimStart(s + post) == TrimStart(s) + post
    decreases |s|
  {
    if IsJsSpace(s[0]) {
      assert (s + post)[1..] == s[1..] + post;
      TrimStartKeepsTail(s[1..], post);
    }
  }

  lemma {:induction false} TrimEndPadding(s: string, post: string)
    requires AllSpace(post)
    ensures TrimEnd(s + post) == TrimEnd(s)
    decreases |post|
  {
    if post != [] {
      var sp := s + post;
      assert sp[..|sp| - 1] == s + post[..|post| - 1];
      TrimEndPadding(s, post[..|post| - 1]);
    } else {
      assert s + post == s;
    }
  }

  // ---------------------------------------------------------------------
  // validateInput

  /** The decimal text of a number, as a template literal prints it. */
  function NatToString(n: nat): (s: string)
    ensures 0 < |s| && AllDigits(s) && DigitsValue(s) == n
    ensures s[0] == '0' ==> n == 0
  {
    var d := ['0' + (n % 10) as char];
    if n < 10 then d
    else
      var s := NatToString(n / 10) + d;
      assert s[..|s| - 1] == NatToString(n / 10);
      s
  }

  /** `/^[a-zA-Z0-9_]+$/`, the only pattern the page uses. */
  predicate IsWordChar(c: char)
  {
    ('a' <= c <= 'z') || ('A' <= c <= 'Z') || ('0' <= c <= '9') || c == '_'
  }

  predicate MatchesWordPattern(s: string)
  {
    0 < |s| && forall i :: 0 <= i < |s| ==> IsWordChar(s[i])
  }

  /** A rules object. `minLength` 0 stands for an absent (falsy) minimum,
      `pattern` for the presence of the word pattern, and an empty
      `patternMessage` for an absent one. */
  datatype Rules = Rules(required: bool, minLength: nat, pattern: bool, patternMessage: string)

  datatype Validation = Validation(isValid: bool, message: string)

  /** The three rules, each on the trimmed value. */
  predicate RequiredFails(t: string, rules: Rules)
  {
    rules.required && t == ""
  }

  predicate MinLengthFails(t: string, rules: Rules)
  {
    rules.minLength > 0 && |t| < rules.minLength
  }

  predicate PatternFails(t: string, rules: Rules)
  {
    rules.pattern && !MatchesWordPattern(t)
  }

  const RequiredMessage := "This field is required"

  function MinLengthMessage(n: nat): string
  {
    "Must be at least " + NatToString(n) + " characters"
  }

  /** `validateInput` (public/script.js:26-44), without the styling of
      the field: the value is trimmed, and the first failing rule, in the
      order required, minimum length, pattern, decides the message. */
  function ValidateInput(value: string, rules: Rules): (v: Validation)
    ensures var t := Trim(value);
            v.isValid <==> !RequiredFails(t, rules) && !MinLengthFails(t, rules) && !PatternFails(t, rules)
    ensures v.isValid ==> v.message == ""
    ensures !v.isValid ==> v.message != ""
  {
    CheckRules(Trim(value), rules)
  }

  /** The rule chain applied to an already trimmed value. */
  function CheckRules(t: string, rules: Rules): (v: Validation)
    ensures v.isValid <==> !RequiredFails(t, rules) && !MinLengthFails(t, rules) && !PatternFails(t, rules)
    ensures v.isValid ==> v.message == ""
    ensures !v.isValid ==> v.message != ""
  {
    if rules.required && t == "" then Validation(false, RequiredMessage)
    else if rules.minLength > 0 && |t| < rules.minLength then Validation(false, MinLengthMessage(rules.minLength))
    else if rules.pattern && !MatchesWordPattern(t) then
      Validation(false, if rules.patternMessage != "" then rules.patternMessage else "Invalid format")
    else Validation(true, "")
  }

  /** The message names the first failing rule. */
  lemma FirstFailingRuleDecides(value: string, rules: Rules)
    ensures var t := Trim(value);
            var v := ValidateInput(value, rules);
            && (RequiredFails(t, rules) ==> v.message == RequiredMessage)
            && (!RequiredFails(t, rules) && MinLengthFails(t, rules) ==> v.message == MinLengthMessage(rules.minLength))
            && (!RequiredFails(t, rules) && !MinLengthFails(t, rules) && PatternFails(t, rules) ==>
                  v.message == if rules.patternMessage != "" then rules.patternMessage else "Invalid format")
  {
  }

  /** A required field holding nothing but white space fails with the
      required message, whatever the other rules say. */
  lemma BlankRequiredFails(value: string, rules: Rules)
    requires rules.required && AllSpace(value)
    ensures ValidateInput(value, rules) == Validation(false, RequiredMessage)
  {
  }

  /** White space typed around a value never changes the verdict. */
  lemma PaddingIgnored(pre: string, value: string, post: string, rules: Rules)
    requires AllSpace(pre) && AllSpace(post)
    ensures ValidateInput(pre + value + post, rules) == ValidateInput(value, rules)
  {
    TrimIgnoresPadding(pre, value, post);
  }

  // ---------------------------------------------------------------------
  // The rules the page attaches to its fields (public/script.js:96-102, 151-162)

  const LoginUsernameRules := Rules(true, 3, false, "")
  const PasswordRules := Rules(true, 6, false, "")
  const RegisterUsernameRules := Rules(true, 3, true, "Only letters, numbers, and underscores allowed")

  /** A register username passes the live check iff its trimmed form has
      at least 3 characters, all letters, digits or underscores. */
  lemma RegisterUsernameRule(value: string)
    ensures ValidateInput(value, RegisterUsernameRules).isValid <==>
              |Trim(value)| >= 3 && MatchesWordPattern(Trim(value))
  {
  }

  /** A password (login or register) passes iff its trimmed form has at
      least 6 characters; a login username iff at least 3. */
  lemma LengthRules(value: string)
    ensures ValidateInput(value, PasswordRules).isValid <==> |Trim(value)| >= 6
    ensures ValidateInput(value, LoginUsernameRules).isValid <==> |Trim(value)| >= 3
  {
  }

  // ---------------------------------------------------------------------
  // Register submit (public/script.js:111-118)

  /** The checks made on submit, on the untrimmed values: the notification
      shown, or None when the request goes out. */
  function RegisterPrecheck(username: string, password: string): (err: Option<string>)
    ensures err.None? <==> |username| >= 3 && |password| >= 6
    ensures |username| < 3 ==> err == Some("Username must be at least 3 characters long")
    ensures |username| >= 3 && |password| < 6 ==> err == Some("Password must be at least 6 characters long")
  {
    if |username| < 3 then Some("Username must be at least 3 characters long")
    else if |password| < 6 then Some("Password must be at least 6 characters long")
    else None
  }

  /** The submit check counts white space the live check trims: a padded
      two-letter name is sent although the field shows it as invalid. */
  lemma SubmitAcceptsWhatLiveRuleRejects()
    ensures RegisterPrecheck(" ab", "secret").None?
    ensures !ValidateInput(" ab", RegisterUsernameRules).isValid
  {
    assert IsJsSpace(' ') && !IsJsSpace('a') && !IsJsSpace('b');
    assert TrimStart("ab") == "ab";
    assert TrimStart(" ab") == "ab" by { assert " ab"[1..] == "ab"; }
    assert TrimEnd("ab") == "ab";
    assert Trim(" ab") == "ab";
    assert MinLengthFails("ab", RegisterUsernameRules);
  }
}
