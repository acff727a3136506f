/**
 * The four input validators of utils/validator.js. Each regular expression
 * has two descriptions here: a character-level predicate that decides it
 * (what the validator computes), and a statement of what the pattern
 * matches, written as the regular-expression semantics read it. A lemma
 * proves that the two agree on every string.
 *
 * Lengths are counted in characters. JavaScript counts UTF-16 code units
 * (see README).
 */
module Validator {
  import opened Wrappers
  import opened Strings

  // ---------------------------------------------------------------------------
  // emailValidator (utils/validator.js:2-5)
  // ---------------------------------------------------------------------------

  /** A character of the class `[^\s@]`. */
  predicate IsAddressChar(c: char) {
    !IsJsSpace(c) && c != '@'
  }

  predicate AllAddressChars(s: string) {
    forall i :: 0 <= i < |s| ==> IsAddressChar(s[i])
  }

  predicate NoSpace(s: string) {
    forall i :: 0 <= i < |s| ==> !IsJsSpace(s[i])
  }

  /** What the e-mail pattern matches: a non-empty run of `[^\s@]`, then `@`, then a
      non-empty run, then `.`, then a non-empty run, and nothing else. */
  predicate EmailPattern(s: string) {
    exists i, j :: 0 < i && i + 1 < j < |s| - 1 && s[i] == '@' && s[j] == '.' &&
      AllAddressChars(s[..i]) && AllAddressChars(s[i + 1..j]) && AllAddressChars(s[j + 1..])
  }

  /** `emailValidator`. It accepts a string with no white space and exactly one `@`
      (splitting on `@` gives two pieces). The local part must be non-empty. The
      domain must hold a `.` that is neither its first nor its last character. */
  function EmailValidator(email: string): bool {
    var parts := Split(email, '@');
    NoSpace(email) && |parts| == 2 && |parts[0]| > 0 &&
    |parts[1]| >= 3 && '.' in parts[1][1..|parts[1]| - 1]
  }

  /** The validator decides exactly the e-mail pattern, and an accepted address holds exactly one `@`. */
  lemma EmailValidatorMatchesPattern(email: string)
    ensures EmailValidator(email) <==> EmailPattern(email)
    ensures EmailValidator(email) ==> Count(email, '@') == 1
  {
    if EmailValidator(email) {
      AcceptedEmailMatches(email);
    }
    if EmailPattern(email) {
      MatchingEmailAccepted(email);
    }
  }

  /** An accepted address matches the pattern. */
  lemma AcceptedEmailMatches(email: string)
    requires EmailValidator(email)
    ensures EmailPattern(email) && Count(email, '@') == 1
  {
    var parts := Split(email, '@');
    var a, d := parts[0], parts[1];
    TwoPieces(email);
    var slice := d[1..|d| - 1];
    var k' :| 0 <= k' < |slice| && slice[k'] == '.';
    assert d[k' + 1] == '.';
    PiecesAreAddressChars(a, d);
    PatternFromPieces(a, d, k' + 1);
  }

  /** The pieces around the one `@` of a string without white space are runs of `[^\s@]`. */
  lemma PiecesAreAddressChars(a: string, d: string)
    requires NoSpace(a + ['@'] + d) && '@' !in a && '@' !in d
    ensures AllAddressChars(a) && AllAddressChars(d)
  {
    var s := a + ['@'] + d;
    forall m | 0 <= m < |a| ensures IsAddressChar(a[m]) {
      assert a[m] == s[m];
    }
    forall m | 0 <= m < |d| ensures IsAddressChar(d[m]) {
      assert d[m] == s[|a| + 1 + m];
    }
  }

  /** Two runs of `[^\s@]` around an `@`, the second with a `.` inside it, match the pattern. */
  lemma PatternFromPieces(a: string, d: string, k: int)
    requires AllAddressChars(a) && AllAddressChars(d) && |a| > 0 && 0 < k < |d| - 1 && d[k] == '.'
    ensures EmailPattern(a + ['@'] + d)
  {
    var s := a + ['@'] + d;
    var i, j := |a|, |a| + 1 + k;
    assert s[..i] == a;
    assert s[i + 1..j] == d[..k];
    assert s[j + 1..] == d[k + 1..];
    assert AllAddressChars(d[..k]) && AllAddressChars(d[k + 1..]);
    assert s[i] == '@' && s[j] == '.';
  }

  /** A string that splits at `@` into two pieces is the two pieces around its one `@`. */
  lemma TwoPieces(email: string)
    requires |Split(email, '@')| == 2
    ensures var parts := Split(email, '@');
            email == parts[0] + ['@'] + parts[1] && '@' !in parts[0] && '@' !in parts[1] &&
            Count(email, '@') == 1
  {
    var parts := Split(email, '@');
    JoinSplit(email, '@');
    var a, d := parts[0], parts[1];
    assert parts[1..] == [d];
    assert email == a + ['@'] + d;
    CountAppend(a + ['@'], d, '@');
    CountAppend(a, ['@'], '@');
    CountAbsent(a, '@');
    CountAbsent(d, '@');
  }

  /** A matching address is accepted. */
  lemma MatchingEmailAccepted(email: string)
    requires EmailPattern(email)
    ensures EmailValidator(email)
  {
    var i, j :| 0 < i && i + 1 < j < |email| - 1 && email[i] == '@' && email[j] == '.' &&
      AllAddressChars(email[..i]) && AllAddressChars(email[i + 1..j]) && AllAddressChars(email[j + 1..]);
    MatchPieces(email, i, j);
    SplitAround(email, i);
    var d := email[i + 1..];
    assert d[1..|d| - 1][j - i - 2] == '.';
  }

  /** Splitting at an `@` that is the only one gives the text before it and the text after it. */
  lemma SplitAround(email: string, i: int)
    requires 0 <= i < |email| && email[i] == '@' && '@' !in email[..i] && '@' !in email[i + 1..]
    ensures Split(email, '@') == [email[..i], email[i + 1..]]
  {
    var a, d := email[..i], email[i + 1..];
    assert Join([a, d], '@') == a + ['@'] + d by {
      assert [a, d][1..] == [d];
    }
    assert a + ['@'] + d == email;
    SplitJoin([a, d], '@');
  }

  /** The pieces of a pattern match around its `@`: neither holds an `@`, and the whole holds no white space. */
  lemma MatchPieces(email: string, i: int, j: int)
    requires 0 < i && i + 1 < j < |email| - 1 && email[i] == '@' && email[j] == '.'
    requires AllAddressChars(email[..i]) && AllAddressChars(email[i + 1..j]) && AllAddressChars(email[j + 1..])
    ensures '@' !in email[..i] && '@' !in email[i + 1..] && NoSpace(email)
  {
    var a, d := email[..i], email[i + 1..];
    forall m | 0 <= m < |d| ensures IsAddressChar(d[m]) {
      if i + 1 + m < j {
        assert d[m] == email[i + 1..j][m];
      } else if i + 1 + m > j {
        assert d[m] == email[j + 1..][m - (j - i)];
      }
    }
    forall m | 0 <= m < |email| ensures !IsJsSpace(email[m]) {
      if m < i {
        assert email[m] == a[m];
      } else if m > i {
        assert email[m] == d[m - i - 1];
      }
    }
  }

  // ---------------------------------------------------------------------------
  // passwordValidator (utils/validator.js:7-10)
  // ---------------------------------------------------------------------------

  /** The symbol class of the fourth look-ahead. */
  predicate IsPasswordSymbol(c: char) {
    c in "!@#$%^&*()_-+[]{}|;:',.<>?"
  }

  /** `(?=.*[p])` tried at the start of `s`: some character satisfies `p`, and no line
      terminator comes before it (`.` does not match one). */
  predicate LooksAhead(s: string, p: char -> bool) {
    exists k :: 0 <= k < |s| && p(s[k]) && forall m :: 0 <= m < k ==> !IsLineTerminator(s[m])
  }

  /** What the password pattern matches: the four look-aheads hold at the start, and
      the whole input is 8 to 64 characters that are not line terminators. */
  predicate PasswordPattern(s: string) {
    LooksAhead(s, IsAsciiLower) && LooksAhead(s, IsAsciiUpper) &&
    LooksAhead(s, IsAsciiDigit) && LooksAhead(s, IsPasswordSymbol) &&
    8 <= |s| <= 64 && forall m :: 0 <= m < |s| ==> !IsLineTerminator(s[m])
  }

  /** Whether some character of `s` satisfies `p`. */
  function Contains(s: string, p: char -> bool): bool {
    if |s| == 0 then false else p(s[0]) || Contains(s[1..], p)
  }

  /** `Contains` holds exactly when some character satisfies the class. */
  lemma {:induction false} ContainsWitness(s: string, p: char -> bool)
    ensures Contains(s, p) <==> exists k :: 0 <= k < |s| && p(s[k])
  {
    if |s| > 0 {
      ContainsWitness(s[1..], p);
      if Contains(s[1..], p) {
        var k :| 0 <= k < |s[1..]| && p(s[1..][k]);
        assert p(s[k + 1]);
      }
      if exists k :: 0 <= k < |s| && p(s[k]) {
        var k :| 0 <= k < |s| && p(s[k]);
        if k > 0 { assert p(s[1..][k - 1]); }
      }
    }
  }

  /** `passwordValidator`. It accepts 8 to 64 characters with no line terminator. They
      must include at least one ASCII lower-case letter, one upper-case letter, one
      digit and one of the listed symbols. */
  function PasswordValidator(password: string): bool {
    8 <= |password| <= 64 && !Contains(password, IsLineTerminator) &&
    Contains(password, IsAsciiLower) && Contains(password, IsAsciiUpper) &&
    Contains(password, IsAsciiDigit) && Contains(password, IsPasswordSymbol)
  }

  /** On a string with no line terminator, a look-ahead holds exactly when some character satisfies its class. */
  lemma LooksAheadWithoutTerminators(s: string, p: char -> bool)
    requires forall m :: 0 <= m < |s| ==> !IsLineTerminator(s[m])
    ensures LooksAhead(s, p) <==> Contains(s, p)
  {
    ContainsWitness(s, p);
  }

  /** The validator decides exactly the password pattern. */
  lemma PasswordValidatorMatchesPattern(password: string)
    ensures PasswordValidator(password) <==> PasswordPattern(password)
  {
    ContainsWitness(password, IsLineTerminator);
    if forall m :: 0 <= m < |password| ==> !IsLineTerminator(password[m]) {
      LooksAheadWithoutTerminators(password, IsAsciiLower);
      LooksAheadWithoutTerminators(password, IsAsciiUpper);
      LooksAheadWithoutTerminators(password, IsAsciiDigit);
      LooksAheadWithoutTerminators(password, IsPasswordSymbol);
    }
  }

  // ---------------------------------------------------------------------------
  // nameValidator (utils/validator.js:12-15), applied to the trimmed name
  // ---------------------------------------------------------------------------

  /** A character of the class `[A-Za-z\u0600-\u06FF\s'-]`. */
  predicate IsNameChar(c: char) {
    IsAsciiLetter(c) || ('\U{600}' <= c <= '\U{6FF}') || IsJsSpace(c) || c == '\'' || c == '-'
  }

  /** The string the name pattern is matched against. For a present name this is its trimmed
      form. `name?.trim()` of an absent name is `undefined`, and `test` converts that
      to the string "undefined". */
  function NameSubject(name: Option<string>): string {
    if name.None? then JsString(name) else Trim(name.value)
  }

  /** `nameValidator`: the subject has 2 to 50 characters, each from the name class. */
  function NameValidator(name: Option<string>): bool {
    var t := NameSubject(name);
    2 <= |t| <= 50 && forall i :: 0 <= i < |t| ==> IsNameChar(t[i])
  }

  /** An absent name is accepted: its subject is "undefined", nine letters. */
  lemma AbsentNameAccepted()
    ensures NameValidator(None)
  {
    var t := NameSubject(None);
    assert t == "undefined";
    assert forall i :: 0 <= i < |t| ==> IsAsciiLower(t[i]);
  }

  /** White space around a name does not change the verdict, and a name made only
      of white space is rejected. */
  lemma NameIgnoresSurroundingSpace(s: string)
    ensures NameValidator(Some(s)) == NameValidator(Some(Trim(s)))
    ensures (forall i :: 0 <= i < |s| ==> IsJsSpace(s[i])) ==> !NameValidator(Some(s))
  {
    TrimIdempotent(s);
    TrimFixedPoints(s);
  }

  // ---------------------------------------------------------------------------
  // phoneValidator (utils/validator.js:18-21)
  // ---------------------------------------------------------------------------

  /** `5[024568]\d{7}`: a UAE mobile number without prefix. */
  predicate IsMobileCore(t: string) {
    |t| == 9 && t[0] == '5' && t[1] in "024568" && forall i :: 2 <= i < 9 ==> IsAsciiDigit(t[i])
  }

  /** The prefixes the optional group admits: none, the trunk `0`, or `+971`. */
  const PhonePrefixes: seq<string> := ["", "0", "+971"]

  /** `phoneValidator`: the bare mobile number, or `0` or `+971` followed by it. */
  function PhoneValidator(phone: string): bool {
    IsMobileCore(phone) ||
    (|phone| >= 1 && phone[..1] == "0" && IsMobileCore(phone[1..])) ||
    (|phone| >= 4 && phone[..4] == "+971" && IsMobileCore(phone[4..]))
  }

  /** An accepted number is one of the three prefixes followed by a mobile number, so
      it has 9, 10 or 13 characters. Every such string is accepted. */
  lemma PhoneValidatorShape(phone: string)
    ensures PhoneValidator(phone) <==>
      (|phone| >= 9 && phone[..|phone| - 9] in PhonePrefixes && IsMobileCore(phone[|phone| - 9..]))
    ensures PhoneValidator(phone) ==> |phone| == 9 || |phone| == 10 || |phone| == 13
  {
    if |phone| >= 9 {
      var p := phone[..|phone| - 9];
      if p in PhonePrefixes {
        if p == "" { assert phone[|phone| - 9..] == phone; }
        else if p == "0" { assert phone[..1] == p; }
        else { assert phone[..4] == p; }
      }
      if IsMobileCore(phone) {
        assert phone[..|phone| - 9] == "" && phone[|phone| - 9..] == phone;
      }
      if |phone| >= 1 && phone[..1] == "0" && IsMobileCore(phone[1..]) {
        assert phone[..|phone| - 9] == phone[..1];
      }
      if |phone| >= 4 && phone[..4] == "+971" && IsMobileCore(phone[4..]) {
        assert phone[..|phone| - 9] == phone[..4];
      }
    }
  }
}
