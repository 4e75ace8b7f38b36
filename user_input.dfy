/**
  The field constraints declared on the user input shapes CreateUserDto and
  UpdateUserDto, as predicates over strings. Email syntax (`@IsEmail`) belongs
  to the validation library and is taken as a parameter `isEmail`.

  The password pattern is the ECMAScript regular expression
      ^(?=.*[a-z])(?=.*[A-Z])(?=.*\d)(?=.*[@$!%*?&])[A-Za-z\d@$!%*?&]
  tested without flags (section 22.2 of ECMA-262): `^` fixes the match at
  position 0, each look-ahead `(?=.*X)` asks for a character of class X at
  some position reached by `.*`, which matches no line terminator, and the
  final class consumes exactly one character. Nothing anchors the end.
 */
module UserInput {
  import opened Errors
  import Text

  const PasswordMinLength: nat := 8
  const PasswordMaxLength: nat := 50
  const NameMinLength: nat := 2
  const NameMaxLength: nat := 50

  /** The classes the four look-aheads ask for. */
  datatype CharClass = Lower | Upper | Digit | Special

  predicate InClass(c: char, k: CharClass) {
    match k
    case Lower => 'a' <= c <= 'z'
    case Upper => 'A' <= c <= 'Z'
    case Digit => '0' <= c <= '9'
    case Special => c in "@$!%*?&"
  }

  /** The final class `[A-Za-z\d@$!%*?&]`, which matches the first character. */
  predicate IsAllowedFirst(c: char) {
    InClass(c, Lower) || InClass(c, Upper) || InClass(c, Digit) || InClass(c, Special)
  }

  /**
    What `(?=.*X)` means at position 0: some position k holds a character of
    class X and `.*` can cover s[..k], so no line terminator precedes it.
   */
  ghost predicate LookaheadHolds(s: string, k: CharClass) {
    exists i :: 0 <= i < |s| && InClass(s[i], k) && NoLineTerminatorBefore(s, i)
  }

  ghost predicate NoLineTerminatorBefore(s: string, i: int)
    requires 0 <= i <= |s|
  {
    forall j :: 0 <= j < i ==> !Text.IsLineTerminator(s[j])
  }

  /** A left-to-right scan that stops at the first line terminator. */
  function ScanForClass(s: string, k: CharClass): bool
  {
    if s == [] then false
    else if InClass(s[0], k) then true
    else if Text.IsLineTerminator(s[0]) then false
    else ScanForClass(s[1..], k)
  }

  /** The scan decides the look-ahead. */
  lemma {:induction false} ScanDecidesLookahead(s: string, k: CharClass)
    ensures ScanForClass(s, k) <==> LookaheadHolds(s, k)
  {
    if s != [] && !InClass(s[0], k) && !Text.IsLineTerminator(s[0]) {
      ScanDecidesLookahead(s[1..], k);
      if LookaheadHolds(s, k) {
        var i :| 0 <= i < |s| && InClass(s[i], k) && NoLineTerminatorBefore(s, i);
        assert i > 0 && s[1..][i - 1] == s[i];
        assert NoLineTerminatorBefore(s[1..], i - 1);
      }
      if LookaheadHolds(s[1..], k) {
        var i :| 0 <= i < |s[1..]| && InClass(s[1..][i], k) && NoLineTerminatorBefore(s[1..], i);
        assert NoLineTerminatorBefore(s, i + 1);
      }
    } else if s != [] && InClass(s[0], k) {
      assert NoLineTerminatorBefore(s, 0);
    } else if s != [] {
      forall i | 0 <= i < |s| && InClass(s[i], k)
        ensures !NoLineTerminatorBefore(s, i)
      {
        assert i > 0;
      }
    }
  }

  /** `regex.test(password)` for the password pattern. */
  predicate MatchesPasswordPattern(s: string) {
    && ScanForClass(s, Lower)
    && ScanForClass(s, Upper)
    && ScanForClass(s, Digit)
    && ScanForClass(s, Special)
    && |s| > 0 && IsAllowedFirst(s[0])
  }

  /**
    The pattern holds exactly when each of the four classes occurs before the
    first line terminator and the first character is in the final class.
   */
  lemma PasswordPatternMeaning(s: string)
    ensures MatchesPasswordPattern(s) <==>
      && LookaheadHolds(s, Lower) && LookaheadHolds(s, Upper)
      && LookaheadHolds(s, Digit) && LookaheadHolds(s, Special)
      && |s| > 0 && IsAllowedFirst(s[0])
  {
    ScanDecidesLookahead(s, Lower);
    ScanDecidesLookahead(s, Upper);
    ScanDecidesLookahead(s, Digit);
    ScanDecidesLookahead(s, Special);
  }

  /** Nothing after the matched prefix is checked: any suffix keeps a match. */
  lemma PatternIgnoresSuffix(s: string, t: string)
    requires MatchesPasswordPattern(s)
    ensures MatchesPasswordPattern(s + t)
  {
    PasswordPatternMeaning(s);
    PasswordPatternMeaning(s + t);
    forall k: CharClass ensures LookaheadHolds(s + t, k) {
      assert LookaheadHolds(s, k);
      var i :| 0 <= i < |s| && InClass(s[i], k) && NoLineTerminatorBefore(s, i);
      assert (s + t)[i] == s[i];
      assert NoLineTerminatorBefore(s + t, i);
    }
  }

  /** Only the first character is held to the final class: spaces and '~' later are accepted. */
  lemma PatternAcceptsOtherCharactersAfterFirst()
    ensures MatchesPasswordPattern("Aa1! ~#x")
  {
  }

  /** A special character after a line break does not satisfy its look-ahead. */
  lemma PatternStopsAtLineTerminator()
    ensures !MatchesPasswordPattern("Aa1\n!bcd")
  {
  }

  /** @MinLength(8) @MaxLength(50) @Matches(pattern) on the password. */
  predicate IsValidPassword(p: string) {
    PasswordMinLength <= |p| <= PasswordMaxLength && MatchesPasswordPattern(p)
  }

  /** @MinLength(2) @MaxLength(50) on firstName and lastName. */
  predicate IsValidName(n: string) {
    NameMinLength <= |n| <= NameMaxLength
  }

  datatype CreateUserDto = CreateUserDto(email: string, password: string, firstName: string, lastName: string)

  /**
    Only the four declared fields; an absent (undefined) field is None,
    which `@IsOptional` exempts from every other check. A field sent as null
    has no representation here.
   */
  datatype UpdateUserDto = UpdateUserDto(
    email: Option<string>, password: Option<string>,
    firstName: Option<string>, lastName: Option<string>)

  /** Every decorator on CreateUserDto: all fields required, non-empty and within bounds. */
  predicate IsValidCreateUser(d: CreateUserDto, isEmail: string -> bool) {
    && isEmail(d.email) && d.email != ""
    && d.password != "" && IsValidPassword(d.password)
    && d.firstName != "" && IsValidName(d.firstName)
    && d.lastName != "" && IsValidName(d.lastName)
  }

  /** Every decorator on UpdateUserDto: the same rules, each only for a present field. */
  predicate IsValidUpdateUser(d: UpdateUserDto, isEmail: string -> bool) {
    && (d.email.Some? ==> isEmail(d.email.value))
    && (d.password.Some? ==> IsValidPassword(d.password.value))
    && (d.firstName.Some? ==> IsValidName(d.firstName.value))
    && (d.lastName.Some? ==> IsValidName(d.lastName.value))
  }

  /** A valid create input has a password of 8..50 characters with all four classes before any line break. */
  lemma ValidCreatePasswordShape(d: CreateUserDto, isEmail: string -> bool)
    requires IsValidCreateUser(d, isEmail)
    ensures d.email != "" && d.password != "" && d.firstName != "" && d.lastName != ""
    ensures 8 <= |d.password| <= 50 && IsAllowedFirst(d.password[0])
    ensures LookaheadHolds(d.password, Lower) && LookaheadHolds(d.password, Upper)
    ensures LookaheadHolds(d.password, Digit) && LookaheadHolds(d.password, Special)
    ensures 2 <= |d.firstName| <= 50 && 2 <= |d.lastName| <= 50
  {
    PasswordPatternMeaning(d.password);
  }

  /** An empty update object passes validation. */
  lemma EmptyUpdateIsValid(isEmail: string -> bool)
    ensures IsValidUpdateUser(UpdateUserDto(None, None, None, None), isEmail)
  {
  }

  /** A present password or name in a valid update is never the empty string. */
  lemma ValidUpdateFieldsAreTruthy(d: UpdateUserDto, isEmail: string -> bool)
    requires IsValidUpdateUser(d, isEmail)
    ensures d.password.Some? ==> IsTruthy(d.password)
    ensures d.firstName.Some? ==> IsTruthy(d.firstName)
    ensures d.lastName.Some? ==> IsTruthy(d.lastName)
  {
  }

  /** A valid create input, supplied field by field, is a valid update. */
  lemma CreateRulesImplyUpdateRules(d: CreateUserDto, isEmail: string -> bool)
    requires IsValidCreateUser(d, isEmail)
    ensures IsValidUpdateUser(UpdateUserDto(Some(d.email), Some(d.password), Some(d.firstName), Some(d.lastName)), isEmail)
  {
  }
}
