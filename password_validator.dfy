/**
 * The password policy applied to the password that protects the site's private key:
 * five independent checks over a fixed configuration, composed into a list of error tags.
 * The character checks are regular-expression matches on bytes; all characters they
 * name are ASCII, so matching on characters gives the same answers. `strlen` counts
 * UTF-8 bytes.
 */
module PasswordValidator {
  import opened Php

  /** `$conf`: size bounds, which checks are enabled, and the two character lists. */
  datatype Conf = Conf(
    minSize: int,
    maxSize: int,
    lengthConfigured: bool,
    uppercaseConfigured: bool,
    digitConfigured: bool,
    specialConfigured: bool,
    prohibitedConfigured: bool,
    specialCharacters: seq<char>,
    prohibitedCharacters: seq<char>)

  /** The configuration the class is constructed with. */
  const DefaultConf := Conf(5, 15, true, true, true, true, true, ['_', '#', '%', '*', '@'], ['$', '&', '=', '!'])

  /** The error tags `checkPassword` returns. */
  datatype PasswordError = Length | Uppercase | Digit | Special | Prohibited

  /** The tag as the string the source pushes. */
  function Tag(e: PasswordError): string {
    match e
    case Length => "length"
    case Uppercase => "uppercase"
    case Digit => "digit"
    case Special => "special"
    case Prohibited => "prohibited"
  }

  /** The fixed position of each tag in the result. */
  function Rank(e: PasswordError): nat {
    match e
    case Length => 0
    case Uppercase => 1
    case Digit => 2
    case Special => 3
    case Prohibited => 4
  }

  /** Distinct errors have distinct tags. */
  lemma TagInjective(a: PasswordError, b: PasswordError)
    requires Tag(a) == Tag(b)
    ensures a == b
  {
    assert Tag(a)[0] == Tag(b)[0];
  }

  /** `checkSpecialCharacters`: some character is one of the special characters. */
  predicate CheckSpecialCharacters(conf: Conf, s: string) {
    exists i :: 0 <= i < |s| && s[i] in conf.specialCharacters
  }

  /** `checkProhibitedCharacter`: some character is one of the prohibited characters. */
  predicate CheckProhibitedCharacter(conf: Conf, s: string) {
    exists i :: 0 <= i < |s| && s[i] in conf.prohibitedCharacters
  }

  /** `checkDigit`: `\d` matches somewhere. */
  predicate CheckDigit(s: string) {
    exists i :: 0 <= i < |s| && IsDigit(s[i])
  }

  /** `checkUpperCase` as written: `[^A-Z]` matches somewhere, i.e. some character is NOT an upper-case letter. */
  predicate CheckUpperCase(s: string) {
    exists i :: 0 <= i < |s| && !('A' <= s[i] <= 'Z')
  }

  /** `checkLength`: the byte length is within the bounds. */
  predicate CheckLength(conf: Conf, s: string) {
    conf.minSize <= ByteLength(s) <= conf.maxSize
  }

  /** The tags in their fixed order, each at most once. */
  predicate Ordered(errors: seq<PasswordError>) {
    forall i, j :: 0 <= i < j < |errors| ==> Rank(errors[i]) < Rank(errors[j])
  }

  /** A tag in front of tags of higher rank, when its check failed. */
  function Push(e: PasswordError, failed: bool, rest: seq<PasswordError>): (r: seq<PasswordError>)
    requires Ordered(rest) && forall x :: x in rest ==> Rank(e) < Rank(x)
    ensures Ordered(r)
    ensures forall x :: x in r <==> x in rest || (failed && x == e)
  {
    if failed then [e] + rest else rest
  }

  /** The list `checkPassword` builds from which checks failed, in its fixed order. */
  function Compose(length: bool, upper: bool, digit: bool, special: bool, prohibited: bool): (r: seq<PasswordError>)
    ensures Ordered(r)
    ensures Length in r <==> length
    ensures Uppercase in r <==> upper
    ensures Digit in r <==> digit
    ensures Special in r <==> special
    ensures Prohibited in r <==> prohibited
  {
    Push(Length, length, Push(Uppercase, upper, Push(Digit, digit, Push(Special, special, Push(Prohibited, prohibited, [])))))
  }

  /**
   * `checkPassword` as written: a disabled check counts as passed (`true`), but the
   * prohibited test reports an error when its value is true, so disabling it reports
   * `prohibited` for every password.
   */
  function CheckPasswordAsWritten(conf: Conf, s: string): seq<PasswordError> {
    var length := if conf.lengthConfigured then CheckLength(conf, s) else true;
    var upper := if conf.uppercaseConfigured then CheckUpperCase(s) else true;
    var digit := if conf.digitConfigured then CheckDigit(s) else true;
    var special := if conf.specialConfigured then CheckSpecialCharacters(conf, s) else true;
    var prohibited := if conf.prohibitedConfigured then CheckProhibitedCharacter(conf, s) else true;
    Compose(!length, !upper, !digit, !special, prohibited)
  }

  /** With the prohibited check disabled, even a password with no prohibited character is refused. */
  lemma DisabledProhibitedRefusesAll(s: string)
    ensures Prohibited in CheckPasswordAsWritten(DefaultConf.(prohibitedConfigured := false), s)
  {
  }

  /** `checkPassword` as intended: a disabled check reports nothing. */
  function CheckPassword(conf: Conf, s: string): (r: seq<PasswordError>)
    ensures Ordered(r)
    ensures Length in r <==> conf.lengthConfigured && !CheckLength(conf, s)
    ensures Uppercase in r <==> conf.uppercaseConfigured && !CheckUpperCase(s)
    ensures Digit in r <==> conf.digitConfigured && !CheckDigit(s)
    ensures Special in r <==> conf.specialConfigured && !CheckSpecialCharacters(conf, s)
    ensures Prohibited in r <==> conf.prohibitedConfigured && CheckProhibitedCharacter(conf, s)
  {
    Compose(conf.lengthConfigured && !CheckLength(conf, s),
            conf.uppercaseConfigured && !CheckUpperCase(s),
            conf.digitConfigured && !CheckDigit(s),
            conf.specialConfigured && !CheckSpecialCharacters(conf, s),
            conf.prohibitedConfigured && CheckProhibitedCharacter(conf, s))
  }

  /** On the configuration the class uses, every check is enabled and the two agree. */
  lemma AsWrittenAgreesOnDefault(s: string)
    ensures CheckPasswordAsWritten(DefaultConf, s) == CheckPassword(DefaultConf, s)
  {
  }

  /** The default policy's length rule: 5 to 15 bytes. */
  lemma DefaultLength(s: string)
    ensures Length in CheckPassword(DefaultConf, s) <==> ByteLength(s) < 5 || ByteLength(s) > 15
  {
  }

  /** The default policy's digit rule: at least one digit. */
  lemma DefaultDigit(s: string)
    ensures Digit in CheckPassword(DefaultConf, s) <==> forall i :: 0 <= i < |s| ==> !IsDigit(s[i])
  {
  }

  /** The default policy's special-character rule: one of `_ # % * @`. */
  lemma DefaultSpecial(s: string)
    ensures Special in CheckPassword(DefaultConf, s) <==>
              forall i :: 0 <= i < |s| ==> s[i] != '_' && s[i] != '#' && s[i] != '%' && s[i] != '*' && s[i] != '@'
  {
    forall i | 0 <= i < |s|
      ensures s[i] in DefaultConf.specialCharacters <==> s[i] == '_' || s[i] == '#' || s[i] == '%' || s[i] == '*' || s[i] == '@'
    {
    }
  }

  /** The default policy's prohibited-character rule: none of `$ & = !`. */
  lemma DefaultProhibited(s: string)
    ensures Prohibited in CheckPassword(DefaultConf, s) <==>
              exists i :: 0 <= i < |s| && (s[i] == '$' || s[i] == '&' || s[i] == '=' || s[i] == '!')
  {
    forall i | 0 <= i < |s|
      ensures s[i] in DefaultConf.prohibitedCharacters <==> s[i] == '$' || s[i] == '&' || s[i] == '=' || s[i] == '!'
    {
    }
  }

  /**
   * The upper-case check is inverted: it fails only when every character is an upper-case
   * letter (or the password is empty), so an all-lower-case password passes it.
   */
  lemma UppercaseQuirk(s: string)
    ensures Uppercase in CheckPassword(DefaultConf, s) <==> forall i :: 0 <= i < |s| ==> 'A' <= s[i] <= 'Z'
  {
  }

  /** An all-lower-case password passes the upper-case check; the empty password fails it. */
  lemma UppercaseExamples()
    ensures Uppercase !in CheckPassword(DefaultConf, "lowercase1_")
    ensures Uppercase in CheckPassword(DefaultConf, "")
  {
    assert CheckUpperCase("lowercase1_") by { assert "lowercase1_"[0] == 'l'; }
    assert !CheckUpperCase("");
  }

  /** A password made only of ASCII characters passes the length check iff it has 5 to 15 characters. */
  lemma AsciiLength(s: string)
    requires forall i :: 0 <= i < |s| ==> s[i] as int < 128
    ensures Length !in CheckPassword(DefaultConf, s) <==> 5 <= |s| <= 15
  {
  }

  /** What each check says of `Tr0ub4dor&3`. */
  lemma TroubadourChecks(s: string)
    requires s == "Tr0ub4dor&3"
    ensures CheckLength(DefaultConf, s) && CheckUpperCase(s) && CheckDigit(s)
    ensures !CheckSpecialCharacters(DefaultConf, s) && CheckProhibitedCharacter(DefaultConf, s)
  {
    AsciiByteLength(s);
    assert !('A' <= s[1] <= 'Z') && IsDigit(s[2]) && s[9] in DefaultConf.prohibitedCharacters;
    forall i | 0 <= i < |s| ensures s[i] !in DefaultConf.specialCharacters {
      assert s[i] in "Tr0ubdo&34";
    }
  }

  lemma AsciiByteLength(s: string)
    requires s == "Tr0ub4dor&3"
    ensures ByteLength(s) == 11
  {
    forall i | 0 <= i < |s| ensures s[i] as int < 128 {
      assert s[i] in "Tr0ubdo&34";
    }
  }

  /** `Tr0ub4dor&3` has no special character and a prohibited `&`. */
  lemma ExampleTroubadour()
    ensures CheckPassword(DefaultConf, "Tr0ub4dor&3") == [Special, Prohibited]
  {
    TroubadourPassword("Tr0ub4dor&3");
  }

  lemma TroubadourPassword(s: string)
    requires s == "Tr0ub4dor&3"
    ensures CheckPassword(DefaultConf, s) == [Special, Prohibited]
  {
    TroubadourChecks(s);
    assert CheckPassword(DefaultConf, s) == Compose(false, false, false, true, true);
  }

  /** What each check says of `ab`. */
  lemma ShortChecks(s: string)
    requires s == "ab"
    ensures !CheckLength(DefaultConf, s) && CheckUpperCase(s) && !CheckDigit(s)
    ensures !CheckSpecialCharacters(DefaultConf, s) && !CheckProhibitedCharacter(DefaultConf, s)
  {
    assert ByteLength(s) == 2;
    assert !('A' <= s[0] <= 'Z');
    forall i | 0 <= i < |s|
      ensures !IsDigit(s[i]) && s[i] !in DefaultConf.specialCharacters && s[i] !in DefaultConf.prohibitedCharacters
    {
      assert s[i] == 'a' || s[i] == 'b';
    }
  }

  /** `ab` is too short, has no digit and no special character. */
  lemma ExampleShort()
    ensures CheckPassword(DefaultConf, "ab") == [Length, Digit, Special]
  {
    ShortChecks("ab");
  }
}
