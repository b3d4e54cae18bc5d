/**
 * The `createKeys` maintenance script: validates the administrator's password, creates a
 * password-protected symmetric key and a sealed-box key pair, stores the secret key
 * encrypted under the unlocked symmetric key, and inserts the single key row.
 */
module CreateKeys {
  import opened Wrappers
  import opened Php
  import opened Primitives
  import opened PasswordValidator
  import opened UserVerification

  /** An argument of `wfMessage`: a number or a string. */
  datatype Arg = Num(n: int) | Chars(s: string)

  /** A message: its key and its arguments, as passed to `wfMessage`. */
  datatype Message = Message(key: string, args: seq<Arg>)

  /** What the script echoes: a literal line, or the text of a message. */
  datatype Line = Echo(text: string) | Says(msg: Message)

  const ErrorPrefix := "userverification-createkeys-password-error-"

  /** Each character as a one-character string, as PHP stores the configured lists. */
  function Singletons(cs: seq<char>): (r: seq<string>)
    ensures |r| == |cs|
    ensures forall i :: 0 <= i < |cs| ==> r[i] == [cs[i]]
  {
    if cs == [] then [] else [[cs[0]]] + Singletons(cs[1..])
  }

  /** `implode(', ', $chars)`. */
  function Implode(cs: seq<char>): string {
    Join(", ", Singletons(cs))
  }

  /** The arguments `showMessageError` adds for an error after the message key. */
  function ErrorArgs(conf: Conf, e: PasswordError): seq<Arg> {
    match e
    case Length => [Num(conf.minSize), Num(conf.maxSize)]
    case Special => [Chars(Implode(conf.specialCharacters))]
    case Prohibited => [Chars(Implode(conf.prohibitedCharacters))]
    case _ => []
  }

  /** The message `showMessageError` builds for one error. */
  function MessageFor(conf: Conf, e: PasswordError): Message {
    Message(ErrorPrefix + Tag(e), ErrorArgs(conf, e))
  }

  /** Distinct errors get distinct message keys. */
  lemma MessageKeyInjective(conf: Conf, a: PasswordError, b: PasswordError)
    requires MessageFor(conf, a).key == MessageFor(conf, b).key
    ensures a == b
  {
    var ka, kb := MessageFor(conf, a).key, MessageFor(conf, b).key;
    assert ka[|ErrorPrefix|..] == Tag(a);
    assert kb[|ErrorPrefix|..] == Tag(b);
    TagInjective(a, b);
  }

  /** The length message's bounds, on the configuration the script uses; digit and upper-case take none. */
  lemma DefaultMessageArgs()
    ensures MessageFor(DefaultConf, Length).args == [Num(5), Num(15)]
    ensures MessageFor(DefaultConf, Uppercase).args == [] && MessageFor(DefaultConf, Digit).args == []
  {
  }

  /** The special-character message lists `_, #, %, *, @`. */
  lemma DefaultSpecialArgs()
    ensures MessageFor(DefaultConf, Special).args == [Chars("_, #, %, *, @")]
  {
    assert Singletons(['_', '#', '%', '*', '@']) == ["_", "#", "%", "*", "@"];
    JoinPairs("*", "@");
    JoinPrefix("%", ["*", "@"]);
    JoinPrefix("#", ["%", "*", "@"]);
    JoinPrefix("_", ["#", "%", "*", "@"]);
    assert Implode(DefaultConf.specialCharacters) == "_, #, %, *, @";
  }

  /** The prohibited-character message lists `$, &, =, !`. */
  lemma DefaultProhibitedArgs()
    ensures MessageFor(DefaultConf, Prohibited).args == [Chars("$, &, =, !")]
  {
    assert Singletons(['$', '&', '=', '!']) == ["$", "&", "=", "!"];
    JoinPairs("=", "!");
    JoinPrefix("&", ["=", "!"]);
    JoinPrefix("$", ["&", "=", "!"]);
    assert Implode(DefaultConf.prohibitedCharacters) == "$, &, =, !";
  }

  lemma JoinPairs(a: string, b: string)
    ensures Join(", ", [a, b]) == a + ", " + b
  {
    assert [a, b][1..] == [b];
  }

  lemma JoinPrefix(a: string, rest: seq<string>)
    requires rest != []
    ensures Join(", ", [a] + rest) == a + ", " + Join(", ", rest)
  {
    assert ([a] + rest)[1..] == rest;
  }

  /** `showMessageError`: one message per error, in the order of the errors. */
  method ShowMessageError(conf: Conf, errors: seq<PasswordError>) returns (messages: seq<Message>)
    ensures |messages| == |errors|
    ensures forall i :: 0 <= i < |errors| ==> messages[i] == MessageFor(conf, errors[i])
  {
    messages := [];
    var i := 0;
    while i < |errors|
      invariant 0 <= i <= |errors|
      invariant |messages| == i
      invariant forall j :: 0 <= j < i ==> messages[j] == MessageFor(conf, errors[j])
    {
      var args: seq<Arg> := [];
      match errors[i] {
        case Length =>
          args := args + [Num(conf.minSize)];
          args := args + [Num(conf.maxSize)];
        case Special =>
          args := args + [Chars(Implode(conf.specialCharacters))];
        case Prohibited =>
          args := args + [Chars(Implode(conf.prohibitedCharacters))];
        case _ =>
      }
      messages := messages + [Message(ErrorPrefix + Tag(errors[i]), args)];
      i := i + 1;
    }
  }

  /** Messages for a list of errors without repeats have distinct keys. */
  lemma MessagesDistinct(conf: Conf, errors: seq<PasswordError>, i: int, j: int)
    requires Ordered(errors)
    requires 0 <= i < j < |errors|
    ensures MessageFor(conf, errors[i]).key != MessageFor(conf, errors[j]).key
  {
    if MessageFor(conf, errors[i]).key == MessageFor(conf, errors[j]).key {
      MessageKeyInjective(conf, errors[i], errors[j]);
    }
  }

  /**
   * The key row the script inserts for `password` at `date`; the seeds stand for the
   * randomness of the protected key and of the key pair.
   */
  function NewKeyRow(password: string, date: string, protectedSeed: nat, secretSeed: nat): (r: KeyRow)
    ensures r.enabled == 1 && r.createdAt == date && r.updatedAt == date
    ensures r.publicKey == PublicKeyOf(SecretKey(secretSeed))
    ensures LoadProtectedKey(r.protectedKey).Some?
    ensures UnlockKey(LoadProtectedKey(r.protectedKey).value, password).Some?
    ensures DecryptSymmetric(r.encryptedPrivateKey, UnlockKey(LoadProtectedKey(r.protectedKey).value, password).value)
            == Some(SecretKeyBytes(SecretKey(secretSeed)))
    ensures forall other :: other != password ==> UnlockKey(LoadProtectedKey(r.protectedKey).value, other).None?
  {
    var protected := CreateProtectedKey(password, protectedSeed);
    var sk := SecretKey(secretSeed);
    var userKey := Key(protectedSeed);
    KeyRow(PublicKeyOf(sk), SaveProtectedKey(protected), EncryptSymmetric(SecretKeyBytes(sk), userKey), 1, date, date)
  }

  /**
   * Once the password's key is in the cookie (what `setUserKey` puts there), data sealed
   * to the new row's public key decrypts to what was sealed.
   */
  lemma NewKeyRowDecrypts(password: string, date: string, protectedSeed: nat, secretSeed: nat, m: Bytes)
    ensures var row := NewKeyRow(password, date, protectedSeed, secretSeed);
            var userKey := UnlockKey(LoadProtectedKey(row.protectedKey).value, password).value;
            DecryptData(Some(Seal(row.publicKey, m)), [row], Some(SaveKey(userKey))) == Ok(Plain(m))
  {
    var row := NewKeyRow(password, date, protectedSeed, secretSeed);
    DecryptDataSuccess([row], LoadProtectedKey(row.protectedKey).value, password, SecretKey(secretSeed), m);
  }

  /** The `foreach ... echo` over the error messages. */
  method EchoMessages(messages: seq<Message>) returns (output: seq<Line>)
    ensures |output| == |messages|
    ensures forall j :: 0 <= j < |messages| ==> output[j] == Says(messages[j])
  {
    output := [];
    var i := 0;
    while i < |messages|
      invariant 0 <= i <= |messages|
      invariant |output| == i
      invariant forall j :: 0 <= j < i ==> output[j] == Says(messages[j])
    {
      output := output + [Says(messages[i])];
      i := i + 1;
    }
  }

  /**
   * The provisioning steps of `execute` once the password is accepted: the protected key,
   * the key pair, the secret key encrypted under the unlocked key, and the insert, which
   * the single-row keys table refuses when a row exists.
   */
  method Provision(site: Site, password: string, date: string, protectedSeed: nat, secretSeed: nat)
    returns (output: seq<Line>)
    modifies site`keys
    ensures old(site.keys) != [] ==> output == [Echo("keys exist")] && site.keys == old(site.keys)
    ensures old(site.keys) == [] ==>
      output == [Echo("keys created")] && site.keys == [NewKeyRow(password, date, protectedSeed, secretSeed)]
  {
    var protected := CreateProtectedKey(password, protectedSeed);
    var protectedEncoded := SaveProtectedKey(protected);
    var sk := SecretKey(secretSeed);
    var pk := PublicKeyOf(sk);
    UnlockRoundTrip(password, password, protectedSeed);
    var userKey := UnlockKey(protected, password).value;
    var encryptedPrivateKey := EncryptSymmetric(SecretKeyBytes(sk), userKey);
    var row := KeyRow(pk, protectedEncoded, encryptedPrivateKey, 1, date, date);
    if site.keys != [] {
      return [Echo("keys exist")];
    }
    site.keys := site.keys + [row];
    output := [Echo("keys created")];
  }

  /**
   * `execute`: an empty password answers 'no password'; a password the policy refuses
   * prints one message per error; otherwise the new key row is inserted, and a second
   * key row is refused with 'keys exist'.
   */
  method Execute(site: Site, password: string, date: string, protectedSeed: nat, secretSeed: nat)
    returns (ret: Option<string>, output: seq<Line>)
    modifies site`keys
    ensures EmptyString(password) ==> ret == Some("no password") && output == [] && site.keys == old(site.keys)
    ensures !EmptyString(password) && CheckPassword(DefaultConf, password) != [] ==>
      var errors := CheckPassword(DefaultConf, password);
      && ret == None && site.keys == old(site.keys)
      && |output| == |errors|
      && (forall i :: 0 <= i < |errors| ==> output[i] == Says(MessageFor(DefaultConf, errors[i])))
    ensures !EmptyString(password) && CheckPassword(DefaultConf, password) == [] && old(site.keys) != [] ==>
      ret == None && output == [Echo("keys exist")] && site.keys == old(site.keys)
    ensures !EmptyString(password) && CheckPassword(DefaultConf, password) == [] && old(site.keys) == [] ==>
      ret == None && output == [Echo("keys created")] && site.keys == [NewKeyRow(password, date, protectedSeed, secretSeed)]
  {
    if EmptyString(password) {
      return Some("no password"), [];
    }
    var errors := CheckPassword(DefaultConf, password);
    if |errors| > 0 {
      var messages := ShowMessageError(DefaultConf, errors);
      output := EchoMessages(messages);
      return None, output;
    }
    output := Provision(site, password, date, protectedSeed, secretSeed);
    ret := None;
  }
}
