/**
 * The mail transport chosen for the alternate user mailer: from the provider name and the
 * provider's configuration, the Symfony Mailer DSN the transport is built from, or the
 * error 'transport not supported'. The configuration keys are case-insensitive.
 */
module Mailer {
  import opened Wrappers
  import opened Php

  /** The configuration as a PHP array: its entries in order. */
  type ConfEntries = seq<(string, string)>

  /** `array_change_key_case($conf, CASE_LOWER)`: of keys equal once lower-cased, the later entry wins. */
  function LowerKeys(conf: ConfEntries): map<string, string> {
    if conf == [] then map[]
    else
      var last := conf[|conf| - 1];
      LowerKeys(conf[..|conf| - 1])[Lower(last.0) := last.1]
  }

  /** Every key is an entry's key lower-cased, and holds the value of the last entry with that key. */
  lemma LowerKeysSpec(conf: ConfEntries, k: string)
    ensures k in LowerKeys(conf) <==> exists i :: 0 <= i < |conf| && Lower(conf[i].0) == k
    ensures k in LowerKeys(conf) ==>
      exists i :: 0 <= i < |conf| && Lower(conf[i].0) == k && LowerKeys(conf)[k] == conf[i].1
                  && forall j :: i < j < |conf| ==> Lower(conf[j].0) != k
  {
    LowerKeysDomain(conf, k);
    if k in LowerKeys(conf) {
      LowerKeysValue(conf, k);
    }
  }

  /** The keys are exactly the entries' keys lower-cased. */
  lemma {:induction false} LowerKeysDomain(conf: ConfEntries, k: string)
    ensures k in LowerKeys(conf) <==> exists i :: 0 <= i < |conf| && Lower(conf[i].0) == k
  {
    if conf != [] {
      var n := |conf| - 1;
      var init := conf[..n];
      LowerKeysDomain(init, k);
      assert forall i :: 0 <= i < n ==> init[i] == conf[i];
    }
  }

  /** A key holds the value of the last entry with that key lower-cased. */
  lemma {:induction false} LowerKeysValue(conf: ConfEntries, k: string)
    requires k in LowerKeys(conf)
    ensures exists i :: 0 <= i < |conf| && Lower(conf[i].0) == k && LowerKeys(conf)[k] == conf[i].1
                        && forall j :: i < j < |conf| ==> Lower(conf[j].0) != k
  {
    var n := |conf| - 1;
    var init := conf[..n];
    if Lower(conf[n].0) == k {
      assert LowerKeys(conf)[k] == conf[n].1;
    } else {
      assert LowerKeys(conf)[k] == LowerKeys(init)[k];
      LowerKeysValue(init, k);
      var i :| 0 <= i < |init| && Lower(init[i].0) == k && LowerKeys(init)[k] == init[i].1
               && forall j :: i < j < |init| ==> Lower(init[j].0) != k;
      assert init[i] == conf[i];
      assert forall j :: i < j < n ==> init[j] == conf[j];
    }
  }

  /** `$conf[$key]` on the lower-cased configuration; None stands for an undefined key (null). */
  function Get(conf: map<string, string>, key: string): Option<string> {
    if key in conf then Some(conf[key]) else None
  }

  /**
   * What a provider and a transport select: a fixed DSN, a transport to fill in with the
   * credentials read from the named configuration keys, or nothing.
   */
  datatype Route =
    | Direct(dsn: string)
    | Credentials(transport: string, userKey: string, passwordKey: Option<string>)
    | Unsupported

  /** The routes of transport `smtp`, by provider. */
  const SmtpRoutes: map<string, Route> := map[
    "amazon" := Credentials("ses+smtp", "username", Some("password")),
    "gmail" := Credentials("gmail+smtp", "app-password", None),
    "mandrill" := Credentials("mandrill+smtp", "username", Some("password")),
    "mailgun" := Credentials("mailgun+smtp", "username", Some("password")),
    "mailjet" := Credentials("mailjet+smtp", "access_key", Some("secret_key")),
    "postmark" := Credentials("postmark+smtp", "id", None),
    "sendgrid" := Credentials("sendgrid+smtp", "key", None),
    "sendinblue" := Credentials("sendinblue+smtp", "username", Some("password")),
    "ohmysmtp" := Direct("ohmysmtp+smtp")]

  /** The routes of transport `http`; the transport names keep the source's spelling `htpps`. */
  const HttpRoutes: map<string, Route> := map[
    "amazon" := Credentials("ses+htpps", "access_key", Some("secret_key")),
    "mandrill" := Credentials("mandrill+htpps", "key", None),
    "mailgun" := Credentials("mailgun+htpps", "key", Some("domain"))]

  /** The routes of transport `api`. */
  const ApiRoutes: map<string, Route> := map[
    "amazon" := Credentials("ses+api", "access_key", Some("secret_key")),
    "mandrill" := Credentials("mandrill+api", "key", None),
    "mailgun" := Credentials("mailgun+api", "key", Some("domain")),
    "mailjet" := Credentials("mailjet+api", "access_key", Some("secret_key")),
    "postmark" := Credentials("postmark+api", "key", None),
    "sendgrid" := Credentials("sendgrid+api", "key", None),
    "sendinblue" := Credentials("sendinblue+api", "key", None),
    "ohmysmtp" := Direct("ohmysmtp+api")]

  /** The route the table gives `provider`; none when the table has no row for it. */
  function Lookup(rows: map<string, Route>, provider: string): Route {
    if provider in rows then rows[provider] else Unsupported
  }

  /** The route of a provider other than smtp, sendmail and native, by the configured transport. */
  function ProviderRoute(provider: string, transport: Option<string>): Route {
    match transport
    case Some("smtp") => Lookup(SmtpRoutes, provider)
    case Some("http") => Lookup(HttpRoutes, provider)
    case Some("api") => Lookup(ApiRoutes, provider)
    case _ => Unsupported
  }

  /** The credentials part of a DSN: the encoded username, and the encoded password only when it is truthy. */
  function CredentialsPart(username: string, password: Option<string>): string {
    UrlEncode(username) + (if Truthy(password) then ":" + UrlEncode(password.value) else "")
  }

  /** The DSN of a credentials route; the host is `default` when none is given. */
  function CredentialsDsn(transport: string, username: string, password: Option<string>, host: Option<string>): string {
    transport + "://" + CredentialsPart(username, password) + "@" + host.GetOr("default")
  }

  /** The DSN the constructor builds from `provider` and the lower-cased configuration, or its error. */
  function ExpectedDsn(provider: string, conf: map<string, string>): Result<string, string> {
    var route :=
      if provider == "smtp" then Credentials("smtp", "username", Some("password"))
      else if provider == "sendmail" then Direct("sendmail://default")
      else if provider == "native" then Direct("native://default")
      else ProviderRoute(provider, Get(conf, "transport"));
    var host :=
      if provider == "smtp" then Some(Get(conf, "server").GetOr("") + ":" + Get(conf, "port").GetOr("")) else None;
    match route
    case Direct(dsn) => Ok(dsn)
    case Unsupported => Err("transport not supported")
    case Credentials(transport, userKey, passwordKey) =>
      var username := Get(conf, userKey);
      var password := if passwordKey.Some? then Get(conf, passwordKey.value) else None;
      if !Truthy(username) then Err("transport not supported")
      else Ok(CredentialsDsn(transport, username.value, password, host))
  }

  /**
   * The nested switch of the constructor: the fixed DSN if one is chosen, otherwise the
   * transport, username, password and host it reads.
   */
  method SelectTransport(provider: string, conf: map<string, string>)
    returns (dns: Option<string>, transport: string, username: Option<string>, password: Option<string>, host: Option<string>)
    ensures provider == "smtp" ==>
      dns == None && transport == "smtp" && username == Get(conf, "username") && password == Get(conf, "password")
      && host == Some(Get(conf, "server").GetOr("") + ":" + Get(conf, "port").GetOr(""))
    ensures provider == "sendmail" ==> dns == Some("sendmail://default")
    ensures provider == "native" ==> dns == Some("native://default")
    ensures provider != "smtp" && provider != "sendmail" && provider != "native" ==>
      host == None &&
      match ProviderRoute(provider, Get(conf, "transport"))
      case Direct(d) => dns == Some(d)
      case Unsupported => dns == None && username == None
      case Credentials(t, u, p) =>
        dns == None && transport == t && username == Get(conf, u)
        && password == (if p.Some? then Get(conf, p.value) else None)
  {
    dns, transport, username, password, host := None, "", None, None, None;
    if provider == "smtp" {
      transport := "smtp";
      username := Get(conf, "username");
      password := Get(conf, "password");
      host := Some(Get(conf, "server").GetOr("") + ":" + Get(conf, "port").GetOr(""));
    } else if provider == "sendmail" {
      dns := Some("sendmail://default");
    } else if provider == "native" {
      dns := Some("native://default");
    } else {
      var t := Get(conf, "transport");
      if t == Some("smtp") {
        dns, transport, username, password := SmtpSwitch(provider, conf);
      } else if t == Some("http") {
        transport, username, password := HttpSwitch(provider, conf);
      } else if t == Some("api") {
        dns, transport, username, password := ApiSwitch(provider, conf);
      }
    }
  }

  /** The switch on the provider under transport `smtp`. */
  method SmtpSwitch(provider: string, conf: map<string, string>)
    returns (dns: Option<string>, transport: string, username: Option<string>, password: Option<string>)
    ensures match Lookup(SmtpRoutes, provider)
      case Direct(d) => dns == Some(d)
      case Unsupported => dns == None && username == None
      case Credentials(t, u, p) =>
        dns == None && transport == t && username == Get(conf, u)
        && password == (if p.Some? then Get(conf, p.value) else None)
  {
    dns, transport, username, password := None, "", None, None;
    match provider {
      case "amazon" =>
        transport := "ses+smtp";
        username := Get(conf, "username");
        password := Get(conf, "password");
      case "gmail" =>
        transport := "gmail+smtp";
        username := Get(conf, "app-password");
      case "mandrill" =>
        transport := "mandrill+smtp";
        username := Get(conf, "username");
        password := Get(conf, "password");
      case "mailgun" =>
        transport := "mailgun+smtp";
        username := Get(conf, "username");
        password := Get(conf, "password");
      case "mailjet" =>
        transport := "mailjet+smtp";
        username := Get(conf, "access_key");
        password := Get(conf, "secret_key");
      case "postmark" =>
        transport := "postmark+smtp";
        username := Get(conf, "id");
      case "sendgrid" =>
        transport := "sendgrid+smtp";
        username := Get(conf, "key");
      case "sendinblue" =>
        transport := "sendinblue+smtp";
        username := Get(conf, "username");
        password := Get(conf, "password");
      case "ohmysmtp" =>
        dns := Some("ohmysmtp+smtp");
        username := Get(conf, "api_token");
      case _ =>
    }
  }

  /** The switch on the provider under transport `http`: gmail and the rest select nothing. */
  method HttpSwitch(provider: string, conf: map<string, string>)
    returns (transport: string, username: Option<string>, password: Option<string>)
    ensures match Lookup(HttpRoutes, provider)
      case Direct(_) => false
      case Unsupported => username == None
      case Credentials(t, u, p) =>
        transport == t && username == Get(conf, u) && password == (if p.Some? then Get(conf, p.value) else None)
  {
    transport, username, password := "", None, None;
    match provider {
      case "amazon" =>
        transport := "ses+htpps";
        username := Get(conf, "access_key");
        password := Get(conf, "secret_key");
      case "gmail" =>
      case "mandrill" =>
        transport := "mandrill+htpps";
        username := Get(conf, "key");
      case "mailgun" =>
        transport := "mailgun+htpps";
        username := Get(conf, "key");
        password := Get(conf, "domain");
      case _ =>
    }
  }

  /** The switch on the provider under transport `api`: gmail selects nothing. */
  method ApiSwitch(provider: string, conf: map<string, string>)
    returns (dns: Option<string>, transport: string, username: Option<string>, password: Option<string>)
    ensures match Lookup(ApiRoutes, provider)
      case Direct(d) => dns == Some(d)
      case Unsupported => dns == None && username == None
      case Credentials(t, u, p) =>
        dns == None && transport == t && username == Get(conf, u)
        && password == (if p.Some? then Get(conf, p.value) else None)
  {
    dns, transport, username, password := None, "", None, None;
    match provider {
      case "amazon" =>
        transport := "ses+api";
        username := Get(conf, "access_key");
        password := Get(conf, "secret_key");
      case "gmail" =>
      case "mandrill" =>
        transport := "mandrill+api";
        username := Get(conf, "key");
      case "mailgun" =>
        transport := "mailgun+api";
        username := Get(conf, "key");
        password := Get(conf, "domain");
      case "mailjet" =>
        transport := "mailjet+api";
        username := Get(conf, "access_key");
        password := Get(conf, "secret_key");
      case "postmark" =>
        transport := "postmark+api";
        username := Get(conf, "key");
      case "sendgrid" =>
        transport := "sendgrid+api";
        username := Get(conf, "key");
      case "sendinblue" =>
        transport := "sendinblue+api";
        username := Get(conf, "key");
      case "ohmysmtp" =>
        dns := Some("ohmysmtp+api");
        username := Get(conf, "api_token");
      case _ =>
    }
  }

  /** The `.=` steps that build a credentials DSN. */
  method BuildDsn(transport: string, username: string, password: Option<string>, host: Option<string>)
    returns (dns: string)
    ensures dns == CredentialsDsn(transport, username, password, host)
  {
    var head := transport + "://";
    dns := head + UrlEncode(username);
    if Truthy(password) {
      dns := dns + ":" + UrlEncode(password.value);
    }
    assert dns == head + CredentialsPart(username, password);
    dns := dns + "@" + host.GetOr("default");
  }

  /**
   * The DSN derivation of the constructor: lower-cases the configuration's keys, selects
   * the transport and either keeps the fixed DSN, appends 'transport not supported' to
   * `errors` when no username is set, or builds the DSN from the credentials.
   */
  method Construct(provider: string, confEntries: ConfEntries, errors: seq<string>)
    returns (dsn: Option<string>, errorsOut: seq<string>)
    ensures match ExpectedDsn(provider, LowerKeys(confEntries))
      case Ok(d) => dsn == Some(d) && errorsOut == errors
      case Err(e) => dsn == None && errorsOut == errors + [e]
  {
    var conf := LowerKeys(confEntries);
    var dns, transport, username, password, host := SelectTransport(provider, conf);
    errorsOut := errors;
    if dns.None? {
      if !Truthy(username) {
        errorsOut := errorsOut + ["transport not supported"];
        return None, errorsOut;
      }
      var built := BuildDsn(transport, username.value, password, host);
      dns := Some(built);
    }
    dsn := dns;
  }

  /** The two providers with a fixed local DSN. */
  lemma LocalProviders(conf: map<string, string>)
    ensures ExpectedDsn("sendmail", conf) == Ok("sendmail://default")
    ensures ExpectedDsn("native", conf) == Ok("native://default")
  {
  }

  /** Provider `smtp`: the credentials, then the configured server and port as the host. */
  lemma SmtpProvider(conf: map<string, string>)
    ensures Truthy(Get(conf, "username")) ==>
      ExpectedDsn("smtp", conf) == Ok(CredentialsDsn("smtp", conf["username"], Get(conf, "password"),
        Some(Get(conf, "server").GetOr("") + ":" + Get(conf, "port").GetOr(""))))
    ensures !Truthy(Get(conf, "username")) ==> ExpectedDsn("smtp", conf) == Err("transport not supported")
  {
  }

  /** Combinations with no transport: gmail over http or api, mailjet over http. */
  lemma UnsupportedCombinations(conf: map<string, string>)
    requires Get(conf, "transport") == Some("http") || Get(conf, "transport") == Some("api")
    ensures ExpectedDsn("gmail", conf) == Err("transport not supported")
    ensures Get(conf, "transport") == Some("http") ==> ExpectedDsn("mailjet", conf) == Err("transport not supported")
  {
  }

  /** `ohmysmtp` has a fixed DSN and embeds no credential. */
  lemma OhMySmtp(conf: map<string, string>)
    ensures Get(conf, "transport") == Some("smtp") ==> ExpectedDsn("ohmysmtp", conf) == Ok("ohmysmtp+smtp")
    ensures Get(conf, "transport") == Some("api") ==> ExpectedDsn("ohmysmtp", conf) == Ok("ohmysmtp+api")
  {
  }

  /** Without a truthy username no credentials DSN is built, whatever the provider. */
  lemma NoUsernameNoDsn(provider: string, conf: map<string, string>)
    requires provider != "sendmail" && provider != "native"
    requires ProviderRoute(provider, Get(conf, "transport")).Credentials? || provider == "smtp"
    requires provider == "smtp" ==> !Truthy(Get(conf, "username"))
    requires provider != "smtp" ==> !Truthy(Get(conf, ProviderRoute(provider, Get(conf, "transport")).userKey))
    ensures ExpectedDsn(provider, conf) == Err("transport not supported")
  {
  }

  /** Neither piece of the credentials part contains `@`. */
  lemma NoAtInCredentials(username: string, password: Option<string>)
    ensures '@' !in CredentialsPart(username, password)
  {
    if Truthy(password) {
      var head, tail := UrlEncode(username), UrlEncode(password.value);
      assert CredentialsPart(username, password) == head + [':'] + tail;
      assert forall c :: c in head + [':'] + tail ==> c in head || c == ':' || c in tail;
    } else {
      assert CredentialsPart(username, password) == UrlEncode(username);
    }
  }

  /**
   * The encoded credentials contain no `@`, so the first `@` of what follows `://` ends
   * them and the host is what the DSN names; no configured value can change the host.
   */
  lemma CredentialsDelimited(username: string, password: Option<string>, host: Option<string>)
    ensures var creds := CredentialsPart(username, password);
            SplitAtFirst(creds + "@" + host.GetOr("default"), '@') == (creds, host.GetOr("default"))
  {
    NoAtInCredentials(username, password);
    SplitAtFirstOf(CredentialsPart(username, password), '@', host.GetOr("default"));
  }
}
