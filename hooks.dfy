/**
 * The hooks the extension registers: the autopromote condition added at start-up, the
 * e-mail confirmation required of non-authorised users, the permission gate on editing
 * and on the actions that require a verified user, the cookie cleared on logout, and the
 * alternate mailer that sends authentication mail through the configured transport.
 */
module Hooks {
  import opened Wrappers
  import opened Php
  import opened Primitives
  import opened UserVerification
  import opened Mailer

  /** `APCOND_EMAILCONFIRMED`, the autopromote condition 'has a confirmed e-mail address'. */
  const ApcondEmailConfirmed := 3

  /** The configuration and the globals the hooks read and write. */
  class Globals {
    /** `$wgUserVerificationEmailConfirmToEdit`. */
    var confirmToEdit: bool
    /** `$wgUserVerificationRequireUserVerifiedActions`. */
    var verifiedActions: seq<string>
    /** `$wgUserVerificationMailer` and `$wgUserVerificationMailerConf`. */
    var mailer: string
    var mailerConf: ConfEntries
    /** `$wgEmailConfirmToEdit`. */
    var emailConfirmToEdit: bool
    /** `$wgAutopromote`: the conditions of each automatic group. */
    var autopromote: map<string, seq<int>>

    constructor (confirmToEdit: bool, verifiedActions: seq<string>, mailer: string, mailerConf: ConfEntries)
      ensures this.confirmToEdit == confirmToEdit && this.verifiedActions == verifiedActions
      ensures this.mailer == mailer && this.mailerConf == mailerConf
      ensures emailConfirmToEdit == false && autopromote == map[]
    {
      this.confirmToEdit, this.verifiedActions := confirmToEdit, verifiedActions;
      this.mailer, this.mailerConf := mailer, mailerConf;
      emailConfirmToEdit, autopromote := false, map[];
    }

    /** The conditions of `group`; an absent group has none. */
    function Conditions(group: string): seq<int>
      reads this
    {
      if group in autopromote then autopromote[group] else []
    }
  }

  /** `initExtension`: with e-mail confirmation on, autoconfirmed also requires a confirmed address. */
  method InitExtension(g: Globals)
    modifies g`autopromote
    ensures g.confirmToEdit ==>
      g.autopromote == old(g.autopromote)["autoconfirmed" := old(g.Conditions("autoconfirmed")) + [ApcondEmailConfirmed]]
    ensures !g.confirmToEdit ==> g.autopromote == old(g.autopromote)
  {
    if g.confirmToEdit {
      g.autopromote := g.autopromote["autoconfirmed" := g.Conditions("autoconfirmed") + [ApcondEmailConfirmed]];
    }
  }

  /** `onBeforeInitialize`: only ever switches e-mail confirmation on, and only for a non-authorised user. */
  method OnBeforeInitialize(g: Globals, site: Site, user: User)
    modifies g`emailConfirmToEdit, site`authCache
    ensures g.emailConfirmToEdit == (old(g.emailConfirmToEdit) || (g.confirmToEdit && old(site.AuthorizedValue(user)) == 0))
    ensures site.authCache == Memo(old(site.authCache), user)
  {
    var n := site.IsAuthorizedGroup(user);
    if n == 0 {
      if g.confirmToEdit {
        g.emailConfirmToEdit := true;
      }
    }
  }

  /** An entry of the permission errors the hook returns: a message key, or the text of a message. */
  datatype Item = MessageKey(key: string) | Literal(text: string) | MessageText(message: string)

  /** The link offered to an unverified user. */
  const QueryLinkText := "{{#querylink:Special:UserVerification|continue|return={{FULLPAGENAME}}}}"

  /**
   * The decision of `onGetUserPermissionsErrors` given what it looks up: the hook's return
   * value (None for no return value) and the new `$result`.
   */
  function PermissionDecision(confirmToEdit: bool, verifiedActions: seq<string>, action: string, authorized: bool,
                              emailAuthenticated: Option<string>, verified: bool, status: Option<Bytes>,
                              result: seq<Item>): (Option<bool>, seq<Item>)
  {
    if action == "edit" && confirmToEdit && !authorized && !Truthy(emailAuthenticated) then
      (Some(false), [MessageKey("confirmedittext")])
    else if action in verifiedActions && !authorized && !verified then
      (Some(false), [MessageKey("userverifiedtoedittext"),
                     if status != Some(Pending) then Literal(QueryLinkText) else MessageText("userverifiedtoreadtext-pending")])
    else
      (None, result)
  }

  /**
   * `onGetUserPermissionsErrors`: blocks editing without a confirmed e-mail address, then the
   * configured actions for an unverified user; authorised users pass both checks.
   */
  method OnGetUserPermissionsErrors(g: Globals, site: Site, user: User, emailAuthenticated: Option<string>,
                                    action: string, result: seq<Item>)
    returns (ret: Option<bool>, resultOut: seq<Item>)
    modifies site`authCache
    ensures (ret, resultOut) ==
      PermissionDecision(g.confirmToEdit, g.verifiedActions, action, old(site.AuthorizedValue(user)) > 0,
                         emailAuthenticated, IsVerified(site.records, user.id), GetStatus(site.records, user.id), result)
    ensures (action == "edit" && g.confirmToEdit) || action in g.verifiedActions ==>
      site.authCache == Memo(old(site.authCache), user)
    ensures !((action == "edit" && g.confirmToEdit) || action in g.verifiedActions) ==>
      site.authCache == old(site.authCache)
  {
    if action == "edit" {
      if g.confirmToEdit {
        var n := site.IsAuthorizedGroup(user);
        if n == 0 && !Truthy(emailAuthenticated) {
          return Some(false), [MessageKey("confirmedittext")];
        }
      }
    }
    if action in g.verifiedActions {
      var n := site.IsAuthorizedGroup(user);
      MemoIdempotent(old(site.authCache), user);
      if n == 0 && !IsVerified(site.records, user.id) {
        var status := GetStatus(site.records, user.id);
        var link := if status != Some(Pending) then Literal(QueryLinkText) else MessageText("userverifiedtoreadtext-pending");
        return Some(false), [MessageKey("userverifiedtoedittext"), link];
      }
    }
    ret, resultOut := None, result;
  }

  /** Editing without an authenticated e-mail address is refused with 'confirmedittext'. */
  lemma EditNeedsConfirmedEmail(verifiedActions: seq<string>, emailAuthenticated: Option<string>, verified: bool,
                                status: Option<Bytes>, result: seq<Item>)
    requires !Truthy(emailAuthenticated)
    ensures PermissionDecision(true, verifiedActions, "edit", false, emailAuthenticated, verified, status, result)
            == (Some(false), [MessageKey("confirmedittext")])
  {
  }

  /**
   * An action that requires a verified user, by an unauthorised unverified user, is refused;
   * the second entry is the link unless the status is pending, then the pending notice.
   */
  lemma UnverifiedRefused(confirmToEdit: bool, verifiedActions: seq<string>, action: string,
                          emailAuthenticated: Option<string>, status: Option<Bytes>, result: seq<Item>)
    requires action in verifiedActions
    requires !(action == "edit" && confirmToEdit && !Truthy(emailAuthenticated))
    ensures var (ret, out) := PermissionDecision(confirmToEdit, verifiedActions, action, false, emailAuthenticated, false, status, result);
            && ret == Some(false) && |out| == 2 && out[0] == MessageKey("userverifiedtoedittext")
            && (status == Some(Pending) <==> out[1] == MessageText("userverifiedtoreadtext-pending"))
            && (status != Some(Pending) <==> out[1] == Literal(QueryLinkText))
  {
  }

  /** An authorised user is never blocked, and `$result` is left as it was. */
  lemma AuthorizedNeverBlocked(confirmToEdit: bool, verifiedActions: seq<string>, action: string,
                               emailAuthenticated: Option<string>, verified: bool, status: Option<Bytes>, result: seq<Item>)
    ensures PermissionDecision(confirmToEdit, verifiedActions, action, true, emailAuthenticated, verified, status, result)
            == (None, result)
  {
  }

  /** The hook blocks exactly when one of its two checks fires; otherwise `$result` is untouched. */
  lemma BlocksIffACheckFires(confirmToEdit: bool, verifiedActions: seq<string>, action: string, authorized: bool,
                             emailAuthenticated: Option<string>, verified: bool, status: Option<Bytes>, result: seq<Item>)
    ensures var (ret, out) := PermissionDecision(confirmToEdit, verifiedActions, action, authorized, emailAuthenticated, verified, status, result);
            && (ret == Some(false) <==>
                  !authorized && ((action == "edit" && confirmToEdit && !Truthy(emailAuthenticated))
                                  || (action in verifiedActions && !verified)))
            && (ret == None ==> out == result)
            && (ret.None? || ret == Some(false))
  {
  }

  /** A user with a verified or not-required record passes the verified-actions check. */
  lemma VerifiedUserPasses(g: Globals, site: Site, user: User, action: string, emailAuthenticated: Option<string>, result: seq<Item>)
    requires action != "edit" || !g.confirmToEdit || Truthy(emailAuthenticated)
    requires GetStatus(site.records, user.id) == Some(Text("verified")) || GetStatus(site.records, user.id) == Some(Text("not_required"))
    ensures PermissionDecision(g.confirmToEdit, g.verifiedActions, action, site.AuthorizedValue(user) > 0,
                               emailAuthenticated, IsVerified(site.records, user.id), GetStatus(site.records, user.id), result)
            == (None, result)
  {
  }

  /** `onUserLogoutComplete`: the user-key cookie is deleted. */
  method OnUserLogoutComplete(site: Site)
    modifies site`cookie
    ensures site.cookie == None
  {
    site.DeleteCookie();
  }

  /** The message handed to the transport. */
  datatype Email = Email(transport: string, returnPath: Option<string>, from: string, subject: string, text: string, to: string)

  /** A zero-width space: stands in for an empty subject, which the transport refuses. */
  const ZeroWidthSpace := "\U{200B}"

  /** The subject sent: the given one, or the zero-width space when it is empty. */
  function SubjectFor(subject: string): (r: string)
    ensures !EmptyString(r)
    ensures !EmptyString(subject) ==> r == subject
  {
    if EmptyString(subject) then ZeroWidthSpace else subject
  }

  /**
   * `onAlternateUserMailer`: with no mailer or no configuration it lets the regular mailer
   * send; a mailer that cannot be built prints its first error; otherwise it sends through
   * the configured transport and returns false so that the regular mailer does not.
   */
  method OnAlternateUserMailer(g: Globals, headers: map<string, string>, to: seq<string>, fromName: string,
                               fromAddress: string, subject: string, body: string)
    returns (ret: Option<bool>, output: seq<string>, sent: Option<Email>)
    ensures EmptyString(g.mailer) || g.mailerConf == [] ==> ret == None && output == [] && sent == None
    ensures !(EmptyString(g.mailer) || g.mailerConf == []) ==>
      match ExpectedDsn(g.mailer, LowerKeys(g.mailerConf))
      case Err(e) => ret == None && output == [e] && sent == None
      case Ok(d) =>
        && ret == Some(false) && output == []
        && sent == Some(Email(d, Get(headers, "Return-Path"), fromName + "<" + fromAddress + ">",
                              SubjectFor(subject), body, Join(", ", to)))
  {
    if EmptyString(g.mailer) || g.mailerConf == [] {
      return None, [], None;
    }
    var dsn, errors := Construct(g.mailer, g.mailerConf, []);
    if |errors| > 0 {
      return None, [errors[0]], None;
    }
    var s := subject;
    if EmptyString(s) {
      s := ZeroWidthSpace;
    }
    var email := Email(dsn.value, Get(headers, "Return-Path"), fromName + "<" + fromAddress + ">", s, body, Join(", ", to));
    sent := Some(email);
    ret, output := Some(false), [];
  }
}
