/**
 * The administrators' review page: who may open it, which of its pages is shown (no key,
 * an uploaded file, the site-password form, the review of one user's record, or the list
 * of users), the site-password submission and its `wrongPassord` flag, the status update,
 * and the table of submitted data.
 */
module UserVerificationList {
  import opened Wrappers
  import opened Php
  import opened Primitives
  import opened UserVerification

  /** The page object's state: the user id from the sub-page and the wrong-password flag. */
  class ListPage {
    var userId: Option<string>
    var wrongPassord: bool

    constructor ()
      ensures userId == None && !wrongPassord
    {
      userId, wrongPassord := None, false;
    }

    /** The password field's validation: the wrong-password message while the flag is raised. */
    function PasswordValidation(): Option<string>
      reads this
    {
      if wrongPassord then Some(WrongPasswordMessage) else None
    }
  }

  const WrongPasswordMessage := "userverification-special-manage-verification-form-wrong-password"

  /** What `execute` shows. */
  datatype Page =
    | LoginRequired
    | Restricted
    | NoKeys
    | FileShown(path: string, contents: Decrypted)
    | PasswordForm
    | Review(data: Decrypted, status: Option<Bytes>, comments: Option<Bytes>)
    | UserList
    | Failed(failure: Failure)

  /** A column of a stored record; None stands for NULL. */
  function Column(row: Row, c: string): Option<Bytes> {
    if c in row then Some(row[c]) else None
  }

  /** A decryption as the page shows it: the value, or the exception that ends the request. */
  function Shown(d: Result<Decrypted, Failure>, show: Decrypted -> Page): Page {
    match d
    case Ok(v) => show(v)
    case Err(f) => Failed(f)
  }

  /**
   * `execute`: logged-in users only; then access for authorised groups and the manage permission; nothing but a warning
   * without an enabled key; then the requested deletion, the requested file (which ends the
   * request), the review of the sub-page's user, or the user list.
   */
  method Execute(site: Site, page: ListPage, cfg: Config, loggedIn: bool, user: User, canManage: bool,
                 par: Option<string>, deleteParam: Option<string>, fileParam: Option<string>)
    returns (shown: Page, deleteRequested: Option<string>)
    modifies site`authCache, page`userId
    ensures !loggedIn ==>
      shown == LoginRequired && deleteRequested == None
      && site.authCache == old(site.authCache) && page.userId == old(page.userId)
    ensures loggedIn ==> site.authCache == Memo(old(site.authCache), user)
    ensures loggedIn && old(site.AuthorizedValue(user)) == 0 && !canManage ==>
      shown == Restricted && deleteRequested == None && page.userId == old(page.userId)
    ensures loggedIn && (old(site.AuthorizedValue(user)) > 0 || canManage) ==> page.userId == par
    ensures loggedIn && (old(site.AuthorizedValue(user)) > 0 || canManage) && GetKeys(site.keys).None? ==>
      shown == NoKeys && deleteRequested == None
    ensures loggedIn && (old(site.AuthorizedValue(user)) > 0 || canManage) && GetKeys(site.keys).Some? ==>
      deleteRequested == (if Truthy(deleteParam) then deleteParam else None)
    ensures loggedIn && (old(site.AuthorizedValue(user)) > 0 || canManage) && GetKeys(site.keys).Some? && Truthy(fileParam) ==>
      var path := GetUploadDir(cfg, par.GetOr("")) + "/" + fileParam.value;
      var contents := if path in site.files then Some(site.files[path]) else None;
      shown == Shown(DecryptData(contents, site.keys, site.cookie), (d: Decrypted) => FileShown(path, d))
    ensures loggedIn && (old(site.AuthorizedValue(user)) > 0 || canManage) && GetKeys(site.keys).Some? && !Truthy(fileParam) ==>
      (!Truthy(par) ==> shown == UserList)
      && (Truthy(par) && IntVal(par.value) !in site.records ==> shown == Review(Null, Some(Text("none")), None))
      && (Truthy(par) && IntVal(par.value) in site.records ==>
            var row := site.records[IntVal(par.value)];
            var data := Column(row, "data");
            if !EmptyData(data) && GetUserKey(site.cookie).Err? then shown == Failed(GetUserKey(site.cookie).error)
            else if !EmptyData(data) && GetUserKey(site.cookie) == Ok(None) then shown == PasswordForm
            else shown == Shown(DecryptData(data, site.keys, site.cookie),
                                (d: Decrypted) => Review(d, Column(row, "status"), Column(row, "comments"))))
  {
    deleteRequested := None;
    if !loggedIn {
      return LoginRequired, None;
    }
    var n := site.IsAuthorizedGroup(user);
    if n == 0 && !canManage {
      return Restricted, None;
    }
    page.userId := par;
    var keys := GetKeys(site.keys);
    if keys.None? {
      return NoKeys, None;
    }
    if Truthy(deleteParam) {
      // `deleteUsers` is not part of this model: the request is only recorded
      deleteRequested := deleteParam;
    }
    if Truthy(fileParam) {
      var path := GetUploadDir(cfg, par.GetOr("")) + "/" + fileParam.value;
      var contents := if path in site.files then Some(site.files[path]) else None;
      var d := DecryptData(contents, site.keys, site.cookie);
      // `displayFile` ends the request with `exit`
      if d.Err? {
        return Failed(d.error), deleteRequested;
      }
      return FileShown(path, d.value), deleteRequested;
    }
    if Truthy(page.userId) {
      var uid := IntVal(page.userId.value);
      if uid in site.records {
        var row := site.records[uid];
        var data := Column(row, "data");
        if !EmptyData(data) {
          var userKey := GetUserKey(site.cookie);
          if userKey.Err? {
            return Failed(userKey.error), deleteRequested;
          }
          if userKey.value.None? {
            return PasswordForm, deleteRequested;
          }
        }
        var d := DecryptData(data, site.keys, site.cookie);
        if d.Err? {
          return Failed(d.error), deleteRequested;
        }
        return Review(d.value, Column(row, "status"), Column(row, "comments")), deleteRequested;
      }
      // a missing record is shown with status 'none' and no comments
      return Review(Null, Some(Text("none")), None), deleteRequested;
    }
    shown := UserList;
  }

  /** What a submit callback answers: a fatal status with its message key, or its value. */
  datatype SubmitResult = Fatal(key: string) | Done(value: bool)

  /**
   * `onSubmitPassword`: unlocks the site key with the submitted password; a wrong password
   * raises `wrongPassord` and fails the form, a right one clears it. Without a key row the
   * protected key is null, which cannot be loaded.
   */
  method OnSubmitPassword(site: Site, page: ListPage, password: string) returns (r: Result<SubmitResult, Failure>)
    modifies site`cookie, page`wrongPassord
    ensures var protected := if GetKeys(site.keys).Some? then GetKeys(site.keys).value.protectedKey else Text("");
      && (LoadProtectedKey(protected).None? ==>
            r == Err(Exception("BadFormatException")) && site.cookie == old(site.cookie) && page.wrongPassord == old(page.wrongPassord))
      && (LoadProtectedKey(protected).Some? && UnlockKey(LoadProtectedKey(protected).value, password).None? ==>
            r == Ok(Fatal("formerror")) && page.wrongPassord && site.cookie == old(site.cookie)
            && page.PasswordValidation() == Some(WrongPasswordMessage))
      && (LoadProtectedKey(protected).Some? && UnlockKey(LoadProtectedKey(protected).value, password).Some? ==>
            r == Ok(Done(true)) && !page.wrongPassord && page.PasswordValidation().None?
            && site.cookie == Some(SaveKey(UnlockKey(LoadProtectedKey(protected).value, password).value)))
  {
    var keys := GetKeys(site.keys);
    var protected := if keys.Some? then keys.value.protectedKey else Text("");
    var res, message := site.SetUserKey(protected, password);
    if res.Err? {
      return Err(res.error);
    }
    if res.value == false {
      page.wrongPassord := true;
      return Ok(Fatal("formerror"));
    }
    page.wrongPassord := false;
    r := Ok(Done(res.value));
  }

  /** The statuses the review form offers, in its order. */
  const StatusOptions: seq<string> := ["none", "pending", "verified", "not_required"]

  /** The record the review form submits. */
  function ReviewRow(status: string, comments: string): (r: Row)
    ensures "user_id" !in r
    ensures r.Keys == {"status", "comments"} && r["status"] == Text(status) && r["comments"] == Text(comments)
  {
    map["status" := Text(status), "comments" := Text(comments)]
  }

  /**
   * Whichever status the administrator picks is stored as it is, so a record can hold 'none';
   * a user whose record says 'none' is not verified and is offered the form again.
   */
  lemma ReviewStoresAnyOption(records: map<int, Row>, userId: int, status: string, comments: string, date: string)
    requires status in StatusOptions
    requires ManageRowFound(records, userId) || userId !in records
    ensures GetStatus(ManageRecords(records, userId, ReviewRow(status, comments), date), userId) == Some(Text(status))
    ensures status == "none" ==>
      var after := ManageRecords(records, userId, ReviewRow(status, comments), date);
      !IsVerified(after, userId) && GetStatus(after, userId) != Some(Pending)
  {
  }

  /**
   * `onSubmit`: stores the chosen status and comments for the sub-page's user, the id cast
   * with `(int)`; any option of the form is stored as it is, 'none' included.
   */
  method OnSubmit(site: Site, page: ListPage, status: string, comments: string, date: string)
    returns (r: Result<bool, Failure>)
    modifies site`records
    ensures var uid := IntOf(page.userId);
      && (!ManageRowFound(old(site.records), uid) && uid in old(site.records) ==>
            r == Err(Exception("DBQueryError")) && site.records == old(site.records))
      && (ManageRowFound(old(site.records), uid) || uid !in old(site.records) ==>
            r == Ok(true) && site.records == ManageRecords(old(site.records), uid, ReviewRow(status, comments), date)
            && Column(site.records[uid], "status") == Some(Text(status))
            && Column(site.records[uid], "comments") == Some(Text(comments)))
  {
    var uid := IntOf(page.userId);
    var res := site.SetManageVerification(uid, ReviewRow(status, comments), date);
    if res.Err? {
      return Err(res.error);
    }
    r := Ok(true);
  }

  /** A cell of the data table: the submitted value, or a link that shows the named file. */
  datatype Cell = Value(text: string) | FileLink(file: string)

  /** A row of the data table: the field name with `_` shown as a space, and its cell. */
  datatype TableRow = TableRow(header: string, cell: Cell)

  /** What `displayData` shows. */
  datatype Display = NoValidUser | NoData(name: string) | Table(name: string, rows: seq<TableRow>)

  /** The row `displayData` shows for one submitted field. */
  function RowFor(f: Field): TableRow {
    TableRow(ReplaceChar(f.name, '_', ' '), if f.kind != "file" then Value(f.value) else FileLink(f.value))
  }

  /** The row loop of `displayData`: one row per field, in order. */
  method DisplayRows(fields: FieldSet) returns (rows: seq<TableRow>)
    ensures |rows| == |fields|
    ensures forall i :: 0 <= i < |fields| ==> rows[i] == RowFor(fields[i])
  {
    rows := [];
    var i := 0;
    while i < |fields|
      invariant 0 <= i <= |fields|
      invariant |rows| == i
      invariant forall j :: 0 <= j < i ==> rows[j] == RowFor(fields[j])
    {
      var f := fields[i];
      var cell := if f.kind != "file" then Value(f.value) else FileLink(f.value);
      rows := rows + [TableRow(ReplaceChar(f.name, '_', ' '), cell)];
      i := i + 1;
    }
  }

  /** A row shows its field's value, or links to it exactly when the field is a file; its header has no `_`. */
  lemma RowForSpec(f: Field)
    ensures '_' !in RowFor(f).header && |RowFor(f).header| == |f.name|
    ensures RowFor(f).cell.FileLink? <==> f.kind == "file"
    ensures RowFor(f).cell.FileLink? ==> RowFor(f).cell.file == f.value
    ensures RowFor(f).cell.Value? ==> RowFor(f).cell.text == f.value
  {
  }

  /**
   * `displayData`: an unknown user is reported; empty data (null, false, "" or "0") shows
   * the no-data notice; otherwise the decoded field-set is shown row by row (data that does
   * not decode gives no rows).
   */
  method DisplayData(data: Decrypted, userName: Option<string>) returns (d: Display)
    ensures userName.None? ==> d == NoValidUser
    ensures userName.Some? && (data.Null? || data.False? || EmptyBytes(data.plain)) ==> d == NoData(userName.value)
    ensures userName.Some? && data.Plain? && !EmptyBytes(data.plain) ==>
      d.Table? && d.name == userName.value
      && var fields := JsonDecode(data.plain).GetOr([]);
         |d.rows| == |fields| && forall i :: 0 <= i < |fields| ==> d.rows[i] == RowFor(fields[i])
  {
    if userName.None? {
      return NoValidUser;
    }
    if data.Null? || data.False? || EmptyBytes(data.plain) {
      return NoData(userName.value);
    }
    var fields := JsonDecode(data.plain).GetOr([]);
    var rows := DisplayRows(fields);
    d := Table(userName.value, rows);
  }

  /**
   * What the form stores reads back on this page: with the site key unlocked into the
   * cookie, the sealed field-set decrypts to non-empty JSON that decodes to the same fields,
   * from which `displayData` builds its rows.
   */
  lemma ReviewShowsSubmission(keys: seq<KeyRow>, protected: ProtectedKey, password: string, sk: SecretKey, fs: FieldSet)
    requires GetKeys(keys).Some?
    requires UnlockKey(protected, password).Some?
    requires GetKeys(keys).value.publicKey == PublicKeyOf(sk)
    requires GetKeys(keys).value.encryptedPrivateKey ==
      EncryptSymmetric(SecretKeyBytes(sk), UnlockKey(protected, password).value)
    ensures var d := DecryptData(Some(Seal(PublicKeyOf(sk), JsonEncode(fs))), keys, Some(SaveKey(UnlockKey(protected, password).value)));
            && d == Ok(Plain(JsonEncode(fs)))
            && !EmptyBytes(d.value.plain)
            && JsonDecode(d.value.plain) == Some(fs)
  {
    DecryptDataSuccess(keys, protected, password, sk, JsonEncode(fs));
  }
}
