/**
 * The record store and the decrypt path of the extension: the verification table
 * (one row per user id), the keys table, the encrypted upload directory, the cookie
 * holding the unlocked user key, and the per-request cache of authorised-group lookups.
 */
module UserVerification {
  import opened Wrappers
  import opened Php
  import opened Primitives

  /**
   * A row of `userverification_verification` without its `user_id`, which is the
   * table's key: column name to value; an absent column is NULL.
   */
  type Row = map<string, Bytes>

  /** A row of `userverification_keys`. */
  datatype KeyRow = KeyRow(
    publicKey: PublicKey,
    protectedKey: Bytes,
    encryptedPrivateKey: Bytes,
    enabled: int,
    createdAt: string,
    updatedAt: string)

  /** `$IP`, `$wgUserVerificationUploadDir` and `$wgMaxUploadSize`. */
  datatype Config = Config(installPath: string, uploadDir: string, maxUploadSize: int)

  /** A user as the extension sees them: id, name and effective groups. */
  datatype User = User(id: nat, name: string, groups: seq<string>)

  /** An entry of `$_FILES`. */
  datatype Upload = Upload(name: string, tmpName: string, size: int, contents: Bytes)

  /** What `decryptData` returns when it does not throw: null, false or the plaintext. */
  datatype Decrypted = Null | False | Plain(plain: Bytes)

  const AuthorizedGroups: seq<string> := ["sysop", "bureaucrat", "interface-admin", "userverification-admin"]

  const PasswordMismatchMessage := "userverification-error-message-password-doesnotmatch"

  const Pending := Text("pending")

  // ---------------------------------------------------------------- status

  /** `getStatus`: the stored status, None when there is no row (false) or the column is NULL. */
  function GetStatus(records: map<int, Row>, userId: int): Option<Bytes> {
    if userId in records && "status" in records[userId] then Some(records[userId]["status"]) else None
  }

  /** `isVerified`: the status is 'verified' or 'not_required'. */
  predicate IsVerified(records: map<int, Row>, userId: int) {
    GetStatus(records, userId) == Some(Text("verified")) || GetStatus(records, userId) == Some(Text("not_required"))
  }

  lemma IsVerifiedCases(records: map<int, Row>, userId: int)
    ensures IsVerified(records, userId) <==>
      userId in records && "status" in records[userId]
      && (records[userId]["status"] == Text("verified") || records[userId]["status"] == Text("not_required"))
    ensures userId !in records ==> !IsVerified(records, userId)
    ensures GetStatus(records, userId) == Some(Pending) ==> !IsVerified(records, userId)
  {
  }

  // ---------------------------------------------------------------- keys

  /** `getKeys`: the first row with `enabled = 1`, or none. */
  function GetKeys(rows: seq<KeyRow>): (r: Option<KeyRow>)
    ensures r.None? <==> forall i :: 0 <= i < |rows| ==> rows[i].enabled != 1
    ensures r.Some? ==> r.value.enabled == 1
    ensures r.Some? ==> exists i :: 0 <= i < |rows| && rows[i] == r.value && (forall j :: 0 <= j < i ==> rows[j].enabled != 1)
  {
    if rows == [] then None
    else if rows[0].enabled == 1 then Some(rows[0])
    else
      var r := GetKeys(rows[1..]);
      assert r.Some? ==> exists i :: 0 <= i < |rows[1..]| && rows[1..][i] == r.value && (forall j :: 0 <= j < i ==> rows[1..][j].enabled != 1);
      r
  }

  /**
   * `getUserKey`: no cookie (or a falsy one) gives false (None); an ascii-safe key gives the
   * key; anything else makes `Key::loadFromAsciiSafeString` throw.
   */
  function GetUserKey(cookie: Option<Bytes>): Result<Option<Key>, Failure> {
    if cookie.None? || EmptyBytes(cookie.value) then Ok(None)
    else match LoadKey(cookie.value)
      case Some(k) => Ok(Some(k))
      case None => Err(Exception("BadFormatException"))
  }

  /** `encryptSymmetric`: what it returns is opened by the same key and by no other. */
  function EncryptSymmetric(text: Bytes, key: Key): (r: Bytes)
    ensures DecryptSymmetric(r, key) == Some(text)
    ensures forall k :: k != key ==> DecryptSymmetric(r, k).None?
  {
    Encrypt(text, key)
  }

  /** `decryptSymmetric`: None stands for `false`; a plaintext is one this key encrypted. */
  function DecryptSymmetric(text: Bytes, key: Key): (r: Option<Bytes>)
    ensures r.Some? ==> text == Encrypt(r.value, key)
  {
    Decrypt(text, key)
  }

  /** `empty($data)` for a column or file read: NULL/false, "" or "0". */
  predicate EmptyData(data: Option<Bytes>) {
    data.None? || EmptyBytes(data.value)
  }

  /**
   * `decryptData`: empty input is null; otherwise the enabled key, the cookie's user key,
   * the secret key decrypted under it, and the sealed box opened with the rebuilt key pair.
   */
  function DecryptData(data: Option<Bytes>, keys: seq<KeyRow>, cookie: Option<Bytes>): Result<Decrypted, Failure> {
    if EmptyData(data) then Ok(Null)
    else match GetKeys(keys)
      case None => Err(Exception("keys not set"))
      case Some(row) =>
        match GetUserKey(cookie)
        case Err(f) => Err(f)
        case Ok(None) => Err(Exception("cannot decrypt private key"))
        case Ok(Some(userKey)) =>
          match DecryptSymmetric(row.encryptedPrivateKey, userKey)
          case Some(SecretKeyBytes(sk)) =>
            (match SealOpen(data.value, sk, row.publicKey)
             case Some(m) => Ok(Plain(m))
             case None => Ok(False))
          // a secret key that is not one (or `false`) makes the key-pair constructor throw
          case _ => Err(Exception("SodiumException"))
  }

  /** The error ladder of `decryptData`, in the order of its checks. */
  lemma DecryptDataLadder(data: Option<Bytes>, keys: seq<KeyRow>, cookie: Option<Bytes>)
    ensures EmptyData(data) ==> DecryptData(data, keys, cookie) == Ok(Null)
    ensures !EmptyData(data) && (forall i :: 0 <= i < |keys| ==> keys[i].enabled != 1) ==>
      DecryptData(data, keys, cookie) == Err(Exception("keys not set"))
    ensures !EmptyData(data) && (exists i :: 0 <= i < |keys| && keys[i].enabled == 1) && (cookie.None? || EmptyBytes(cookie.value)) ==>
              DecryptData(data, keys, cookie) == Err(Exception("cannot decrypt private key"))
  {
  }

  /**
   * The success path: a secret key stored encrypted under the key that `password` unlocks,
   * a cookie holding that key, and data sealed to the matching public key decrypt to the
   * sealed message.
   */
  lemma DecryptDataSuccess(keys: seq<KeyRow>, protected: ProtectedKey, password: string, sk: SecretKey, m: Bytes)
    requires GetKeys(keys).Some?
    requires UnlockKey(protected, password).Some?
    requires GetKeys(keys).value.publicKey == PublicKeyOf(sk)
    requires GetKeys(keys).value.encryptedPrivateKey ==
      EncryptSymmetric(SecretKeyBytes(sk), UnlockKey(protected, password).value)
    ensures DecryptData(Some(Seal(PublicKeyOf(sk), m)),
                        keys, Some(SaveKey(UnlockKey(protected, password).value))) == Ok(Plain(m))
  {
  }

  // ---------------------------------------------------------------- uploads

  /** `getUploadDir`: the configured directory with `{$IP}` expanded, then `/` and the user id. */
  function GetUploadDir(cfg: Config, userId: string): string {
    ReplaceAll(cfg.uploadDir, "{$IP}", cfg.installPath) + "/" + userId
  }

  /** Two users never share an upload directory. */
  lemma UploadDirsDistinct(cfg: Config, a: nat, b: nat)
    requires GetUploadDir(cfg, NatToString(a)) == GetUploadDir(cfg, NatToString(b))
    ensures a == b
  {
    var prefix := ReplaceAll(cfg.uploadDir, "{$IP}", cfg.installPath) + "/";
    assert GetUploadDir(cfg, NatToString(a))[|prefix|..] == NatToString(a);
    assert GetUploadDir(cfg, NatToString(b))[|prefix|..] == NatToString(b);
    NatToStringInjective(a, b);
  }

  /** A name a file can be written under: `""`, `.` and `..` name a directory, the upload directory or its parent. */
  predicate PlainName(n: string) {
    n != [] && !(|n| <= 2 && forall k :: 0 <= k < |n| ==> n[k] == '.')
  }

  /** `PlainName` rules out exactly the three names. */
  lemma PlainNameSpec(n: string)
    ensures PlainName(n) <==> n != "" && n != "." && n != ".."
  {
    if |n| == 1 && n[0] == '.' {
      assert n == ".";
    } else if |n| == 2 && n[0] == '.' && n[1] == '.' {
      assert n == "..";
    }
  }

  /** A file directly inside `dir`. */
  predicate DirectChild(dir: string, path: string) {
    |path| > |dir| + 1 && path[..|dir| + 1] == dir + "/" && '/' !in path[|dir| + 1..] && PlainName(path[|dir| + 1..])
  }

  /** What the upload loop of `setVerificationData` works with. */
  datatype UploadContext = UploadContext(dir: string, pk: PublicKey, maxSize: int, uploads: map<string, Upload>)

  /** A file entry whose upload has a temporary file. */
  predicate HasUpload(ctx: UploadContext, f: Field) {
    f.kind == "file" && f.name in ctx.uploads && !EmptyString(ctx.uploads[f.name].tmpName)
  }

  /** Where the upload for entry `f` is written: the upload directory and the file's base name. */
  function UploadTarget(ctx: UploadContext, f: Field): string
    requires HasUpload(ctx, f)
  {
    ctx.dir + "/" + Basename(ctx.uploads[f.name].name)
  }

  /**
   * An upload target is a file directly inside the upload directory exactly when the base
   * name of the client's file name is not `""`, `.` or `..`; whatever else the client calls
   * the file, it cannot leave the directory.
   */
  lemma UploadTargetInDir(ctx: UploadContext, f: Field)
    requires HasUpload(ctx, f)
    ensures DirectChild(ctx.dir, UploadTarget(ctx, f)) <==> PlainName(Basename(ctx.uploads[f.name].name))
  {
    var p := UploadTarget(ctx, f);
    assert p[..|ctx.dir| + 1] == ctx.dir + "/";
    assert p[|ctx.dir| + 1..] == Basename(ctx.uploads[f.name].name);
  }

  /** The files after the loop, and whether an upload over the size limit ended the request. */
  datatype UploadRun = UploadRun(files: map<string, Bytes>, exited: bool)

  function StoreUploads(files: map<string, Bytes>, ctx: UploadContext, entries: FieldSet): UploadRun
    decreases |entries|
  {
    if entries == [] then UploadRun(files, false)
    else
      var run := StoreUploads(files, ctx, entries[..|entries| - 1]);
      var f := entries[|entries| - 1];
      if run.exited || !HasUpload(ctx, f) then run
      else if ctx.uploads[f.name].size > ctx.maxSize then UploadRun(run.files, true)
      else if !PlainName(Basename(ctx.uploads[f.name].name)) then run
      else UploadRun(run.files[UploadTarget(ctx, f) := Seal(ctx.pk, ctx.uploads[f.name].contents)], false)
  }

  /** One more entry of the loop, after a run that has not ended the request. */
  lemma StoreUploadsStep(files: map<string, Bytes>, ctx: UploadContext, entries: FieldSet, i: nat, before: map<string, Bytes>)
    requires i < |entries|
    requires StoreUploads(files, ctx, entries[..i]) == UploadRun(before, false)
    ensures !HasUpload(ctx, entries[i]) ==> StoreUploads(files, ctx, entries[..i + 1]) == UploadRun(before, false)
    ensures HasUpload(ctx, entries[i]) && ctx.uploads[entries[i].name].size > ctx.maxSize ==>
      StoreUploads(files, ctx, entries[..i + 1]) == UploadRun(before, true)
    ensures (HasUpload(ctx, entries[i]) && ctx.uploads[entries[i].name].size <= ctx.maxSize
             && !PlainName(Basename(ctx.uploads[entries[i].name].name))) ==>
      StoreUploads(files, ctx, entries[..i + 1]) == UploadRun(before, false)
    ensures (HasUpload(ctx, entries[i]) && ctx.uploads[entries[i].name].size <= ctx.maxSize
             && PlainName(Basename(ctx.uploads[entries[i].name].name))) ==>
      StoreUploads(files, ctx, entries[..i + 1]) ==
        UploadRun(before[UploadTarget(ctx, entries[i]) := Seal(ctx.pk, ctx.uploads[entries[i].name].contents)], false)
  {
    var pre := entries[..i + 1];
    assert pre[..|pre| - 1] == entries[..i];
    assert pre[|pre| - 1] == entries[i];
  }

  /** Once an upload has ended the request, later entries change nothing. */
  lemma {:induction false} StoreUploadsExitSticks(files: map<string, Bytes>, ctx: UploadContext, entries: FieldSet, k: nat)
    requires k <= |entries|
    requires StoreUploads(files, ctx, entries[..k]).exited
    ensures StoreUploads(files, ctx, entries) == StoreUploads(files, ctx, entries[..k])
    decreases |entries|
  {
    if k < |entries| {
      var init := entries[..|entries| - 1];
      assert init[..k] == entries[..k];
      StoreUploadsExitSticks(files, ctx, init, k);
    } else {
      assert entries[..k] == entries;
    }
  }

  /** The upload loop keeps every existing path and writes only sealed boxes directly inside the upload directory. */
  lemma {:induction false} StoreUploadsFrame(files: map<string, Bytes>, ctx: UploadContext, entries: FieldSet)
    ensures files.Keys <= StoreUploads(files, ctx, entries).files.Keys
    ensures var out := StoreUploads(files, ctx, entries).files;
      forall p :: p in out && (p !in files || out[p] != files[p]) ==>
        DirectChild(ctx.dir, p) && out[p].SealedBox? && out[p].recipient == ctx.pk
    decreases |entries|
  {
    if entries != [] {
      var last := entries[|entries| - 1];
      var prev := StoreUploads(files, ctx, entries[..|entries| - 1]);
      StoreUploadsFrame(files, ctx, entries[..|entries| - 1]);
      if !prev.exited && HasUpload(ctx, last) && ctx.uploads[last.name].size <= ctx.maxSize
         && PlainName(Basename(ctx.uploads[last.name].name)) {
        UploadTargetInDir(ctx, last);
        assert StoreUploads(files, ctx, entries).files == prev.files[UploadTarget(ctx, last) := Seal(ctx.pk, ctx.uploads[last.name].contents)];
      } else {
        assert StoreUploads(files, ctx, entries).files == prev.files;
      }
    }
  }

  /** Over-limit upload: an entry with an upload larger than the limit. */
  predicate OverLimit(ctx: UploadContext, f: Field) {
    HasUpload(ctx, f) && ctx.uploads[f.name].size > ctx.maxSize
  }

  /** Whether the loop over `entries` reaches an `exit`; the files written so far play no part. */
  predicate Exits(ctx: UploadContext, entries: FieldSet)
    decreases |entries|
  {
    entries != [] && (Exits(ctx, entries[..|entries| - 1]) || OverLimit(ctx, entries[|entries| - 1]))
  }

  /** The last entry ends the request when it is over the limit, unless an earlier one did. */
  lemma ExitedStep(files: map<string, Bytes>, ctx: UploadContext, entries: FieldSet)
    requires entries != []
    ensures StoreUploads(files, ctx, entries).exited ==
      (StoreUploads(files, ctx, entries[..|entries| - 1]).exited || OverLimit(ctx, entries[|entries| - 1]))
  {
  }

  /** The run's flag is `Exits`. */
  lemma {:induction false} ExitedMatches(files: map<string, Bytes>, ctx: UploadContext, entries: FieldSet)
    ensures StoreUploads(files, ctx, entries).exited == Exits(ctx, entries)
    decreases |entries|
  {
    if entries != [] {
      ExitedMatches(files, ctx, entries[..|entries| - 1]);
      ExitedStep(files, ctx, entries);
    }
  }

  /** The loop reaches an `exit` exactly when some entry is over the limit. */
  lemma {:induction false} ExitsSpec(ctx: UploadContext, entries: FieldSet)
    ensures Exits(ctx, entries) <==> exists i :: 0 <= i < |entries| && OverLimit(ctx, entries[i])
    decreases |entries|
  {
    if entries != [] {
      var init := entries[..|entries| - 1];
      var last := entries[|entries| - 1];
      ExitsSpec(ctx, init);
      if Exits(ctx, init) {
        var i :| 0 <= i < |init| && OverLimit(ctx, init[i]);
        assert entries[i] == init[i];
      } else if !OverLimit(ctx, last) {
        forall i | 0 <= i < |entries|
          ensures !OverLimit(ctx, entries[i])
        {
          if i < |init| {
            assert entries[i] == init[i];
          }
        }
      }
    }
  }

  /** The loop ends the request exactly when some entry's upload is over the limit. */
  lemma StoreUploadsExit(files: map<string, Bytes>, ctx: UploadContext, entries: FieldSet)
    ensures StoreUploads(files, ctx, entries).exited <==> exists i :: 0 <= i < |entries| && OverLimit(ctx, entries[i])
  {
    ExitedMatches(files, ctx, entries);
    ExitsSpec(ctx, entries);
  }

  /** An entry whose upload is written: it has a temporary file and a plain base name. */
  predicate Stores(ctx: UploadContext, f: Field) {
    HasUpload(ctx, f) && PlainName(Basename(ctx.uploads[f.name].name))
  }

  /** Entry `i` is the last one whose upload is written to its target path. */
  predicate LastWriter(ctx: UploadContext, entries: FieldSet, i: int)
    requires 0 <= i < |entries| && HasUpload(ctx, entries[i])
  {
    forall j :: i < j < |entries| && Stores(ctx, entries[j]) ==> UploadTarget(ctx, entries[j]) != UploadTarget(ctx, entries[i])
  }

  /** The last entry of a run that did not end the request writes its upload exactly when it is stored. */
  lemma WrittenStep(files: map<string, Bytes>, ctx: UploadContext, entries: FieldSet)
    requires entries != [] && !StoreUploads(files, ctx, entries).exited
    ensures var last := entries[|entries| - 1];
      var prev := StoreUploads(files, ctx, entries[..|entries| - 1]);
      && !prev.exited
      && StoreUploads(files, ctx, entries).files ==
           if Stores(ctx, last) then prev.files[UploadTarget(ctx, last) := Seal(ctx.pk, ctx.uploads[last.name].contents)]
           else prev.files
  {
  }

  /** When the loop runs to the end, each path holds the box of the last upload written to it. */
  lemma {:induction false} StoreUploadsLastWins(files: map<string, Bytes>, ctx: UploadContext, entries: FieldSet, i: int)
    requires 0 <= i < |entries| && Stores(ctx, entries[i]) && LastWriter(ctx, entries, i)
    requires !StoreUploads(files, ctx, entries).exited
    ensures UploadTarget(ctx, entries[i]) in StoreUploads(files, ctx, entries).files
    ensures StoreUploads(files, ctx, entries).files[UploadTarget(ctx, entries[i])] == Seal(ctx.pk, ctx.uploads[entries[i].name].contents)
    decreases |entries|, 1
  {
    if i < |entries| - 1 {
      EarlierEntryKept(files, ctx, entries, i);
    } else {
      LastEntryWins(files, ctx, entries);
    }
  }

  /** An earlier entry's box survives the last entry, which aims elsewhere or writes nothing. */
  lemma {:induction false} EarlierEntryKept(files: map<string, Bytes>, ctx: UploadContext, entries: FieldSet, i: int)
    requires 0 <= i < |entries| - 1 && Stores(ctx, entries[i]) && LastWriter(ctx, entries, i)
    requires !StoreUploads(files, ctx, entries).exited
    ensures var after := StoreUploads(files, ctx, entries).files;
      UploadTarget(ctx, entries[i]) in after && after[UploadTarget(ctx, entries[i])] == Seal(ctx.pk, ctx.uploads[entries[i].name].contents)
    decreases |entries|, 0
  {
    var init := entries[..|entries| - 1];
    var last := entries[|entries| - 1];
    WrittenStep(files, ctx, entries);
    LastWriterInit(ctx, entries, i);
    StoreUploadsLastWins(files, ctx, init, i);
    var before, after := StoreUploads(files, ctx, init).files, StoreUploads(files, ctx, entries).files;
    if Stores(ctx, last) {
      UpdateElsewhere(before, after, UploadTarget(ctx, entries[i]), true, UploadTarget(ctx, last),
                      Seal(ctx.pk, ctx.uploads[last.name].contents));
    } else {
      UpdateElsewhere(before, after, UploadTarget(ctx, entries[i]), false, "", before[UploadTarget(ctx, entries[i])]);
    }
  }

  /** The last entry, when it is stored, leaves its box at its target. */
  lemma LastEntryWins(files: map<string, Bytes>, ctx: UploadContext, entries: FieldSet)
    requires entries != [] && Stores(ctx, entries[|entries| - 1]) && !StoreUploads(files, ctx, entries).exited
    ensures var last := entries[|entries| - 1];
      && UploadTarget(ctx, last) in StoreUploads(files, ctx, entries).files
      && StoreUploads(files, ctx, entries).files[UploadTarget(ctx, last)] == Seal(ctx.pk, ctx.uploads[last.name].contents)
  {
    WrittenStep(files, ctx, entries);
  }

  /** Writing some other path, or nothing, leaves a path's contents as they were. */
  lemma UpdateElsewhere(before: map<string, Bytes>, after: map<string, Bytes>, p: string, writes: bool, q: string, box: Bytes)
    requires p in before
    requires after == if writes then before[q := box] else before
    requires writes ==> q != p
    ensures p in after && after[p] == before[p]
  {
  }

  /** The last writer of a path among all entries is its last writer among all but the last, which aims elsewhere. */
  lemma LastWriterInit(ctx: UploadContext, entries: FieldSet, i: int)
    requires 0 <= i < |entries| - 1 && HasUpload(ctx, entries[i]) && LastWriter(ctx, entries, i)
    ensures var init := entries[..|entries| - 1];
      && init[i] == entries[i] && LastWriter(ctx, init, i)
      && (Stores(ctx, entries[|entries| - 1]) ==> UploadTarget(ctx, entries[|entries| - 1]) != UploadTarget(ctx, entries[i]))
  {
    var init := entries[..|entries| - 1];
    forall j | i < j < |init| && Stores(ctx, init[j])
      ensures UploadTarget(ctx, init[j]) != UploadTarget(ctx, init[i])
    {
      assert init[j] == entries[j];
    }
  }

  // ---------------------------------------------------------------- record upserts

  /** PHP's `$left + $right` on arrays: every key of either, the left value winning. */
  function ArrayUnion(left: Row, right: Row): (r: Row)
    ensures r.Keys == left.Keys + right.Keys
    ensures forall c :: c in left ==> r[c] == left[c]
    ensures forall c :: c in right && c !in left ==> r[c] == right[c]
  {
    right + left
  }

  /** Whether `selectField(..., 'user_id', ...)` gives a truthy value: a row exists and its id is not 0. */
  predicate ManageRowFound(records: map<int, Row>, userId: int) {
    userId in records && userId != 0
  }

  /**
   * The table after `setManageVerification`: an insert of the caller's row with the user id
   * and both timestamps, or an update of the caller's columns and `updated_at`.
   */
  function ManageRecords(records: map<int, Row>, userId: int, row: Row, date: string): (r: map<int, Row>)
    requires ManageRowFound(records, userId) || userId !in records
    ensures r.Keys == records.Keys + {userId}
    ensures forall u :: u in records && u != userId ==> r[u] == records[u]
    ensures userId !in records ==>
      r[userId].Keys == row.Keys + {"updated_at", "created_at"}
      && (forall c :: c in row ==> r[userId][c] == row[c])
      && ("updated_at" !in row ==> r[userId]["updated_at"] == Text(date))
      && ("created_at" !in row ==> r[userId]["created_at"] == Text(date))
    ensures userId in records ==>
      r[userId].Keys == records[userId].Keys + row.Keys + {"updated_at"}
      && (forall c :: c in row ==> r[userId][c] == row[c])
      && ("updated_at" !in row ==> r[userId]["updated_at"] == Text(date))
      && (forall c :: c in records[userId] && c !in row && c != "updated_at" ==> r[userId][c] == records[userId][c])
  {
    if !ManageRowFound(records, userId) then records[userId := InsertedRow(row, date)]
    else records[userId := UpdatedRow(records[userId], row, date)]
  }

  /** The row `setManageVerification` inserts: the caller's columns, stamped when they lack timestamps. */
  function InsertedRow(row: Row, date: string): (r: Row)
    ensures r.Keys == row.Keys + {"updated_at", "created_at"}
    ensures forall c :: c in row ==> r[c] == row[c]
    ensures "updated_at" !in row ==> r["updated_at"] == Text(date)
    ensures "created_at" !in row ==> r["created_at"] == Text(date)
  {
    ArrayUnion(row, map["updated_at" := Text(date), "created_at" := Text(date)])
  }

  /** An existing row after the update: the caller's columns and `updated_at` overwrite, the rest stays. */
  function UpdatedRow(existing: Row, row: Row, date: string): (r: Row)
    ensures r.Keys == existing.Keys + row.Keys + {"updated_at"}
    ensures forall c :: c in row ==> r[c] == row[c]
    ensures "updated_at" !in row ==> r["updated_at"] == Text(date)
    ensures forall c :: c in existing && c !in row && c != "updated_at" ==> r[c] == existing[c]
  {
    existing + ArrayUnion(row, map["updated_at" := Text(date)])
  }

  /**
   * The table after `setVerificationData` stores the sealed field-set: a new row is
   * pending with equal timestamps; an existing row gets only new data and status.
   */
  function SubmitRecords(records: map<int, Row>, userId: int, blob: Bytes, date: string): (r: map<int, Row>)
    ensures r.Keys == records.Keys + {userId}
    ensures forall u :: u in records && u != userId ==> r[u] == records[u]
    ensures "data" in r[userId] && r[userId]["data"] == blob
    ensures "status" in r[userId] && r[userId]["status"] == Pending
    ensures userId !in records ==>
      r[userId].Keys == {"data", "status", "updated_at", "created_at"}
      && r[userId]["updated_at"] == r[userId]["created_at"] == Text(date)
    ensures userId in records ==>
      r[userId].Keys == records[userId].Keys + {"data", "status"}
      && forall c :: c in records[userId] && c != "data" && c != "status" ==> r[userId][c] == records[userId][c]
  {
    if userId !in records then
      records[userId := map["data" := blob, "status" := Pending, "updated_at" := Text(date), "created_at" := Text(date)]]
    else
      records[userId := records[userId]["data" := blob]["status" := Pending]]
  }

  // ---------------------------------------------------------------- authorisation

  /** How many of `xs` occur in `ys` (`count(array_intersect($xs, $ys))` for distinct `xs`). */
  function CountIn(xs: seq<string>, ys: seq<string>): (n: nat)
    ensures n <= |xs|
    ensures n > 0 <==> exists x :: x in xs && x in ys
  {
    if xs == [] then 0
    else
      var rest := CountIn(xs[1..], ys);
      assert forall x :: x in xs[1..] ==> x in xs;
      assert forall x :: x in xs && x != xs[0] ==> x in xs[1..];
      (if xs[0] in ys then 1 else 0) + rest
  }

  /** The value `isAuthorizedGroup` computes: the number of authorised groups the user is in. */
  function AuthorizedCount(groups: seq<string>): (n: nat)
    ensures n <= 4
    ensures n > 0 <==> "sysop" in groups || "bureaucrat" in groups
                       || "interface-admin" in groups || "userverification-admin" in groups
  {
    var n := CountIn(AuthorizedGroups, groups);
    assert forall x :: x in AuthorizedGroups <==>
      x == "sysop" || x == "bureaucrat" || x == "interface-admin" || x == "userverification-admin";
    n
  }

  /** The cache after a lookup for `user`: an existing entry is kept, a missing one is filled in. */
  function Memo(cache: map<string, nat>, user: User): (r: map<string, nat>)
    ensures user.name in r && r.Keys == cache.Keys + {user.name}
    ensures user.name in cache ==> r == cache
    ensures user.name !in cache ==> r[user.name] == AuthorizedCount(user.groups)
    ensures forall name :: name in cache ==> r[name] == cache[name]
  {
    if user.name in cache then cache else cache[user.name := AuthorizedCount(user.groups)]
  }

  /** A second lookup for the same user leaves the cache as the first one left it. */
  lemma MemoIdempotent(cache: map<string, nat>, user: User)
    ensures Memo(Memo(cache, user), user) == Memo(cache, user)
  {
  }

  /**
   * The upload loop of `setVerificationData`: each entry with an upload ends the request
   * when too large, and is otherwise written sealed to the public key (a name that is not
   * plain names the directory itself or its parent, so the write fails and the loop goes on).
   */
  method WriteUploads(files: map<string, Bytes>, ctx: UploadContext, data: FieldSet)
    returns (written: map<string, Bytes>, exited: bool)
    ensures UploadRun(written, exited) == StoreUploads(files, ctx, data)
  {
    written := files;
    var i := 0;
    while i < |data|
      invariant 0 <= i <= |data|
      invariant StoreUploads(files, ctx, data[..i]) == UploadRun(written, false)
    {
      var f := data[i];
      if HasUpload(ctx, f) {
        if ctx.uploads[f.name].size > ctx.maxSize {
          StoreUploadsStep(files, ctx, data, i, written);
          StoreUploadsExitSticks(files, ctx, data, i + 1);
          return written, true;
        }
        if PlainName(Basename(ctx.uploads[f.name].name)) {
          StoreUploadsStep(files, ctx, data, i, written);
          written := written[UploadTarget(ctx, f) := Seal(ctx.pk, ctx.uploads[f.name].contents)];
        } else {
          StoreUploadsStep(files, ctx, data, i, written);
        }
      } else {
        StoreUploadsStep(files, ctx, data, i, written);
      }
      i := i + 1;
    }
    assert data[..i] == data;
    exited := false;
  }

  // ---------------------------------------------------------------- the state

  /** The database tables, the upload directory, the user-key cookie and the static cache. */
  class Site {
    var records: map<int, Row>
    var keys: seq<KeyRow>
    var files: map<string, Bytes>
    var dirs: set<string>
    var cookie: Option<Bytes>
    var authCache: map<string, nat>

    constructor ()
      ensures records == map[] && keys == [] && files == map[] && dirs == {}
      ensures cookie == None && authCache == map[]
    {
      records, keys, files, dirs := map[], [], map[], {};
      cookie, authCache := None, map[];
    }

    /** What `isAuthorizedGroup` returns for `user` in this state. */
    function AuthorizedValue(user: User): nat
      reads this
    {
      if user.name in authCache then authCache[user.name] else AuthorizedCount(user.groups)
    }

    /** Every cached value is the count for the user of that name. */
    predicate CacheAgrees(users: set<User>)
      reads this
    {
      forall u :: u in users && u.name in authCache ==> authCache[u.name] == AuthorizedCount(u.groups)
    }

    /** `isAuthorizedGroup`: memoised per user name for the rest of the request. */
    method IsAuthorizedGroup(user: User) returns (n: nat)
      modifies this`authCache
      ensures n == old(AuthorizedValue(user))
      ensures authCache == Memo(old(authCache), user)
      ensures AuthorizedValue(user) == n
    {
      if user.name in authCache {
        return authCache[user.name];
      }
      n := AuthorizedCount(user.groups);
      authCache := authCache[user.name := n];
    }

    /**
     * `setUserKey`: unlocks the stored protected key with `password` and puts the ascii-safe
     * user key in the cookie; a wrong password sets the mismatch message and writes nothing.
     */
    method SetUserKey(protectedEncoded: Bytes, password: string) returns (r: Result<bool, Failure>, message: Option<string>)
      modifies this`cookie
      ensures LoadProtectedKey(protectedEncoded).None? ==>
        r == Err(Exception("BadFormatException")) && message == None && cookie == old(cookie)
      ensures LoadProtectedKey(protectedEncoded).Some? && UnlockKey(LoadProtectedKey(protectedEncoded).value, password).None? ==>
        r == Ok(false) && message == Some(PasswordMismatchMessage) && cookie == old(cookie)
      ensures LoadProtectedKey(protectedEncoded).Some? && UnlockKey(LoadProtectedKey(protectedEncoded).value, password).Some? ==>
        r == Ok(true) && message == None
        && cookie == Some(SaveKey(UnlockKey(LoadProtectedKey(protectedEncoded).value, password).value))
    {
      message := None;
      var protected := LoadProtectedKey(protectedEncoded);
      if protected.None? {
        return Err(Exception("BadFormatException")), None;
      }
      var userKey := UnlockKey(protected.value, password);
      if userKey.None? {
        return Ok(false), Some(PasswordMismatchMessage);
      }
      // `setCookie` always answers true, so its failure message is never set
      cookie := Some(SaveKey(userKey.value));
      r := Ok(true);
    }

    /** `deleteCookie`. */
    method DeleteCookie()
      modifies this`cookie
      ensures cookie == None
    {
      cookie := None;
    }

    /**
     * `setManageVerification`: insert or update keyed on the user id. A row for user 0
     * exists yet reads as falsy, so the insert runs again and the unique key rejects it.
     */
    method SetManageVerification(userId: int, row: Row, date: string) returns (r: Result<bool, Failure>)
      requires "user_id" !in row
      modifies this`records
      ensures !ManageRowFound(old(records), userId) && userId in old(records) ==>
        r == Err(Exception("DBQueryError")) && records == old(records)
      ensures ManageRowFound(old(records), userId) || userId !in old(records) ==>
        r == Ok(true) && records == ManageRecords(old(records), userId, row, date)
    {
      if !ManageRowFound(records, userId) && userId in records {
        return Err(Exception("DBQueryError"));
      }
      records := ManageRecords(records, userId, row, date);
      r := Ok(true);
    }

    /**
     * `setVerificationData`: creates the upload directory, requires an enabled key, writes
     * each uploaded file sealed to the public key, then stores the sealed JSON of the
     * field-set as a pending record.
     */
    method SetVerificationData(cfg: Config, user: User, data: FieldSet, uploads: map<string, Upload>, date: string)
      returns (r: Result<bool, Failure>)
      modifies this`records, this`files, this`dirs
      ensures dirs == old(dirs) + {GetUploadDir(cfg, NatToString(user.id))}
      ensures GetKeys(keys).None? ==>
        r == Err(Exception("keys not set")) && files == old(files) && records == old(records)
      ensures GetKeys(keys).Some? ==>
        var ctx := UploadContext(GetUploadDir(cfg, NatToString(user.id)), GetKeys(keys).value.publicKey, cfg.maxUploadSize, uploads);
        var run := StoreUploads(old(files), ctx, data);
        && files == run.files
        && (run.exited ==> r == Err(Exit("file is too large")) && records == old(records))
        && (!run.exited ==> r == Ok(true) && records == SubmitRecords(old(records), user.id, Seal(ctx.pk, JsonEncode(data)), date))
    {
      var uploadDir := GetUploadDir(cfg, NatToString(user.id));
      if uploadDir !in dirs {
        dirs := dirs + {uploadDir};
      }
      var found := GetKeys(keys);
      if found.None? {
        return Err(Exception("keys not set"));
      }
      var ctx := UploadContext(uploadDir, found.value.publicKey, cfg.maxUploadSize, uploads);
      var written, exited := WriteUploads(files, ctx, data);
      files := written;
      if exited {
        return Err(Exit("file is too large"));
      }
      records := SubmitRecords(records, user.id, Seal(ctx.pk, JsonEncode(data)), date);
      r := Ok(true);
    }
  }
}
