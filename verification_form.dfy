/**
 * The page where a user submits their verification data: shown to a logged-in user
 * unless their record is pending review; its form declares each field's type, and the
 * submission stores every field with that type through `setVerificationData`.
 */
module UserVerificationForm {
  import opened Wrappers
  import opened Php
  import opened Primitives
  import opened UserVerification

  /** The form's fields and their types, as the form descriptor declares them. */
  const FormTypes: map<string, string> := map[
    "info" := "info",
    "first_name" := "text",
    "last_name" := "text",
    "sex" := "select",
    "date_of_birth" := "date",
    "place_of_birth" := "text",
    "country_of_birth" := "select",
    "country_of_residence" := "select",
    "address_of_residence" := "text",
    "email" := "email",
    "phone_number" := "text",
    "proof_of_identity" := "file",
    "proof_of_residence" := "file"]

  /** The fields the form marks as required. */
  const RequiredFields: set<string> := {
    "first_name", "last_name", "sex", "date_of_birth", "place_of_birth", "country_of_birth",
    "country_of_residence", "address_of_residence", "email", "proof_of_identity"}

  /** Exactly the two proofs are uploads; every required field is a declared one. */
  lemma FormTypesSpec()
    ensures forall k :: k in FormTypes ==> (FormTypes[k] == "file" <==> k == "proof_of_identity" || k == "proof_of_residence")
    ensures RequiredFields <= FormTypes.Keys
    ensures "proof_of_identity" in RequiredFields && "proof_of_residence" !in RequiredFields
    ensures "phone_number" !in RequiredFields
  {
  }

  /** The page object's state: the descriptor `userVerificationForm` stores for `onSubmit`. */
  class FormPage {
    var formDescriptor: map<string, string>

    constructor ()
      ensures formDescriptor == map[]
    {
      formDescriptor := map[];
    }
  }

  /**
   * The type `onSubmit` records for a submitted key. An undeclared key reads as null, which
   * the model writes as "" and `json_encode` would write as `null`; only the test against
   * `file` ever reads this type, and both fail it.
   */
  function KindOf(descriptor: map<string, string>, key: string): string {
    if key in descriptor then descriptor[key] else ""
  }

  /** The form is offered unless the user's record is pending (a NULL status is not pending). */
  predicate ShowsForm(records: map<int, Row>, userId: int) {
    GetStatus(records, userId) != Some(Pending)
  }

  /**
   * The `$data` the form is filled from: `[]` without a record, otherwise `json_decode` of
   * the stored `data` column (None stands for null, which is what a sealed box decodes to).
   */
  function FormData(records: map<int, Row>, userId: int): Option<FieldSet> {
    if userId !in records then Some([])
    else if "data" !in records[userId] then None
    else JsonDecode(records[userId]["data"])
  }

  /** `$data[name] ?? null`: the value of the first entry with that name, if any. */
  function Default(data: Option<FieldSet>, name: string): (r: Option<string>)
    ensures r.Some? ==> data.Some? && exists i :: (0 <= i < |data.value| && data.value[i].name == name && data.value[i].value == r.value &&
                                                   forall j :: 0 <= j < i ==> data.value[j].name != name)
    ensures data.Some? && (exists i :: 0 <= i < |data.value| && data.value[i].name == name) ==> r.Some?
    ensures data.None? ==> r.None?
    decreases if data.Some? then |data.value| else 0
  {
    if data.None? || data.value == [] then None
    else if data.value[0].name == name then Some(data.value[0].value)
    else
      var rest := data.value[1..];
      var r := Default(Some(rest), name);
      assert r.Some? ==> exists i :: (0 <= i < |rest| && rest[i].name == name && rest[i].value == r.value &&
                                      (forall j :: 0 <= j < i + 1 ==> data.value[j].name != name) &&
                                      data.value[i + 1] == rest[i]);
      assert (exists i :: 0 <= i < |data.value| && data.value[i].name == name) ==>
        exists i :: 0 <= i < |rest| && rest[i].name == name by {
        if exists i :: 0 <= i < |data.value| && data.value[i].name == name {
          var i :| 0 <= i < |data.value| && data.value[i].name == name;
          assert rest[i - 1] == data.value[i];
        }
      }
      r
  }

  /** What `execute` shows. */
  datatype Shown = LoginRequired | Form(data: Option<FieldSet>) | PendingNotice

  /**
   * `execute`: logged-in users only; the form (filled from the stored data) unless the
   * record is pending, then the pending notice. Building the form stores its descriptor.
   */
  method Execute(site: Site, page: FormPage, loggedIn: bool, user: User) returns (shown: Shown)
    modifies page`formDescriptor
    ensures !loggedIn ==> shown == LoginRequired && page.formDescriptor == old(page.formDescriptor)
    ensures loggedIn && ShowsForm(site.records, user.id) ==>
      shown == Form(FormData(site.records, user.id)) && page.formDescriptor == FormTypes
    ensures loggedIn && !ShowsForm(site.records, user.id) ==>
      shown == PendingNotice && page.formDescriptor == old(page.formDescriptor)
  {
    if !loggedIn {
      return LoginRequired;
    }
    var data := FormData(site.records, user.id);
    if GetStatus(site.records, user.id) != Some(Pending) {
      page.formDescriptor := FormTypes;
      return Form(data);
    }
    shown := PendingNotice;
  }

  /** The field-set `onSubmit` builds: each submitted value under its key, with the key's declared type. */
  method BuildFieldSet(descriptor: map<string, string>, submitted: seq<(string, string)>) returns (ret: FieldSet)
    ensures |ret| == |submitted|
    ensures forall i :: 0 <= i < |submitted| ==>
      ret[i] == Field(submitted[i].0, KindOf(descriptor, submitted[i].0), submitted[i].1)
  {
    ret := [];
    var i := 0;
    while i < |submitted|
      invariant 0 <= i <= |submitted|
      invariant |ret| == i
      invariant forall j :: 0 <= j < i ==> ret[j] == Field(submitted[j].0, KindOf(descriptor, submitted[j].0), submitted[j].1)
    {
      var (key, value) := submitted[i];
      ret := ret + [Field(key, KindOf(descriptor, key), value)];
      i := i + 1;
    }
  }

  /**
   * `onSubmit`: stores the typed field-set for the current user and answers true; what
   * `setVerificationData` throws (or its `exit`) ends the request instead.
   */
  method OnSubmit(site: Site, page: FormPage, cfg: Config, user: User, submitted: seq<(string, string)>,
                  uploads: map<string, Upload>, date: string)
    returns (r: Result<bool, Failure>, fields: FieldSet)
    modifies site`records, site`files, site`dirs
    ensures |fields| == |submitted|
    ensures forall i :: 0 <= i < |submitted| ==>
      fields[i] == Field(submitted[i].0, KindOf(page.formDescriptor, submitted[i].0), submitted[i].1)
    ensures site.dirs == old(site.dirs) + {GetUploadDir(cfg, NatToString(user.id))}
    ensures GetKeys(site.keys).None? ==>
      r == Err(Exception("keys not set")) && site.files == old(site.files) && site.records == old(site.records)
    ensures GetKeys(site.keys).Some? ==>
      var ctx := UploadContext(GetUploadDir(cfg, NatToString(user.id)), GetKeys(site.keys).value.publicKey, cfg.maxUploadSize, uploads);
      var run := StoreUploads(old(site.files), ctx, fields);
      && site.files == run.files
      && (run.exited ==> r == Err(Exit("file is too large")) && site.records == old(site.records))
      && (!run.exited ==> r == Ok(true) && site.records == SubmitRecords(old(site.records), user.id, Seal(ctx.pk, JsonEncode(fields)), date))
  {
    fields := BuildFieldSet(page.formDescriptor, submitted);
    r := site.SetVerificationData(cfg, user, fields, uploads, date);
    if r.Err? {
      return;
    }
    // the redirect back to the page is not modelled
    r := Ok(true);
  }

  /** After a submission the record is pending, so the form is not offered again until it is reviewed. */
  lemma SubmissionHidesForm(records: map<int, Row>, userId: int, blob: Bytes, date: string)
    ensures !ShowsForm(SubmitRecords(records, userId, blob, date), userId)
  {
  }

  /** Once an administrator stores any other status, the form is offered again. */
  lemma ReviewReopensForm(records: map<int, Row>, userId: int, row: Row, date: string)
    requires ManageRowFound(records, userId) || userId !in records
    requires "status" in row && row["status"] != Pending
    ensures ShowsForm(ManageRecords(records, userId, row, date), userId)
  {
  }

  /**
   * The stored data is a sealed box, which does not decode as JSON: after a submission the
   * form's defaults are all null.
   */
  lemma SubmissionNeverPrefills(records: map<int, Row>, userId: int, pk: PublicKey, fs: FieldSet, date: string, name: string)
    ensures FormData(SubmitRecords(records, userId, Seal(pk, JsonEncode(fs)), date), userId).None?
    ensures Default(FormData(SubmitRecords(records, userId, Seal(pk, JsonEncode(fs)), date), userId), name).None?
  {
  }

  /** With the descriptor the form stores, the two proofs are typed as files and nothing else is. */
  lemma SubmittedProofsAreFiles(submitted: seq<(string, string)>, i: int)
    requires 0 <= i < |submitted|
    ensures KindOf(FormTypes, submitted[i].0) == "file" <==>
      submitted[i].0 == "proof_of_identity" || submitted[i].0 == "proof_of_residence"
  {
    FormTypesSpec();
  }
}
