/**
 * The `deleteUsers` maintenance script: the users to delete come from the `--users` list
 * or from a query for users that never edited, the list is always printed, and the
 * deletion runs only with `--delete`.
 */
module DeleteUsers {
  import opened Wrappers
  import opened Php

  // ---------------------------------------------------------------- --users

  /**
   * `is_numeric`: optional whitespace around an optionally signed decimal number with digits
   * before or after an optional point. Exponent notation is not part of this model.
   */
  predicate IsNumeric(s: string) {
    NumericBody(Unsigned(TrimRight(TrimLeft(s, IsRegexSpace), IsRegexSpace)))
  }

  /** The token without its sign, if it has one. */
  function Unsigned(t: string): string {
    if t != [] && (t[0] == '-' || t[0] == '+') then t[1..] else t
  }

  /** Digits with an optional point and more digits, with at least one digit in all. */
  predicate NumericBody(body: string) {
    var a := DigitPrefix(body);
    var rest := body[|a|..];
    if rest == [] then a != []
    else rest[0] == '.' && AllDigits(rest[1..]) && (a != [] || |rest| > 1)
  }

  /** The filter callback: a numeric token whose `(int)` value is not 0. */
  predicate KeepUser(token: string) {
    IsNumeric(token) && IntVal(token) != 0
  }

  /** `parseUsers`: the `--users` option split at commas, keeping the tokens `KeepUser` accepts. */
  function ParseUsers(option: Option<string>): (r: seq<string>)
    ensures forall i :: 0 <= i < |r| ==> r[i] != "" && ',' !in r[i] && KeepUser(r[i])
  {
    var users := option.GetOr("");
    if EmptyString(users) then [] else Filter(SplitCommaList(users), KeepUser)
  }

  /** No option, an empty one and "0" all give no users. */
  lemma ParseUsersEmpty()
    ensures ParseUsers(None) == [] && ParseUsers(Some("")) == [] && ParseUsers(Some("0")) == []
  {
  }

  /** A token is listed exactly when it is one of the option's pieces and the filter keeps it. */
  lemma ParseUsersMembers(s: string, x: string)
    ensures x in ParseUsers(Some(s)) <==> !EmptyString(s) && x in SplitCommaList(s) && KeepUser(x)
  {
    if !EmptyString(s) {
      FilterMembers(SplitCommaList(s), KeepUser, x);
    }
  }

  /** The digit prefix of a run of digits is all of it. */
  lemma {:induction false} DigitPrefixAll(d: string)
    requires AllDigits(d)
    ensures DigitPrefix(d) == d
    decreases |d|
  {
    if d != [] {
      DigitPrefixAll(d[1..]);
    }
  }

  /** The digit prefix of digits followed by something that is not a digit is those digits. */
  lemma {:induction false} DigitPrefixOf(d: string, rest: string)
    requires AllDigits(d) && rest != [] && !IsDigit(rest[0])
    ensures DigitPrefix(d + rest) == d
    decreases |d|
  {
    if d == [] {
      assert d + rest == rest;
    } else {
      assert (d + rest)[1..] == d[1..] + rest;
      DigitPrefixOf(d[1..], rest);
    }
  }

  /** A token that neither starts nor ends with whitespace is read as it is. */
  lemma Untrimmed(s: string)
    requires s != [] && !IsRegexSpace(s[0]) && !IsRegexSpace(s[|s| - 1])
    ensures IsNumeric(s) == NumericBody(Unsigned(s))
    ensures IntVal(s) == Saturate(SignedPrefixValue(s))
  {
    assert TrimLeft(s, IsRegexSpace) == s;
    assert TrimRight(s, IsRegexSpace) == s;
  }

  /** A run of digits is kept exactly when its value is not 0. */
  lemma KeptDigits(d: string)
    requires d != [] && AllDigits(d)
    ensures KeepUser(d) <==> DigitsValue(d) != 0
  {
    assert IsDigit(d[0]) && IsDigit(d[|d| - 1]);
    Untrimmed(d);
    DigitPrefixAll(d);
    assert d[|d|..] == [];
  }

  /** A negated run of digits is kept exactly when its value is not 0. */
  lemma KeptNegated(d: string)
    requires d != [] && AllDigits(d)
    ensures KeepUser("-" + d) <==> DigitsValue(d) != 0
  {
    var s := "-" + d;
    assert s[0] == '-' && s[|s| - 1] == d[|d| - 1] && s[1..] == d;
    Untrimmed(s);
    DigitPrefixAll(d);
    assert d[|d|..] == [];
  }

  /** Digits, a point and digits are kept exactly when the digits before the point are not 0. */
  lemma KeptDecimal(d: string, f: string)
    requires d != [] && AllDigits(d) && f != [] && AllDigits(f)
    ensures KeepUser(d + "." + f) <==> DigitsValue(d) != 0
  {
    var rest := "." + f;
    assert d + "." + f == d + rest;
    DigitPrefixOf(d, rest);
    DecimalRead(d, rest, d + rest);
  }

  lemma DecimalRead(d: string, rest: string, s: string)
    requires d != [] && AllDigits(d) && |rest| > 1 && rest[0] == '.' && AllDigits(rest[1..])
    requires s == d + rest && DigitPrefix(s) == d
    ensures IsNumeric(s) && IntVal(s) == Saturate(DigitsValue(d))
  {
    assert s[0] == d[0] && s[|s| - 1] == rest[|rest| - 1];
    Untrimmed(s);
    assert s[|d|..] == rest;
  }

  /** Digits followed by a character that cannot continue a number are dropped. */
  lemma DroppedTail(d: string, rest: string)
    requires AllDigits(d) && rest != [] && !IsDigit(rest[0]) && rest[0] != '.'
    requires d == [] ==> !IsRegexSpace(rest[0]) && rest[0] != '-' && rest[0] != '+'
    requires !IsRegexSpace(rest[|rest| - 1])
    ensures !KeepUser(d + rest)
  {
    DigitPrefixOf(d, rest);
    TailRead(d, rest, d + rest);
  }

  lemma TailRead(d: string, rest: string, s: string)
    requires AllDigits(d) && rest != [] && !IsDigit(rest[0]) && rest[0] != '.'
    requires d == [] ==> !IsRegexSpace(rest[0]) && rest[0] != '-' && rest[0] != '+'
    requires !IsRegexSpace(rest[|rest| - 1])
    requires s == d + rest && DigitPrefix(s) == d
    ensures !IsNumeric(s)
  {
    assert s[0] == if d == [] then rest[0] else d[0];
    assert s[|s| - 1] == rest[|rest| - 1];
    Untrimmed(s);
    assert s[|d|..] == rest;
  }

  /** Only zeros stand for 0. */
  lemma {:induction false} ZerosValue(d: string)
    requires AllDigits(d) && forall i :: 0 <= i < |d| ==> d[i] == '0'
    ensures DigitsValue(d) == 0
    decreases |d|
  {
    if d != [] {
      ZerosValue(d[..|d| - 1]);
    }
  }

  /** Tokens such as `0`, `00`, `-0` and `0.5` are dropped: numeric, but their value is 0. */
  lemma ZeroTokensDropped(z: string, f: string)
    requires z != [] && forall i :: 0 <= i < |z| ==> z[i] == '0'
    requires f != [] && AllDigits(f)
    ensures !KeepUser(z) && !KeepUser("-" + z) && !KeepUser(z + "." + f)
  {
    assert AllDigits(z);
    ZerosValue(z);
    KeptDigits(z);
    KeptNegated(z);
    KeptDecimal(z, f);
  }

  // ---------------------------------------------------------------- the user query

  /** A row of the `user` table, with `user_registration` as its 14-digit timestamp. */
  datatype DbUser = DbUser(id: nat, editCount: int, password: string, registration: nat)

  /** A query condition `getUsersDB` can build. */
  datatype Cond = EditCount(n: int) | PasswordSet | RegisteredBefore(ts: nat)

  predicate Holds(u: DbUser, c: Cond) {
    match c
    case EditCount(n) => u.editCount == n
    case PasswordSet => u.password != ""
    case RegisteredBefore(ts) => u.registration < ts
  }

  predicate Selected(u: DbUser, conds: seq<Cond>) {
    forall i :: 0 <= i < |conds| ==> Holds(u, conds[i])
  }

  /** The rows a `select` with these conditions returns, in table order. */
  function Select(table: seq<DbUser>, conds: seq<Cond>): seq<DbUser> {
    Filter(table, (u: DbUser) => Selected(u, conds))
  }

  /** The conditions `getUsersDB` always sets: no edits and a password (a regular user). */
  const BaseConds: seq<Cond> := [EditCount(0), PasswordSet]

  /**
   * The conditions as written: the registration clause reads `$registrationBefore`, which is
   * not in the method's scope and so is always empty; the clause is never added.
   */
  function UsersCondsAsWritten(): seq<Cond> {
    BaseConds
  }

  /** A row is selected exactly when it is in the table and meets every condition. */
  lemma SelectMembers(table: seq<DbUser>, conds: seq<Cond>, u: DbUser)
    ensures u in Select(table, conds) <==> u in table && Selected(u, conds)
  {
    FilterMembers(table, (v: DbUser) => Selected(v, conds), u);
  }

  /** As written, the query ignores registration dates entirely. */
  lemma AsWrittenIgnoresRegistration(table: seq<DbUser>, u: DbUser)
    ensures u in Select(table, UsersCondsAsWritten()) <==> u in table && u.editCount == 0 && u.password != ""
  {
    SelectMembers(table, BaseConds, u);
    assert BaseConds[0] == EditCount(0) && BaseConds[1] == PasswordSet;
  }

  /** A user registered today is selected even when only users registered before `cutoff` were asked for. */
  lemma AsWrittenSelectsRecentUser(cutoff: nat)
    ensures var recent := DbUser(1, 0, "hash", cutoff + 1);
            Select([recent], UsersCondsAsWritten()) == [recent]
  {
    var recent := DbUser(1, 0, "hash", cutoff + 1);
    assert Selected(recent, BaseConds);
  }

  /**
   * The conditions as intended: with a non-zero `registered-before` the users must also
   * have registered before `cutoff`, the timestamp that many days back.
   */
  function UsersConds(registeredBefore: int, cutoff: nat): (r: seq<Cond>)
    ensures |r| >= 2 && r[..2] == BaseConds
    ensures RegisteredBefore(cutoff) in r <==> registeredBefore != 0
  {
    BaseConds + (if registeredBefore != 0 then [RegisteredBefore(cutoff)] else [])
  }

  /** As intended, the query keeps exactly the edit-less regular users registered before the cutoff. */
  lemma CorrectedHonoursRegistration(table: seq<DbUser>, registeredBefore: int, cutoff: nat, u: DbUser)
    ensures u in Select(table, UsersConds(registeredBefore, cutoff)) <==>
      u in table && u.editCount == 0 && u.password != "" && (registeredBefore != 0 ==> u.registration < cutoff)
  {
    var conds := UsersConds(registeredBefore, cutoff);
    SelectMembers(table, conds, u);
    assert conds[0] == EditCount(0) && conds[1] == PasswordSet;
    if registeredBefore != 0 {
      assert conds[2] == RegisteredBefore(cutoff);
    }
  }

  /** Without the option the intended query is the one written. */
  lemma CorrectedAgreesWithoutOption(cutoff: nat)
    ensures UsersConds(0, cutoff) == UsersCondsAsWritten()
  {
  }

  /** The ids of `rows` as the strings `getUsersDB` collects. */
  function Ids(rows: seq<DbUser>): seq<string> {
    seq(|rows|, i requires 0 <= i < |rows| => NatToString(rows[i].id))
  }

  /** `getUsersDB`: the ids of the selected rows, in order. */
  method GetUsersDB(table: seq<DbUser>, conds: seq<Cond>) returns (ret: seq<string>)
    ensures ret == Ids(Select(table, conds))
  {
    var res := Select(table, conds);
    ret := [];
    var i := 0;
    while i < |res|
      invariant 0 <= i <= |res|
      invariant ret == Ids(res[..i])
    {
      IdsSnoc(res, i);
      ret := ret + [NatToString(res[i].id)];
      i := i + 1;
    }
    assert res[..i] == res;
  }

  /** One more row adds its id at the end. */
  lemma IdsSnoc(rows: seq<DbUser>, i: nat)
    requires i < |rows|
    ensures Ids(rows[..i + 1]) == Ids(rows[..i]) + [NatToString(rows[i].id)]
  {
    var a, b := Ids(rows[..i + 1]), Ids(rows[..i]) + [NatToString(rows[i].id)];
    assert |a| == |b|;
    forall k | 0 <= k < |a|
      ensures a[k] == b[k]
    {
      assert rows[..i + 1][k] == rows[k];
    }
  }

  // ---------------------------------------------------------------- execute

  const ListPrefix := "The following users will be deleted: "
  const DryRunNotice := "use the --delete option to actually perform the deletion"

  /**
   * The users `execute` acts on as written: the `--users` list when given, otherwise the
   * query's, which has no registration clause whatever `--registered-before` says.
   */
  function UsersToDelete(usersOption: Option<string>, table: seq<DbUser>): seq<string> {
    if usersOption.Some? then ParseUsers(usersOption)
    else Ids(Select(table, UsersCondsAsWritten()))
  }

  /**
   * The users as intended: the query honours `registeredBefore`, the `registered-before`
   * option, with `cutoff` the timestamp that many days before now.
   */
  function UsersToDeleteIntended(usersOption: Option<string>, registeredBefore: Option<string>,
                                 table: seq<DbUser>, cutoff: nat): seq<string> {
    if usersOption.Some? then ParseUsers(usersOption)
    else Ids(Select(table, UsersConds(IntOf(registeredBefore), cutoff)))
  }

  /** The last part of `execute`: the list line, then the deletion or the dry-run notice. */
  method Report(users: seq<string>, deleteFlag: bool, deleteResult: bool)
    returns (output: seq<string>, deleted: Option<seq<string>>)
    ensures output == [ListPrefix + Join(", ", users),
                       if !deleteFlag then DryRunNotice else if deleteResult then "done" else "no changes"]
    ensures deleted == (if deleteFlag then Some(users) else None)
  {
    var listed := ListPrefix + Join(", ", users);
    if deleteFlag {
      deleted := Some(users);
      output := [listed, if deleteResult then "done" else "no changes"];
    } else {
      deleted := None;
      output := [listed, DryRunNotice];
    }
  }

  /**
   * `execute` as written: the users come from `--users` when given, otherwise from the
   * query; the list is printed; `deleteUsers` (whose answer is `deleteResult`) runs only
   * with `--delete`. The option `execute` reads, `registeredBefore`, is never declared and
   * `getUsersDB` does not see its value, so no registration date enters.
   */
  method Execute(usersOption: Option<string>, table: seq<DbUser>, deleteFlag: bool, deleteResult: bool)
    returns (output: seq<string>, deleted: Option<seq<string>>)
    ensures var users := UsersToDelete(usersOption, table);
      && output == [ListPrefix + Join(", ", users),
                    if !deleteFlag then DryRunNotice else if deleteResult then "done" else "no changes"]
      && deleted == (if deleteFlag then Some(users) else None)
  {
    var users: seq<string>;
    if usersOption.Some? {
      users := ParseUsers(usersOption);
    } else {
      users := GetUsersDB(table, UsersCondsAsWritten());
    }
    output, deleted := Report(users, deleteFlag, deleteResult);
  }

  /** `execute` as intended: `registeredBefore` is the `registered-before` option and reaches the query. */
  method ExecuteIntended(usersOption: Option<string>, registeredBefore: Option<string>, table: seq<DbUser>,
                         cutoff: nat, deleteFlag: bool, deleteResult: bool)
    returns (output: seq<string>, deleted: Option<seq<string>>)
    ensures var users := UsersToDeleteIntended(usersOption, registeredBefore, table, cutoff);
      && output == [ListPrefix + Join(", ", users),
                    if !deleteFlag then DryRunNotice else if deleteResult then "done" else "no changes"]
      && deleted == (if deleteFlag then Some(users) else None)
  {
    var registrationBefore := IntOf(registeredBefore);
    var users: seq<string>;
    if usersOption.Some? {
      users := ParseUsers(usersOption);
    } else {
      users := GetUsersDB(table, UsersConds(registrationBefore, cutoff));
    }
    output, deleted := Report(users, deleteFlag, deleteResult);
  }

  /**
   * As written, without `--users`, a user registered after the cutoff is still listed and
   * deleted, where the intended script with a non-zero `registered-before` leaves them out.
   */
  lemma AsWrittenDeletesRecentUser(registeredBefore: Option<string>, cutoff: nat)
    requires IntOf(registeredBefore) != 0
    ensures var recent := DbUser(1, 0, "hash", cutoff + 1);
      UsersToDelete(None, [recent]) == [NatToString(1)]
      && UsersToDeleteIntended(None, registeredBefore, [recent], cutoff) == []
  {
    var recent := DbUser(1, 0, "hash", cutoff + 1);
    AsWrittenSelectsRecentUser(cutoff);
    assert Ids([recent]) == [NatToString(1)];
    IntendedOmitsRecentUser(IntOf(registeredBefore), cutoff);
  }

  /** With a non-zero option the intended query leaves out a user registered after the cutoff. */
  lemma IntendedOmitsRecentUser(registeredBefore: int, cutoff: nat)
    requires registeredBefore != 0
    ensures Select([DbUser(1, 0, "hash", cutoff + 1)], UsersConds(registeredBefore, cutoff)) == []
  {
    var recent := DbUser(1, 0, "hash", cutoff + 1);
    var sel := Select([recent], UsersConds(registeredBefore, cutoff));
    if sel != [] {
      SelectMembers([recent], UsersConds(registeredBefore, cutoff), sel[0]);
      CorrectedHonoursRegistration([recent], registeredBefore, cutoff, sel[0]);
      assert false;
    }
  }

  /** The intended and the written script agree whenever `--users` is given or `registered-before` is 0. */
  lemma IntendedAgrees(usersOption: Option<string>, registeredBefore: Option<string>, table: seq<DbUser>, cutoff: nat)
    requires usersOption.Some? || IntOf(registeredBefore) == 0
    ensures UsersToDeleteIntended(usersOption, registeredBefore, table, cutoff) == UsersToDelete(usersOption, table)
  {
    if usersOption.None? {
      CorrectedAgreesWithoutOption(cutoff);
    }
  }
}
