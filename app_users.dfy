/**
 * The account store of the combined web app (app.py): users.json holds one
 * bucket per role, each mapping a username to its account record. Two
 * operations read the whole store: `migrate_users_file`, which gives every
 * old account without an "id" a fresh numeric id, a "U-%03d" uid and the
 * default profile fields, and `_flatten`, which turns the buckets into the
 * admin dashboard's rows, sorted by numeric id.
 *
 * The buckets and the accounts in them are kept in file order, since the
 * order decides which old account gets which new id.
 */
module AppUsers {
  import opened PyValue
  import opened Seqs
  import AppIds

  /** The accounts of one bucket: username and record, in file order. */
  type Accounts = seq<(string, Record)>

  /** users.json: each role's bucket, in file order. */
  type UserFile = seq<(string, Accounts)>

  // ------------------------------------------------------------- first pass

  /** `int(rec.get("id", 0))`; None where `int` raises, which the scan skips. */
  function IdNum(rec: Record): Option<int> {
    PyInt(GetOr(rec, "id", VInt(0)))
  }

  function RecOf(account: (string, Record)): Record {
    account.1
  }

  /** Every record of the store, bucket after bucket. */
  function AllRecs(d: UserFile): seq<Record>
    decreases |d|
  {
    if d == [] then [] else AllRecs(d[..|d| - 1]) + MapSeq(d[|d| - 1].1, RecOf)
  }

  /** The largest id the first pass reads, starting from 0. */
  function MaxId(d: UserFile): nat {
    AppIds.MaxRead(AllRecs(d), IdNum)
  }

  /** The first pass of `migrate_users_file`: the largest id in the store. */
  method ScanMaxId(d: UserFile) returns (maxId: nat)
    ensures maxId == MaxId(d)
  {
    maxId := 0;
    var i := 0;
    while i < |d|
      invariant 0 <= i <= |d|
      invariant maxId == AppIds.MaxRead(AllRecs(d[..i]), IdNum)
    {
      var accounts := d[i].1;
      var j := 0;
      assert accounts[..0] == [];
      assert AllRecs(d[..i]) + MapSeq(accounts[..0], RecOf) == AllRecs(d[..i]);
      while j < |accounts|
        invariant 0 <= j <= |accounts|
        invariant maxId == AppIds.MaxRead(AllRecs(d[..i]) + MapSeq(accounts[..j], RecOf), IdNum)
      {
        var before := AllRecs(d[..i]) + MapSeq(accounts[..j], RecOf);
        assert accounts[..j + 1] == accounts[..j] + [accounts[j]];
        MapSnoc(accounts[..j], accounts[j], RecOf);
        assert AllRecs(d[..i]) + MapSeq(accounts[..j + 1], RecOf) == before + [accounts[j].1];
        AppIds.MaxReadSnoc(before, accounts[j].1, IdNum);
        var n := IdNum(accounts[j].1);
        if n.Some? && n.value > maxId {
          maxId := n.value;
        }
        j := j + 1;
      }
      assert accounts[..j] == accounts;
      assert d[..i + 1][..i] == d[..i];
      i := i + 1;
    }
    assert d[..i] == d;
  }

  /** Every record of the store is among the records the first pass reads. */
  lemma {:induction false} AllRecsHas(d: UserFile, i: nat, j: nat)
    requires i < |d| && j < |d[i].1|
    ensures d[i].1[j].1 in AllRecs(d)
    decreases |d|
  {
    MapIndex(d[|d| - 1].1, RecOf);
    if i < |d| - 1 {
      AllRecsHas(d[..|d| - 1], i, j);
    } else {
      assert MapSeq(d[i].1, RecOf)[j] == d[i].1[j].1;
    }
  }

  /** Every id the first pass can read is at most MaxId, and MaxId is 0 or one of them. */
  lemma MaxIdExact(d: UserFile)
    ensures forall i, j :: 0 <= i < |d| && 0 <= j < |d[i].1| && IdNum(d[i].1[j].1).Some? ==>
      IdNum(d[i].1[j].1).value <= MaxId(d)
    ensures MaxId(d) == 0 || exists r :: r in AllRecs(d) && IdNum(r) == Some(MaxId(d) as int)
  {
    var all := AllRecs(d);
    AppIds.MaxReadBound(all, IdNum);
    AppIds.MaxReadAttained(all, IdNum);
    forall i, j | 0 <= i < |d| && 0 <= j < |d[i].1| && IdNum(d[i].1[j].1).Some?
      ensures IdNum(d[i].1[j].1).value <= MaxId(d)
    {
      AllRecsHas(d, i, j);
      var k :| 0 <= k < |all| && all[k] == d[i].1[j].1;
    }
    if MaxId(d) != 0 {
      var k :| 0 <= k < |all| && IdNum(all[k]) == Some(MaxId(d) as int);
      assert all[k] in all;
    }
  }

  // ------------------------------------------------------------ second pass

  /** `rec.setdefault(k, v)` */
  function SetDefault(r: Record, k: string, v: Value): Record {
    r[k := GetOr(r, k, v)]
  }

  /** `setdefault` for each (key, default) pair in turn. */
  function SetDefaults(r: Record, fields: seq<(string, Value)>): Record
    decreases |fields|
  {
    if fields == [] then r else SetDefaults(SetDefault(r, fields[0].0, fields[0].1), fields[1..])
  }

  /** The keys a list of (key, default) pairs names. */
  function FieldKeys(fields: seq<(string, Value)>): set<string> {
    set i | 0 <= i < |fields| :: fields[i].0
  }

  lemma FieldKeysCons(fields: seq<(string, Value)>)
    requires fields != []
    ensures FieldKeys(fields) == {fields[0].0} + FieldKeys(fields[1..])
  {
    forall x | x in FieldKeys(fields) ensures x in {fields[0].0} + FieldKeys(fields[1..]) {
      var i :| 0 <= i < |fields| && fields[i].0 == x;
      if i > 0 {
        assert fields[1..][i - 1].0 == x;
      }
    }
    forall x | x in FieldKeys(fields[1..]) ensures x in FieldKeys(fields) {
      var i :| 0 <= i < |fields[1..]| && fields[1..][i].0 == x;
      assert fields[i + 1].0 == x;
    }
  }

  /**
   * `setdefault` in turn: the keys of `r` and the fields, the old values
   * kept, and a new key given the first default listed for it.
   */
  lemma {:induction false} SetDefaultsExact(r: Record, fields: seq<(string, Value)>)
    ensures SetDefaults(r, fields).Keys == r.Keys + FieldKeys(fields)
    ensures forall k :: k in r ==> k in SetDefaults(r, fields) && SetDefaults(r, fields)[k] == r[k]
    ensures forall i :: 0 <= i < |fields| && fields[i].0 !in r && (forall j :: 0 <= j < i ==> fields[j].0 != fields[i].0) ==>
      fields[i].0 in SetDefaults(r, fields) && SetDefaults(r, fields)[fields[i].0] == fields[i].1
    decreases |fields|
  {
    if fields != [] {
      var r1 := SetDefault(r, fields[0].0, fields[0].1);
      var rest := fields[1..];
      SetDefaultsExact(r1, rest);
      FieldKeysCons(fields);
      forall i | 0 <= i < |fields| && fields[i].0 !in r && (forall j :: 0 <= j < i ==> fields[j].0 != fields[i].0)
        ensures SetDefaults(r, fields)[fields[i].0] == fields[i].1
      {
        if i > 0 {
          assert rest[i - 1] == fields[i];
          assert forall j :: 0 <= j < i - 1 ==> rest[j].0 != rest[i - 1].0 by {
            forall j | 0 <= j < i - 1 ensures rest[j].0 != rest[i - 1].0 {
              assert rest[j] == fields[j + 1];
            }
          }
          assert fields[i].0 != fields[0].0;
        }
      }
    }
  }

  /** The profile fields the backfill gives an old account that lacks them. */
  function Defaults(role: string, uname: string, stamp: Value): seq<(string, Value)> {
    [("fullName", VStr(uname)), ("email", VStr("")), ("username", VStr(uname)),
     ("role", VStr(role)), ("status", VStr("Active")), ("createdAt", stamp)]
  }

  /** The record of account `uname` in bucket `role` after the backfill gives it id `n`. */
  function Backfilled(rec: Record, role: string, uname: string, n: nat, stamp: Value): Record {
    SetDefaults(rec["id" := VInt(n)]["uid" := VStr("U-" + Pad3(n))], Defaults(role, uname, stamp))["updatedAt" := stamp]
  }

  /** The inner loop of the second pass over one bucket, from counter `next`: the new accounts and counter. */
  function FillAccounts(role: string, a: Accounts, next: nat, stamp: Value): (r: (Accounts, nat))
    ensures |r.0| == |a| && r.1 >= next
    ensures forall j :: 0 <= j < |a| ==> r.0[j].0 == a[j].0
    decreases |a|
  {
    if a == [] then ([], next)
    else
      var prev := FillAccounts(role, a[..|a| - 1], next, stamp);
      var last := a[|a| - 1];
      if "id" in last.1 then (prev.0 + [last], prev.1)
      else (prev.0 + [(last.0, Backfilled(last.1, role, last.0, prev.1, stamp))], prev.1 + 1)
  }

  /** The second pass over the whole store, from counter `next`: the new store and counter. */
  function FillFile(d: UserFile, next: nat, stamp: Value): (r: (UserFile, nat))
    ensures |r.0| == |d| && r.1 >= next
    ensures forall i :: 0 <= i < |d| ==> r.0[i].0 == d[i].0 && |r.0[i].1| == |d[i].1|
    decreases |d|
  {
    if d == [] then ([], next)
    else
      var prev := FillFile(d[..|d| - 1], next, stamp);
      var last := d[|d| - 1];
      var filled := FillAccounts(last.0, last.1, prev.1, stamp);
      (prev.0 + [(last.0, filled.0)], filled.1)
  }

  /**
   * `migrate_users_file`: the store to save, or None when no account lacked
   * an id and nothing is written. One `stamp` stands for every `now_iso()`.
   */
  function Migrate(d: UserFile, stamp: Value): Option<UserFile> {
    var start := MaxId(d) + 1;
    var filled := FillFile(d, start, stamp);
    if filled.1 != start then Some(filled.0) else None
  }

  /** `migrate_users_file`: the first pass, the second pass, and the save when `changed`. */
  method MigrateUsersFile(d: UserFile, stamp: Value) returns (saved: Option<UserFile>)
    ensures saved == Migrate(d, stamp)
  {
    var maxId := ScanMaxId(d);
    var out, nextId, changed := BackfillStore(d, maxId, stamp);
    if changed {
      saved := Some(out);
    } else {
      saved := None;
    }
  }

  /** The outer loop of the second pass, numbering from `maxId + 1`; `changed` is the counter having moved. */
  method BackfillStore(d: UserFile, maxId: nat, stamp: Value) returns (out: UserFile, nextId: nat, changed: bool)
    ensures FillFile(d, maxId + 1, stamp) == (out, nextId)
    ensures changed <==> nextId != maxId + 1
  {
    changed := false;
    nextId := maxId + 1;
    out := [];
    var i := 0;
    while i < |d|
      invariant 0 <= i <= |d|
      invariant FillFile(d[..i], maxId + 1, stamp) == (out, nextId)
      invariant nextId >= maxId + 1
      invariant changed <==> nextId != maxId + 1
    {
      var filled, after := BackfillBucket(d[i].0, d[i].1, nextId, stamp);
      FillFileAt(d, i, maxId + 1, stamp);
      assert after >= nextId by {
        assert after == FillAccounts(d[i].0, d[i].1, nextId, stamp).1;
      }
      out := out + [(d[i].0, filled)];
      changed := changed || after != nextId;
      nextId := after;
      i := i + 1;
    }
    assert d[..i] == d;
  }

  /** The inner loop of the second pass: one bucket's accounts, numbered from `next`. */
  method BackfillBucket(role: string, a: Accounts, next: nat, stamp: Value) returns (filled: Accounts, after: nat)
    ensures (filled, after) == FillAccounts(role, a, next, stamp)
  {
    filled := [];
    after := next;
    var j := 0;
    while j < |a|
      invariant 0 <= j <= |a|
      invariant FillAccounts(role, a[..j], next, stamp) == (filled, after)
    {
      FillAccountsAt(role, a, j, next, stamp);
      var uname, rec := a[j].0, a[j].1;
      if "id" !in rec {
        filled := filled + [(uname, Backfilled(rec, role, uname, after, stamp))];
        after := after + 1;
      } else {
        filled := filled + [a[j]];
      }
      j := j + 1;
    }
    assert a[..j] == a;
  }

  /** One turn of the inner loop. */
  lemma FillAccountsAt(role: string, a: Accounts, j: nat, next: nat, stamp: Value)
    requires j < |a|
    ensures var prev := FillAccounts(role, a[..j], next, stamp);
      FillAccounts(role, a[..j + 1], next, stamp) ==
        if "id" in a[j].1 then (prev.0 + [a[j]], prev.1)
        else (prev.0 + [(a[j].0, Backfilled(a[j].1, role, a[j].0, prev.1, stamp))], prev.1 + 1)
  {
    assert a[..j + 1][..j] == a[..j];
  }

  /** One turn of the outer loop. */
  lemma FillFileAt(d: UserFile, i: nat, next: nat, stamp: Value)
    requires i < |d|
    ensures var prev := FillFile(d[..i], next, stamp);
      var filled := FillAccounts(d[i].0, d[i].1, prev.1, stamp);
      FillFile(d[..i + 1], next, stamp) == (prev.0 + [(d[i].0, filled.0)], filled.1)
  {
    assert d[..i + 1][..i] == d[..i];
  }

  // ------------------------------------------------------- backfill lemmas

  /** The value `setdefault` leaves under the key of field `i`, when no earlier field names it. */
  lemma SetDefaultsGet(r: Record, fields: seq<(string, Value)>, i: nat)
    requires i < |fields| && forall j :: 0 <= j < i ==> fields[j].0 != fields[i].0
    ensures fields[i].0 in SetDefaults(r, fields)
    ensures SetDefaults(r, fields)[fields[i].0] == GetOr(r, fields[i].0, fields[i].1)
  {
    SetDefaultsExact(r, fields);
  }

  /** The record with its new id and uid, before the defaults. */
  function Numbered(rec: Record, n: nat): Record {
    rec["id" := VInt(n)]["uid" := VStr("U-" + Pad3(n))]
  }

  /** A backfilled record's keys: its own, the new id, uid and "updatedAt", and the default fields. */
  lemma BackfilledKeys(rec: Record, role: string, uname: string, n: nat, stamp: Value)
    ensures Backfilled(rec, role, uname, n, stamp).Keys ==
      rec.Keys + {"id", "uid", "updatedAt"} + FieldKeys(Defaults(role, uname, stamp))
  {
    var base := Numbered(rec, n);
    var fs := Defaults(role, uname, stamp);
    assert Backfilled(rec, role, uname, n, stamp) == SetDefaults(base, fs)["updatedAt" := stamp];
    SetDefaultsExact(base, fs);
  }

  /** A backfilled record has the new id and uid and the stamp as "updatedAt"; every other field it had is kept. */
  lemma BackfilledKeeps(rec: Record, role: string, uname: string, n: nat, stamp: Value)
    ensures var b := Backfilled(rec, role, uname, n, stamp);
      && "id" in b && b["id"] == VInt(n)
      && "uid" in b && b["uid"] == VStr("U-" + Pad3(n))
      && "updatedAt" in b && b["updatedAt"] == stamp
      && forall k :: k in rec && k != "id" && k != "uid" && k != "updatedAt" ==> k in b && b[k] == rec[k]
  {
    var base := Numbered(rec, n);
    var fs := Defaults(role, uname, stamp);
    assert Backfilled(rec, role, uname, n, stamp) == SetDefaults(base, fs)["updatedAt" := stamp];
    SetDefaultsExact(base, fs);
  }

  /** The name fields a backfilled record lacked get their defaults; the ones it had are kept. */
  lemma BackfilledNames(rec: Record, role: string, uname: string, n: nat, stamp: Value)
    ensures var b := Backfilled(rec, role, uname, n, stamp);
      && "fullName" in b && b["fullName"] == GetOr(rec, "fullName", VStr(uname))
      && "email" in b && b["email"] == GetOr(rec, "email", VStr(""))
      && "username" in b && b["username"] == GetOr(rec, "username", VStr(uname))
  {
    var base := Numbered(rec, n);
    var fs := Defaults(role, uname, stamp);
    assert Backfilled(rec, role, uname, n, stamp) == SetDefaults(base, fs)["updatedAt" := stamp];
    SetDefaultsGet(base, fs, 0);
    SetDefaultsGet(base, fs, 1);
    SetDefaultsGet(base, fs, 2);
  }

  /** The account fields a backfilled record lacked get their defaults; the ones it had are kept. */
  lemma BackfilledDefaults(rec: Record, role: string, uname: string, n: nat, stamp: Value)
    ensures var b := Backfilled(rec, role, uname, n, stamp);
      && "role" in b && b["role"] == GetOr(rec, "role", VStr(role))
      && "status" in b && b["status"] == GetOr(rec, "status", VStr("Active"))
      && "createdAt" in b && b["createdAt"] == GetOr(rec, "createdAt", stamp)
  {
    var base := Numbered(rec, n);
    var fs := Defaults(role, uname, stamp);
    assert Backfilled(rec, role, uname, n, stamp) == SetDefaults(base, fs)["updatedAt" := stamp];
    SetDefaultsGet(base, fs, 3);
    SetDefaultsGet(base, fs, 4);
    SetDefaultsGet(base, fs, 5);
  }

  /** The number a record was given, or -1 when its id is not an int. */
  function NewId(r: Record): int {
    if "id" in r && r["id"].VInt? then r["id"].i else -1
  }

  /** `r` is `was` backfilled with a number in [lo, hi). */
  predicate Filled(was: Record, r: Record, role: string, uname: string, lo: nat, hi: nat, stamp: Value) {
    lo <= NewId(r) < hi && r == Backfilled(was, role, uname, NewId(r), stamp)
  }

  /** One account through the second pass: same username; kept when it has an id, else backfilled. */
  predicate Passed(was: (string, Record), now: (string, Record), role: string, lo: nat, hi: nat, stamp: Value) {
    now.0 == was.0 &&
    if "id" in was.1 then now.1 == was.1 else Filled(was.1, now.1, role, was.0, lo, hi, stamp)
  }

  /** A backfilled record's number is the id it was given. */
  lemma NewIdOf(rec: Record, role: string, uname: string, n: nat, stamp: Value)
    ensures NewId(Backfilled(rec, role, uname, n, stamp)) == n
  {
    BackfilledKeeps(rec, role, uname, n, stamp);
  }

  /** The last account of a bucket through the second pass. */
  lemma FillAccountsLast(role: string, a: Accounts, next: nat, stamp: Value)
    requires a != []
    ensures var prev := FillAccounts(role, a[..|a| - 1], next, stamp);
      var last := a[|a| - 1];
      var r := FillAccounts(role, a, next, stamp);
      && (forall j :: 0 <= j < |a| - 1 ==> r.0[j] == prev.0[j])
      && if "id" in last.1 then r.0[|a| - 1] == last && r.1 == prev.1
         else r.0[|a| - 1] == (last.0, Backfilled(last.1, role, last.0, prev.1, stamp)) && r.1 == prev.1 + 1
  {
  }

  /** One bucket: each account kept or backfilled with a number in [next, counter). */
  lemma {:induction false} FillAccountsPassed(role: string, a: Accounts, next: nat, stamp: Value)
    ensures var r := FillAccounts(role, a, next, stamp);
      forall j :: 0 <= j < |a| ==> Passed(a[j], r.0[j], role, next, r.1, stamp)
    decreases |a|
  {
    if a != [] {
      var init, last := a[..|a| - 1], a[|a| - 1];
      FillAccountsPassed(role, init, next, stamp);
      FillAccountsLast(role, a, next, stamp);
      var prev := FillAccounts(role, init, next, stamp);
      var r := FillAccounts(role, a, next, stamp);
      NewIdOf(last.1, role, last.0, prev.1, stamp);
      forall j | 0 <= j < |a| ensures Passed(a[j], r.0[j], role, next, r.1, stamp) {
        if j < |init| {
          assert a[j] == init[j];
          assert Passed(init[j], prev.0[j], role, next, prev.1, stamp);
        }
      }
    }
  }

  /** A record's number lies in [lo, hi). */
  predicate InRange(r: Record, lo: nat, hi: nat) {
    lo <= NewId(r) < hi
  }

  /** One bucket: every backfilled number lies in [next, counter). */
  lemma {:induction false} FillAccountsRange(role: string, a: Accounts, next: nat, stamp: Value)
    ensures var r := FillAccounts(role, a, next, stamp);
      forall j :: 0 <= j < |a| && "id" !in a[j].1 ==> InRange(r.0[j].1, next, r.1)
    decreases |a|
  {
    if a != [] {
      var init, last := a[..|a| - 1], a[|a| - 1];
      FillAccountsRange(role, init, next, stamp);
      FillAccountsLast(role, a, next, stamp);
      var prev := FillAccounts(role, init, next, stamp);
      NewIdOf(last.1, role, last.0, prev.1, stamp);
      forall j | 0 <= j < |init| && "id" !in a[j].1
        ensures InRange(FillAccounts(role, a, next, stamp).0[j].1, next, FillAccounts(role, a, next, stamp).1)
      {
        assert a[j] == init[j];
        assert InRange(prev.0[j].1, next, prev.1);
      }
    }
  }

  /** One bucket: the new numbers increase in file order. */
  lemma {:induction false} FillAccountsOrdered(role: string, a: Accounts, next: nat, stamp: Value)
    ensures var r := FillAccounts(role, a, next, stamp);
      forall j1, j2 :: 0 <= j1 < j2 < |a| && "id" !in a[j1].1 && "id" !in a[j2].1 ==>
        NewId(r.0[j1].1) < NewId(r.0[j2].1)
    decreases |a|
  {
    if a != [] {
      var init, last := a[..|a| - 1], a[|a| - 1];
      FillAccountsOrdered(role, init, next, stamp);
      FillAccountsRange(role, init, next, stamp);
      FillAccountsLast(role, a, next, stamp);
      var prev := FillAccounts(role, init, next, stamp);
      var r := FillAccounts(role, a, next, stamp);
      NewIdOf(last.1, role, last.0, prev.1, stamp);
      forall j1, j2 | 0 <= j1 < j2 < |a| && "id" !in a[j1].1 && "id" !in a[j2].1
        ensures NewId(r.0[j1].1) < NewId(r.0[j2].1)
      {
        assert a[j1] == init[j1];
        assert InRange(prev.0[j1].1, next, prev.1);
        if j2 < |init| {
          assert a[j2] == init[j2];
        }
      }
    }
  }

  /** One bucket: the counter stays where it started exactly when every account already had an id. */
  lemma {:induction false} FillAccountsMoved(role: string, a: Accounts, next: nat, stamp: Value)
    ensures FillAccounts(role, a, next, stamp).1 == next <==> forall j :: 0 <= j < |a| ==> "id" in a[j].1
    decreases |a|
  {
    if a != [] {
      var init := a[..|a| - 1];
      FillAccountsMoved(role, init, next, stamp);
      FillAccountsLast(role, a, next, stamp);
      if FillAccounts(role, a, next, stamp).1 == next {
        forall j | 0 <= j < |a| ensures "id" in a[j].1 {
          if j < |init| {
            assert a[j] == init[j];
          }
        }
      }
    }
  }

  /**
   * The second pass over one bucket: each account kept or backfilled with a
   * number in [next, counter), numbers increasing in file order, and the
   * counter unmoved exactly when every account already had an id.
   */
  lemma FillAccountsExact(role: string, a: Accounts, next: nat, stamp: Value)
    ensures var r := FillAccounts(role, a, next, stamp);
      && (forall j :: 0 <= j < |a| ==> Passed(a[j], r.0[j], role, next, r.1, stamp))
      && (forall j1, j2 :: 0 <= j1 < j2 < |a| && "id" !in a[j1].1 && "id" !in a[j2].1 ==>
            NewId(r.0[j1].1) < NewId(r.0[j2].1))
      && (r.1 == next <==> forall j :: 0 <= j < |a| ==> "id" in a[j].1)
  {
    FillAccountsPassed(role, a, next, stamp);
    FillAccountsOrdered(role, a, next, stamp);
    FillAccountsMoved(role, a, next, stamp);
  }

  /** The outer loop's step: the next bucket is filled from the counter so far. */
  lemma FillFileStep(d: UserFile, next: nat, stamp: Value)
    requires d != []
    ensures var prev := FillFile(d[..|d| - 1], next, stamp);
      var filled := FillAccounts(d[|d| - 1].0, d[|d| - 1].1, prev.1, stamp);
      && FillFile(d, next, stamp).0 == prev.0 + [(d[|d| - 1].0, filled.0)]
      && FillFile(d, next, stamp).1 == filled.1
  {
  }

  /** Account `j` of bucket `i` exists and has no id of its own. */
  predicate Missing(d: UserFile, i: int, j: int) {
    0 <= i < |d| && 0 <= j < |d[i].1| && "id" !in d[i].1[j].1
  }

  /** Account (i1, j1) comes before account (i2, j2) in file order. */
  predicate Before(i1: int, j1: int, i2: int, j2: int) {
    i1 < i2 || (i1 == i2 && j1 < j2)
  }

  /** Over the whole store: each account kept or backfilled with a number in [next, counter). */
  lemma {:induction false} FillFilePassed(d: UserFile, next: nat, stamp: Value)
    ensures var r := FillFile(d, next, stamp);
      forall i, j :: 0 <= i < |d| && 0 <= j < |d[i].1| ==>
        j < |r.0[i].1| && Passed(d[i].1[j], r.0[i].1[j], d[i].0, next, r.1, stamp)
    decreases |d|
  {
    if d != [] {
      var init, last := d[..|d| - 1], d[|d| - 1];
      FillFilePassed(init, next, stamp);
      FillFileStep(d, next, stamp);
      var prev := FillFile(init, next, stamp);
      var r := FillFile(d, next, stamp);
      FillAccountsExact(last.0, last.1, prev.1, stamp);
      forall i, j | 0 <= i < |d| && 0 <= j < |d[i].1|
        ensures Passed(d[i].1[j], r.0[i].1[j], d[i].0, next, r.1, stamp)
      {
        if i < |init| {
          assert d[i] == init[i] && r.0[i] == prev.0[i];
          assert Passed(init[i].1[j], prev.0[i].1[j], init[i].0, next, prev.1, stamp);
        } else {
          assert Passed(last.1[j], r.0[i].1[j], last.0, prev.1, r.1, stamp);
        }
      }
    }
  }

  /** Over the whole store: every backfilled number lies in [next, counter). */
  lemma {:induction false} FillFileRange(d: UserFile, next: nat, stamp: Value)
    ensures var r := FillFile(d, next, stamp);
      forall i, j :: Missing(d, i, j) ==> InRange(r.0[i].1[j].1, next, r.1)
    decreases |d|
  {
    if d != [] {
      var n := |d| - 1;
      FillFileRange(d[..n], next, stamp);
      FillFileStep(d, next, stamp);
      var prev := FillFile(d[..n], next, stamp);
      var filled := FillAccounts(d[n].0, d[n].1, prev.1, stamp);
      FillAccountsRange(d[n].0, d[n].1, prev.1, stamp);
      RangeJoin(d, prev.0, filled.0, next, prev.1, filled.1);
    }
  }

  /** The range fact for the store so far and for the next bucket give it for both. */
  lemma RangeJoin(d: UserFile, pe: UserFile, fa: Accounts, lo: nat, mid: nat, hi: nat)
    requires d != [] && |pe| == |d| - 1 && |fa| == |d[|d| - 1].1| && lo <= mid <= hi
    requires forall i :: 0 <= i < |pe| ==> |pe[i].1| == |d[i].1|
    requires forall i, j :: Missing(d[..|d| - 1], i, j) ==> InRange(pe[i].1[j].1, lo, mid)
    requires forall j :: 0 <= j < |fa| && "id" !in d[|d| - 1].1[j].1 ==> InRange(fa[j].1, mid, hi)
    ensures var e := pe + [(d[|d| - 1].0, fa)];
      forall i, j :: Missing(d, i, j) ==> InRange(e[i].1[j].1, lo, hi)
  {
    var n := |d| - 1;
    var e := pe + [(d[n].0, fa)];
    forall i, j | Missing(d, i, j) ensures InRange(e[i].1[j].1, lo, hi) {
      if i < n {
        assert d[..n][i] == d[i] && e[i] == pe[i];
        assert Missing(d[..n], i, j);
      } else {
        assert e[i].1 == fa;
      }
    }
  }

  /** Over the whole store: the new numbers increase in file order. */
  lemma {:induction false} FillFileOrdered(d: UserFile, next: nat, stamp: Value)
    ensures var r := FillFile(d, next, stamp);
      forall i1, j1, i2, j2 :: Missing(d, i1, j1) && Missing(d, i2, j2) && Before(i1, j1, i2, j2) ==>
        NewId(r.0[i1].1[j1].1) < NewId(r.0[i2].1[j2].1)
    decreases |d|
  {
    if d != [] {
      var n := |d| - 1;
      FillFileOrdered(d[..n], next, stamp);
      FillFileRange(d[..n], next, stamp);
      FillFileStep(d, next, stamp);
      var prev := FillFile(d[..n], next, stamp);
      var filled := FillAccounts(d[n].0, d[n].1, prev.1, stamp);
      FillAccountsRange(d[n].0, d[n].1, prev.1, stamp);
      FillAccountsOrdered(d[n].0, d[n].1, prev.1, stamp);
      OrderJoin(d, prev.0, filled.0, next, prev.1, filled.1);
    }
  }

  /** The order facts for the store so far and for the next bucket, below and above `mid`, give it for both. */
  lemma OrderJoin(d: UserFile, pe: UserFile, fa: Accounts, lo: nat, mid: nat, hi: nat)
    requires d != [] && |pe| == |d| - 1 && |fa| == |d[|d| - 1].1|
    requires forall i :: 0 <= i < |pe| ==> |pe[i].1| == |d[i].1|
    requires forall i, j :: Missing(d[..|d| - 1], i, j) ==> InRange(pe[i].1[j].1, lo, mid)
    requires forall j :: 0 <= j < |fa| && "id" !in d[|d| - 1].1[j].1 ==> InRange(fa[j].1, mid, hi)
    requires forall i1, j1, i2, j2 :: Missing(d[..|d| - 1], i1, j1) && Missing(d[..|d| - 1], i2, j2) && Before(i1, j1, i2, j2) ==>
      NewId(pe[i1].1[j1].1) < NewId(pe[i2].1[j2].1)
    requires forall j1, j2 :: 0 <= j1 < j2 < |fa| && "id" !in d[|d| - 1].1[j1].1 && "id" !in d[|d| - 1].1[j2].1 ==>
      NewId(fa[j1].1) < NewId(fa[j2].1)
    ensures var e := pe + [(d[|d| - 1].0, fa)];
      forall i1, j1, i2, j2 :: Missing(d, i1, j1) && Missing(d, i2, j2) && Before(i1, j1, i2, j2) ==>
        NewId(e[i1].1[j1].1) < NewId(e[i2].1[j2].1)
  {
    var n := |d| - 1;
    var init := d[..n];
    var e := pe + [(d[n].0, fa)];
    forall i1, j1, i2, j2 | Missing(d, i1, j1) && Missing(d, i2, j2) && Before(i1, j1, i2, j2)
      ensures NewId(e[i1].1[j1].1) < NewId(e[i2].1[j2].1)
    {
      if i2 < n {
        assert init[i1] == d[i1] && e[i1] == pe[i1];
        assert init[i2] == d[i2] && e[i2] == pe[i2];
        assert Missing(init, i1, j1) && Missing(init, i2, j2);
      } else if i1 < n {
        assert init[i1] == d[i1] && e[i1] == pe[i1];
        assert Missing(init, i1, j1);
        assert InRange(pe[i1].1[j1].1, lo, mid);
        assert e[n].1 == fa;
        assert InRange(fa[j2].1, mid, hi);
      } else {
        assert e[n].1 == fa;
      }
    }
  }

  /** Over the whole store: the counter stays where it started exactly when no account lacked an id. */
  lemma {:induction false} FillFileMoved(d: UserFile, next: nat, stamp: Value)
    ensures FillFile(d, next, stamp).1 == next <==> forall i, j :: !Missing(d, i, j)
    decreases |d|
  {
    if d != [] {
      var init, last := d[..|d| - 1], d[|d| - 1];
      FillFileMoved(init, next, stamp);
      FillFileStep(d, next, stamp);
      var prev := FillFile(init, next, stamp);
      FillAccountsExact(last.0, last.1, prev.1, stamp);
      if FillFile(d, next, stamp).1 == next {
        forall i, j ensures !Missing(d, i, j) {
          if 0 <= i < |init| {
            assert d[i] == init[i];
            assert !Missing(init, i, j);
          }
        }
      } else {
        if prev.1 == next {
          var j :| 0 <= j < |last.1| && "id" !in last.1[j].1;
          assert Missing(d, |d| - 1, j);
        } else {
          var i, j :| Missing(init, i, j);
          assert d[i] == init[i];
          assert Missing(d, i, j);
        }
      }
    }
  }

  /**
   * The migration: nothing is saved exactly when every account already has
   * an id; otherwise the saved store has the same buckets and usernames,
   * keeps every account that had an id, and backfills every other one with a
   * number above every id already in the store, the numbers increasing in
   * file order, so no two accounts share a new id and none reuses an old one.
   */
  lemma MigrateExact(d: UserFile, stamp: Value)
    ensures Migrate(d, stamp).None? <==> forall i, j :: !Missing(d, i, j)
    ensures Migrate(d, stamp).Some? ==> var e := Migrate(d, stamp).value;
      && |e| == |d|
      && (forall i :: 0 <= i < |d| ==> e[i].0 == d[i].0 && |e[i].1| == |d[i].1|)
      && (forall i, j :: 0 <= i < |d| && 0 <= j < |d[i].1| ==> e[i].1[j].0 == d[i].1[j].0)
      && (forall i, j :: 0 <= i < |d| && 0 <= j < |d[i].1| && "id" in d[i].1[j].1 ==> e[i].1[j].1 == d[i].1[j].1)
      && (forall i, j :: Missing(d, i, j) ==>
            NewId(e[i].1[j].1) > MaxId(d) &&
            e[i].1[j].1 == Backfilled(d[i].1[j].1, d[i].0, d[i].1[j].0, NewId(e[i].1[j].1), stamp))
      && (forall i1, j1, i2, j2 :: Missing(d, i1, j1) && Missing(d, i2, j2) && Before(i1, j1, i2, j2) ==>
            NewId(e[i1].1[j1].1) < NewId(e[i2].1[j2].1))
  {
    var start := MaxId(d) + 1;
    FillFileMoved(d, start, stamp);
    FillFilePassed(d, start, stamp);
    FillFileOrdered(d, start, stamp);
  }

  /** A backfilled id is above every id the store already held, so it is fresh. */
  lemma MigratedIdsFresh(d: UserFile, stamp: Value, i1: nat, j1: nat, i2: nat, j2: nat)
    requires Migrate(d, stamp).Some? && Missing(d, i2, j2)
    requires i1 < |d| && j1 < |d[i1].1| && IdNum(d[i1].1[j1].1).Some?
    ensures i2 < |Migrate(d, stamp).value| && j2 < |Migrate(d, stamp).value[i2].1|
    ensures IdNum(d[i1].1[j1].1).value < NewId(Migrate(d, stamp).value[i2].1[j2].1)
  {
    MigrateExact(d, stamp);
    MaxIdExact(d);
  }

  /** Migrating a migrated store changes nothing: every account now has an id. */
  lemma MigrateOnce(d: UserFile, stamp: Value, stamp2: Value)
    requires Migrate(d, stamp).Some?
    ensures Migrate(Migrate(d, stamp).value, stamp2).None?
  {
    var e := Migrate(d, stamp).value;
    MigrateExact(d, stamp);
    forall i, j ensures !Missing(e, i, j) {
      if 0 <= i < |e| && 0 <= j < |e[i].1| && "id" !in d[i].1[j].1 {
        var n: nat := NewId(e[i].1[j].1);
        BackfilledKeeps(d[i].1[j].1, d[i].0, d[i].1[j].0, n, stamp);
      }
    }
    MigrateExact(e, stamp2);
  }

  // ----------------------------------------------------------------- _flatten

  /** `if not rid: continue` */
  predicate Listed(rec: Record) {
    Truthy(Get(rec, "id"))
  }

  /** The dashboard row of account `uname` in bucket `bucket`; None where `lower` or `strip` would raise. */
  function RowOf(bucket: string, uname: string, rec: Record): Option<Record> {
    var role := TextOr(Get(rec, "role"), bucket);
    var status := AppIds.FileStatusToUi(Or(Get(rec, "status"), VStr("Active")));
    if role.None? || status.None? then None
    else
      var name := Or(Get(rec, "fullName"), VStr(uname));
      Some(map[
        "id" := Get(rec, "id"),
        "uid" := Get(rec, "uid"),
        "fullName" := name,
        "name" := name,
        "email" := Or(Get(rec, "email"), VStr("")),
        "username" := Or(Get(rec, "username"), VStr(uname)),
        "role" := VStr(Lower(role.value)),
        "status" := VStr(status.value),
        "createdAt" := Get(rec, "createdAt"),
        "updatedAt" := Get(rec, "updatedAt")])
  }

  /** The rows of one bucket's listed accounts, in order; None when one of them raises. */
  function BucketRows(bucket: string, a: Accounts): Option<seq<Record>>
    decreases |a|
  {
    if a == [] then Some([])
    else
      var prev := BucketRows(bucket, a[..|a| - 1]);
      var last := a[|a| - 1];
      if prev.None? then None
      else if !Listed(last.1) then prev
      else match RowOf(bucket, last.0, last.1)
        case None => None
        case Some(row) => Some(prev.value + [row])
  }

  /** The rows of every bucket, in order, before the sort; None when one of them raises. */
  function FlatRows(d: UserFile): Option<seq<Record>>
    decreases |d|
  {
    if d == [] then Some([])
    else
      var prev := FlatRows(d[..|d| - 1]);
      var rows := BucketRows(d[|d| - 1].0, d[|d| - 1].1);
      if prev.Some? && rows.Some? then Some(prev.value + rows.value) else None
  }

  lemma BucketRowsSnoc(bucket: string, a: Accounts, j: nat)
    requires j < |a|
    ensures var prev := BucketRows(bucket, a[..j]);
      BucketRows(bucket, a[..j + 1]) ==
        if prev.None? then None
        else if !Listed(a[j].1) then prev
        else match RowOf(bucket, a[j].0, a[j].1)
          case None => None
          case Some(row) => Some(prev.value + [row])
  {
    assert a[..j + 1][..j] == a[..j];
  }

  lemma FlatRowsStep(d: UserFile, i: nat)
    requires i < |d|
    ensures var prev := FlatRows(d[..i]);
      var rows := BucketRows(d[i].0, d[i].1);
      FlatRows(d[..i + 1]) == if prev.Some? && rows.Some? then Some(prev.value + rows.value) else None
  {
    assert d[..i + 1][..i] == d[..i];
  }

  lemma {:induction false} BucketRowsFails(bucket: string, a: Accounts, j: nat)
    requires j <= |a| && BucketRows(bucket, a[..j]).None?
    ensures BucketRows(bucket, a).None?
    decreases |a|
  {
    if j < |a| {
      var init := a[..|a| - 1];
      assert init[..j] == a[..j];
      BucketRowsFails(bucket, init, j);
    } else {
      assert a[..j] == a;
    }
  }

  lemma {:induction false} FlatRowsFails(d: UserFile, i: nat)
    requires i <= |d| && FlatRows(d[..i]).None?
    ensures FlatRows(d).None?
    decreases |d|
  {
    if i < |d| {
      var init := d[..|d| - 1];
      assert init[..i] == d[..i];
      FlatRowsFails(init, i);
    } else {
      assert d[..i] == d;
    }
  }

  /** The inner loop of `_flatten`: the rows of one bucket. */
  method FlattenBucket(bucket: string, a: Accounts) returns (res: Option<seq<Record>>)
    ensures res == BucketRows(bucket, a)
  {
    var rows: seq<Record> := [];
    var j := 0;
    while j < |a|
      invariant 0 <= j <= |a|
      invariant BucketRows(bucket, a[..j]) == Some(rows)
    {
      BucketRowsSnoc(bucket, a, j);
      if Listed(a[j].1) {
        var row := RowOf(bucket, a[j].0, a[j].1);
        if row.None? {
          BucketRowsFails(bucket, a, j + 1);
          return None;
        }
        rows := rows + [row.value];
      }
      j := j + 1;
    }
    assert a[..j] == a;
    res := Some(rows);
  }

  /** The outer loop of `_flatten`, before the sort. */
  method FlattenFile(d: UserFile) returns (res: Option<seq<Record>>)
    ensures res == FlatRows(d)
  {
    var flat: seq<Record> := [];
    var i := 0;
    while i < |d|
      invariant 0 <= i <= |d|
      invariant FlatRows(d[..i]) == Some(flat)
    {
      var rows := FlattenBucket(d[i].0, d[i].1);
      FlatRowsStep(d, i);
      if rows.None? {
        FlatRowsFails(d, i + 1);
        return None;
      }
      flat := flat + rows.value;
      i := i + 1;
    }
    assert d[..i] == d;
    res := Some(flat);
  }

  /** `int(u["id"])`; None where `int` raises. */
  function IdKey(row: Record): Option<int> {
    PyInt(Get(row, "id"))
  }

  /** Every row has an int id and the ids never decrease. */
  predicate SortedById(rows: seq<Record>) {
    (forall k :: 0 <= k < |rows| ==> IdKey(rows[k]).Some?) &&
    forall k :: 0 <= k < |rows| - 1 ==> IdKey(rows[k]).value <= IdKey(rows[k + 1]).value
  }

  /** A sort entry whose key is its own row's id. */
  predicate WellKeyed(x: Keyed<Record>) {
    x.major == "" && IdKey(x.item) == Some(x.minor)
  }

  function ItemOf(x: Keyed<Record>): Record {
    x.item
  }

  /** `flat.sort(key=lambda u: int(u["id"]))`: every key is computed first, so one that raises aborts. */
  method SortById(flat: seq<Record>) returns (res: Option<seq<Record>>)
    ensures res.None? <==> exists k :: 0 <= k < |flat| && IdKey(flat[k]).None?
    ensures res.Some? ==> SortedById(res.value) && multiset(res.value) == multiset(flat)
  {
    var keyed: seq<Keyed<Record>> := [];
    var i := 0;
    while i < |flat|
      invariant 0 <= i <= |flat|
      invariant |keyed| == i
      invariant MapSeq(keyed, ItemOf) == flat[..i]
      invariant forall j :: 0 <= j < i ==> WellKeyed(keyed[j])
      invariant forall j :: 0 <= j < i ==> IdKey(flat[j]).Some?
    {
      var k := IdKey(flat[i]);
      if k.None? {
        assert IdKey(flat[i]).None?;
        return None;
      }
      MapSnoc(keyed, Keyed("", k.value, flat[i]), ItemOf);
      assert flat[..i + 1] == flat[..i] + [flat[i]];
      keyed := keyed + [Keyed("", k.value, flat[i])];
      i := i + 1;
    }
    assert flat[..i] == flat;
    var sorted := SortByKey(keyed);
    var rows := MapSeq(sorted, ItemOf);
    MapMultiset(sorted, keyed, ItemOf);
    SortedRowsOrdered(keyed, sorted);
    res := Some(rows);
  }

  /** The rows read off a key-sorted list of well-keyed entries are sorted by id. */
  lemma SortedRowsOrdered(keyed: seq<Keyed<Record>>, sorted: seq<Keyed<Record>>)
    requires forall j :: 0 <= j < |keyed| ==> WellKeyed(keyed[j])
    requires SortedByKey(sorted) && multiset(sorted) == multiset(keyed)
    ensures SortedById(MapSeq(sorted, ItemOf))
  {
    var rows := MapSeq(sorted, ItemOf);
    MapIndex(sorted, ItemOf);
    forall x | x in sorted ensures WellKeyed(x) {
      assert x in multiset(keyed);
    }
    forall k | 0 <= k < |rows| ensures IdKey(rows[k]).Some? {
      assert sorted[k] in sorted;
    }
    forall k | 0 <= k < |rows| - 1
      ensures IdKey(rows[k]).value <= IdKey(rows[k + 1]).value
    {
      assert KeyLe(sorted[k], sorted[k + 1]);
      assert sorted[k] in sorted && sorted[k + 1] in sorted;
      LexIrreflexive("");
    }
  }

  /** The flattening or a sort key raises. */
  predicate FlattenFails(d: UserFile) {
    FlatRows(d).None? ||
    exists k :: 0 <= k < |FlatRows(d).value| && IdKey(FlatRows(d).value[k]).None?
  }

  /** `_flatten`: the dashboard rows, sorted by numeric id. */
  method Flatten(d: UserFile) returns (res: Option<seq<Record>>)
    ensures res.None? <==> FlattenFails(d)
    ensures res.Some? ==> SortedById(res.value) && multiset(res.value) == multiset(FlatRows(d).value)
  {
    var flat := FlattenFile(d);
    if flat.None? {
      return None;
    }
    res := SortById(flat.value);
  }

  // --------------------------------------------------------- flatten lemmas

  /** A row raises exactly when the role or the status is not text. */
  lemma RowOfNone(bucket: string, uname: string, rec: Record)
    ensures RowOf(bucket, uname, rec).None? <==>
      TextOr(Get(rec, "role"), bucket).None? || !Or(Get(rec, "status"), VStr("Active")).VStr?
  {
    var sv := Or(Get(rec, "status"), VStr("Active"));
    if sv.VStr? {
      AppIds.FileStatusToUiCases(sv.s);
    }
  }

  /** A row keeps the account's id and shows the full name, or else the username, twice. */
  lemma RowOfNames(bucket: string, uname: string, rec: Record)
    ensures RowOf(bucket, uname, rec).Some? ==> var row := RowOf(bucket, uname, rec).value;
      && "id" in row && row["id"] == Get(rec, "id")
      && "fullName" in row && "name" in row
      && row["fullName"] == row["name"] == Or(Get(rec, "fullName"), VStr(uname))
  {
  }

  /**
   * A row's role is lower-case, and its status is "inactive" exactly when
   * the stored status reads as suspended or inactive, "active" otherwise.
   */
  lemma RowOfKinds(bucket: string, uname: string, rec: Record)
    ensures RowOf(bucket, uname, rec).Some? ==> var row := RowOf(bucket, uname, rec).value;
      && "role" in row && row["role"].VStr? && Lower(row["role"].s) == row["role"].s
      && "status" in row && row["status"] in {VStr("active"), VStr("inactive")}
      && (row["status"] == VStr("inactive") <==>
            AppIds.Folded(Or(Get(rec, "status"), VStr("Active")).s) in {"inactive", "suspended"})
  {
    var role := TextOr(Get(rec, "role"), bucket);
    var sv := Or(Get(rec, "status"), VStr("Active"));
    if sv.VStr? {
      AppIds.FileStatusToUiCases(sv.s);
    }
    if role.Some? {
      LowerIdempotent(role.value);
    }
  }

  /** Some listed account of `a` in bucket `bucket` has row `row`. */
  ghost predicate FromBucket(row: Record, bucket: string, a: Accounts) {
    exists j :: 0 <= j < |a| && Listed(a[j].1) && RowOf(bucket, a[j].0, a[j].1) == Some(row)
  }

  /** Some listed account of the store has row `row`. */
  ghost predicate RowFrom(row: Record, d: UserFile) {
    exists i :: 0 <= i < |d| && FromBucket(row, d[i].0, d[i].1)
  }

  /** Some listed account of bucket `i` raises. */
  ghost predicate BucketRaises(d: UserFile, i: int) {
    0 <= i < |d| &&
    exists j :: 0 <= j < |d[i].1| && Listed(d[i].1[j].1) && RowOf(d[i].0, d[i].1[j].0, d[i].1[j].1).None?
  }

  lemma FromBucketMore(row: Record, bucket: string, a: Accounts, n: nat)
    requires n <= |a| && FromBucket(row, bucket, a[..n])
    ensures FromBucket(row, bucket, a)
  {
    var j :| 0 <= j < n && Listed(a[..n][j].1) && RowOf(bucket, a[..n][j].0, a[..n][j].1) == Some(row);
    assert a[..n][j] == a[j];
  }

  lemma RowFromMore(row: Record, d: UserFile, n: nat)
    requires n <= |d| && RowFrom(row, d[..n])
    ensures RowFrom(row, d)
  {
    var i :| 0 <= i < n && FromBucket(row, d[..n][i].0, d[..n][i].1);
    assert d[..n][i] == d[i];
  }

  /** One bucket raises exactly when one of its listed accounts does. */
  lemma {:induction false} BucketRowsNone(bucket: string, a: Accounts)
    ensures BucketRows(bucket, a).None? <==>
      exists j :: 0 <= j < |a| && Listed(a[j].1) && RowOf(bucket, a[j].0, a[j].1).None?
    decreases |a|
  {
    if a != [] {
      var init, last := a[..|a| - 1], a[|a| - 1];
      BucketRowsNone(bucket, init);
      assert forall j :: 0 <= j < |init| ==> a[j] == init[j];
    }
  }

  /** Every row of a bucket is the row of one of its listed accounts. */
  lemma {:induction false} BucketRowsFrom(bucket: string, a: Accounts)
    requires BucketRows(bucket, a).Some?
    ensures forall k :: 0 <= k < |BucketRows(bucket, a).value| ==> FromBucket(BucketRows(bucket, a).value[k], bucket, a)
    decreases |a|
  {
    if a != [] {
      var n := |a| - 1;
      var init, last := a[..n], a[n];
      var prev := BucketRows(bucket, init).value;
      BucketRowsFrom(bucket, init);
      var rows := BucketRows(bucket, a).value;
      forall k | 0 <= k < |rows| ensures FromBucket(rows[k], bucket, a) {
        if k < |prev| {
          assert rows[k] == prev[k];
          FromBucketMore(rows[k], bucket, a, n);
        } else {
          assert Listed(a[n].1) && RowOf(bucket, a[n].0, a[n].1) == Some(rows[k]);
        }
      }
    }
  }

  /** The row of every listed account of a bucket is among the bucket's rows. */
  lemma {:induction false} BucketRowsHas(bucket: string, a: Accounts)
    requires BucketRows(bucket, a).Some?
    ensures forall j :: 0 <= j < |a| && Listed(a[j].1) ==>
      RowOf(bucket, a[j].0, a[j].1).Some? && RowOf(bucket, a[j].0, a[j].1).value in BucketRows(bucket, a).value
    decreases |a|
  {
    if a != [] {
      var init := a[..|a| - 1];
      BucketRowsHas(bucket, init);
      var prev := BucketRows(bucket, init).value;
      var rows := BucketRows(bucket, a).value;
      assert rows[..|prev|] == prev;
      forall j | 0 <= j < |a| && Listed(a[j].1)
        ensures RowOf(bucket, a[j].0, a[j].1).Some? && RowOf(bucket, a[j].0, a[j].1).value in rows
      {
        if j < |init| {
          assert a[j] == init[j];
          assert RowOf(bucket, init[j].0, init[j].1).value in prev;
        }
      }
    }
  }

  /** The flattening raises exactly when one listed account does. */
  lemma {:induction false} FlatRowsNone(d: UserFile)
    ensures FlatRows(d).None? <==> exists i :: BucketRaises(d, i)
    decreases |d|
  {
    if d != [] {
      var n := |d| - 1;
      var init := d[..n];
      FlatRowsNone(init);
      BucketRowsNone(d[n].0, d[n].1);
      assert forall i :: 0 <= i < n ==> d[i] == init[i];
      if FlatRows(init).None? {
        var i :| BucketRaises(init, i);
        assert BucketRaises(d, i);
      } else if BucketRows(d[n].0, d[n].1).None? {
        assert BucketRaises(d, n);
      } else {
        forall i | 0 <= i < |d| ensures !BucketRaises(d, i) {
          if i < n {
            assert !BucketRaises(init, i);
          }
        }
      }
    }
  }

  /** Every row before the sort is the row of a listed account. */
  lemma {:induction false} FlatRowsFrom(d: UserFile)
    requires FlatRows(d).Some?
    ensures forall k :: 0 <= k < |FlatRows(d).value| ==> RowFrom(FlatRows(d).value[k], d)
    decreases |d|
  {
    if d != [] {
      var n := |d| - 1;
      var init := d[..n];
      FlatRowsFrom(init);
      BucketRowsFrom(d[n].0, d[n].1);
      var prev := FlatRows(init).value;
      var last := BucketRows(d[n].0, d[n].1).value;
      var rows := FlatRows(d).value;
      assert rows == prev + last;
      forall k | 0 <= k < |rows| ensures RowFrom(rows[k], d) {
        if k < |prev| {
          assert rows[k] == prev[k];
          RowFromMore(rows[k], d, n);
        } else {
          assert rows[k] == last[k - |prev|];
          assert FromBucket(rows[k], d[n].0, d[n].1);
        }
      }
    }
  }

  /** The row of every listed account is among the rows before the sort. */
  lemma {:induction false} FlatRowsHas(d: UserFile)
    requires FlatRows(d).Some?
    ensures forall i, j :: 0 <= i < |d| && 0 <= j < |d[i].1| && Listed(d[i].1[j].1) ==>
      RowOf(d[i].0, d[i].1[j].0, d[i].1[j].1).Some? &&
      RowOf(d[i].0, d[i].1[j].0, d[i].1[j].1).value in FlatRows(d).value
    decreases |d|
  {
    if d != [] {
      var n := |d| - 1;
      var init := d[..n];
      FlatRowsHas(init);
      BucketRowsHas(d[n].0, d[n].1);
      var prev := FlatRows(init).value;
      var last := BucketRows(d[n].0, d[n].1).value;
      var rows := FlatRows(d).value;
      assert rows == prev + last;
      forall i, j | 0 <= i < |d| && 0 <= j < |d[i].1| && Listed(d[i].1[j].1)
        ensures RowOf(d[i].0, d[i].1[j].0, d[i].1[j].1).value in rows
      {
        if i < n {
          assert d[i] == init[i];
        }
      }
    }
  }

  /**
   * The whole store: the rows before the sort are exactly the rows of the
   * listed accounts; the flattening raises exactly when one of them does.
   */
  lemma FlatRowsExact(d: UserFile)
    ensures FlatRows(d).None? <==> exists i :: BucketRaises(d, i)
    ensures FlatRows(d).Some? ==>
      && (forall k :: 0 <= k < |FlatRows(d).value| ==> RowFrom(FlatRows(d).value[k], d))
      && (forall i, j :: 0 <= i < |d| && 0 <= j < |d[i].1| && Listed(d[i].1[j].1) ==>
            RowOf(d[i].0, d[i].1[j].0, d[i].1[j].1).Some? &&
            RowOf(d[i].0, d[i].1[j].0, d[i].1[j].1).value in FlatRows(d).value)
  {
    FlatRowsNone(d);
    if FlatRows(d).Some? {
      FlatRowsFrom(d);
      FlatRowsHas(d);
    }
  }

  /** After a migration every account the backfill touched has a positive id, so the dashboard lists it. */
  lemma MigratedListed(d: UserFile, stamp: Value, i: nat, j: nat)
    requires Migrate(d, stamp).Some? && Missing(d, i, j)
    ensures i < |Migrate(d, stamp).value| && j < |Migrate(d, stamp).value[i].1|
    ensures Listed(Migrate(d, stamp).value[i].1[j].1)
  {
    MigrateExact(d, stamp);
    var e := Migrate(d, stamp).value;
    var n: nat := NewId(e[i].1[j].1);
    BackfilledKeeps(d[i].1[j].1, d[i].0, d[i].1[j].0, n, stamp);
  }
}
