/**
 * The small pure helpers of the combined Flask service (Max_app.py): role
 * labels, the two spellings of a request id ("REQ-7" and "7"), record
 * ownership, the suspension check on users.json and the plaintext branch
 * of the password check.
 */
module MaxAppIds {
  import opened PyValue
  import CsrLogin

  /** `_normalize_role`: falsy means 'csr'; the UI labels map to 'csr'; the rest is trimmed and lower-cased. */
  function NormalizeRole(raw: Value): string {
    if !Truthy(raw) then "csr"
    else
      var r := Lower(Strip(Str(raw)));
      if r == "csr representative" || r == "csr rep" then "csr" else r
  }

  /** `_canon_req_id`: the trimmed id with one case-insensitive "REQ-" prefix replaced by "REQ-". */
  function CanonReqId(rid: Value): string {
    var s := Strip(Str(rid));
    var body := if HasReqPrefix(s) then ReqPrefixAfterFirst(s); AfterFirst(s, '-') else s;
    "REQ-" + body
  }

  /** `_req_plain_id`: an int as its decimal text, otherwise `str()` with one "REQ-" prefix (any case) removed. */
  function ReqPlainId(v: Value): string {
    if v.VInt? then IntToString(v.i)
    else
      var s := Str(v);
      if HasReqPrefix(s) then ReqPrefixAfterFirst(s); AfterFirst(s, '-') else s
  }

  /**
   * `_owns(rec, me)`: never for an empty user, otherwise the trimmed owner
   * equals the user ignoring case; None where `.strip()` meets an owner that
   * is not a string.
   */
  function Owns(rec: Record, me: string): Option<bool> {
    if me == "" then Some(false)
    else
      match TextOr(Get(rec, "owner"), "")
      case None => None
      case Some(owner) => Some(Lower(Strip(owner)) == Lower(me))
  }

  /**
   * `_is_suspended`: the user's status, trimmed and lower-cased, is
   * 'suspended' or 'inactive'; a missing role or user is not suspended.
   * None where the status is a truthy non-string.
   */
  function IsSuspended(users: CsrLogin.Users, roleKey: string, username: string): Option<bool> {
    var accounts := if roleKey in users then users[roleKey] else map[];
    var rec := if username in accounts then accounts[username] else map[];
    match TextOr(Get(rec, "status"), "")
    case None => None
    case Some(status) =>
      var st := Lower(Strip(status));
      Some(st == "suspended" || st == "inactive")
  }

  /** The scheme name before the first ':' of a stored password, lower-cased, or "" without a ':'. */
  function HashPrefix(stored: string): string {
    if ':' in stored then Lower(stored[..IndexOf(stored, ':')]) else ""
  }

  /**
   * `verify_password`: a non-string stored password fails; a scrypt or
   * pbkdf2 hash is checked by `hashCheck` (None where it raises, which
   * fails); anything else is compared as plaintext.
   */
  function VerifyPassword(stored: Value, provided: Value, hashCheck: (string, Value) -> Option<bool>): bool {
    if !stored.VStr? then false
    else
      var prefix := HashPrefix(stored.s);
      if prefix == "scrypt" || prefix == "pbkdf2" then
        match hashCheck(stored.s, provided)
        case None => false
        case Some(b) => b
      else PyEq(stored, provided)
  }

  /** The Flask session keys the routes read; "" stands for a missing key. */
  datatype Session = Session(role: string, username: string, name: string)

  /** `_require_role(role)`: the session role equals `role` ignoring case. */
  predicate HasRole(s: Session, role: string) {
    Lower(s.role) == Lower(role)
  }

  /** `session.get('name') or session.get('username') or dflt` */
  function Caller(s: Session, dflt: string): string {
    if s.name != "" then s.name else if s.username != "" then s.username else dflt
  }

  /** `_pin_identity()[0]`: username before name, and "" unless the session role is 'pin'. */
  function PinIdentity(s: Session): string {
    if !HasRole(s, "pin") then "" else if s.username != "" then s.username else s.name
  }

  // ------------------------------------------------------------------ roles

  /**
   * The result is 'csr' for falsy input and for the two UI labels in any
   * case and with any surrounding blanks; otherwise it is the trimmed,
   * lower-cased input.
   */
  lemma NormalizeRoleCases(raw: Value)
    ensures !Truthy(raw) ==> NormalizeRole(raw) == "csr"
    ensures var r := Lower(Strip(Str(raw)));
      Truthy(raw) && r != "csr representative" && r != "csr rep" ==> NormalizeRole(raw) == r
    ensures var r := Lower(Strip(Str(raw)));
      Truthy(raw) && (r == "csr representative" || r == "csr rep") ==> NormalizeRole(raw) == "csr"
  {
  }

  /** The long UI label, in its own capitalisation, is 'csr'. */
  lemma LongLabelIsCsr()
    ensures NormalizeRole(VStr("CSR Representative")) == "csr"
  {
    var l := "CSR Representative";
    StripFixpoint(l);
    LowerLongLabel();
  }

  lemma LowerLongLabel()
    ensures Lower("CSR Representative") == "csr representative"
  {
    var w := Lower("CSR Representative");
    assert w[0] == 'c' && w[1] == 's' && w[2] == 'r' && w[3] == ' ';
    assert w[4] == 'r' && w[5] == 'e' && w[6] == 'p' && w[7] == 'r' && w[8] == 'e';
    assert w[9] == 's' && w[10] == 'e' && w[11] == 'n' && w[12] == 't' && w[13] == 'a';
    assert w[14] == 't' && w[15] == 'i' && w[16] == 'v' && w[17] == 'e';
  }

  /** The short UI label in any case is 'csr', and another role is only trimmed and lower-cased. */
  lemma ShortLabelIsCsr()
    ensures NormalizeRole(VStr("Csr Rep")) == "csr"
    ensures NormalizeRole(VStr(" PIN ")) == "pin"
  {
    assert Strip("Csr Rep") == "Csr Rep" by {
      assert TrimStart("Csr Rep") == "Csr Rep";
      assert TrimEnd("Csr Rep") == "Csr Rep";
    }
    assert Lower("Csr Rep") == "csr rep";
    assert Strip(" PIN ") == "PIN" by {
      assert TrimStart(" PIN ") == "PIN ";
      assert TrimEnd("PIN ") == "PIN";
    }
    assert Lower("PIN") == "pin";
  }

  /**
   * A normalised role has no surrounding blanks and no upper-case letter,
   * and normalising it again changes nothing, unless it is empty: a blank
   * label normalises to "", which normalises to 'csr'.
   */
  lemma NormalizeRoleIdempotent(raw: Value)
    ensures var r := NormalizeRole(raw);
      Strip(r) == r && forall i :: 0 <= i < |r| ==> !IsUpper(r[i])
    ensures NormalizeRole(raw) != "" ==> NormalizeRole(VStr(NormalizeRole(raw))) == NormalizeRole(raw)
  {
    var s := Strip(Str(raw));
    StripIdempotent(Str(raw));
    LowerOfStripped(s);
    LowerIdempotent(s);
    CsrIsNormal();
  }

  /** "csr" is stripped and lower-case already. */
  lemma CsrIsNormal()
    ensures Strip("csr") == "csr" && Lower("csr") == "csr"
    ensures forall i :: 0 <= i < |"csr"| ==> !IsUpper("csr"[i])
  {
    StripFixpoint("csr");
  }

  /** A blank label normalises to "", and "" (being falsy) to 'csr'. */
  lemma NormalizeRoleBlank()
    ensures NormalizeRole(VStr("   ")) == "" && NormalizeRole(VStr("")) == "csr"
  {
    assert TrimStart("   ") == "";
  }

  // ------------------------------------------------------------------ request ids

  lemma UpperReqPrefix(s: string)
    ensures HasReqPrefix("REQ-" + s)
  {
    var t := "REQ-" + s;
    assert Upper(t)[..4] == "REQ-" by {
      assert Upper(t)[0] == 'R' && Upper(t)[1] == 'E' && Upper(t)[2] == 'Q' && Upper(t)[3] == '-';
    }
  }

  /** The canonical id starts with "REQ-", keeps no surrounding blank, and canonicalising it again changes nothing. */
  lemma CanonIdempotent(rid: Value)
    ensures StartsWith(CanonReqId(rid), "REQ-")
    ensures Strip(CanonReqId(rid)) == CanonReqId(rid)
    ensures CanonReqId(VStr(CanonReqId(rid))) == CanonReqId(rid)
  {
    var x := Strip(Str(rid));
    StripEnds(Str(rid));
    if HasReqPrefix(x) {
      ReqPrefixAfterFirst(x);
    }
    var body := if HasReqPrefix(x) then x[4..] else x;
    assert CanonReqId(rid) == "REQ-" + body;
    assert body == [] || (x != [] && body[|body| - 1] == x[|x| - 1]);
    var t := "REQ-" + body;
    assert t[..4] == "REQ-";
    assert t[0] == 'R' && t[|t| - 1] == (if body == [] then '-' else body[|body| - 1]);
    StripFixpoint(t);
    UpperReqPrefix(body);
    ReqPrefixAfterFirst(t);
    assert t[4..] == body;
  }

  /** "7", "REQ-7" and the int 7 all canonicalise to "REQ-7". */
  lemma CanonSpellings()
    ensures CanonReqId(VStr("7")) == "REQ-7"
    ensures CanonReqId(VStr("REQ-7")) == "REQ-7"
    ensures CanonReqId(VInt(7)) == "REQ-7"
  {
    assert Strip("7") == "7" by { StripFixpoint("7"); }
    assert !HasReqPrefix("7");
    assert Strip("REQ-7") == "REQ-7" by { StripFixpoint("REQ-7"); }
    UpperReqPrefix("7");
    ReqPrefixAfterFirst("REQ-7");
    assert "REQ-7"[4..] == "7";
    assert IntToString(7) == "7" by { assert NatToString(7) == [DigitChar(7)]; }
  }

  /** The prefix is recognised in any case: "req-7" is "REQ-7". */
  lemma CanonLowerPrefix()
    ensures CanonReqId(VStr("req-7")) == "REQ-7"
  {
    var l := "req-7";
    StripFixpoint(l);
    var u := Upper(l);
    assert u[0] == 'R' && u[1] == 'E' && u[2] == 'Q' && u[3] == '-';
    assert u[..4] == "REQ-";
    ReqPrefixAfterFirst(l);
    assert l[4..] == "7";
  }

  /** Surrounding blanks are dropped: " REQ-7 " is "REQ-7". */
  lemma CanonPadded()
    ensures CanonReqId(VStr(" REQ-7 ")) == "REQ-7"
  {
    var p := " REQ-7 ";
    var q := p[1..];
    var t := q[..|q| - 1];
    assert t == "REQ-7";
    assert TrimStart(q) == q by { assert !IsSpace(q[0]); }
    assert TrimStart(p) == TrimStart(q) by { assert IsSpace(p[0]); }
    assert TrimEnd(t) == t by { assert !IsSpace(t[|t| - 1]); }
    assert TrimEnd(q) == TrimEnd(t) by { assert IsSpace(q[|q| - 1]); }
    assert Strip(p) == "REQ-7";
    CanonOfStripped(p);
    CanonSpellings();
  }

  /** Only the trimmed id matters. */
  lemma CanonOfStripped(s: string)
    ensures CanonReqId(VStr(s)) == CanonReqId(VStr(Strip(s)))
  {
    StripIdempotent(s);
  }

  /** The plain id removes exactly one prefix, and leaves an id without one alone. */
  lemma PlainIdStripsOnePrefix(s: string)
    ensures ReqPlainId(VStr("REQ-" + s)) == s
    ensures ReqPlainId(VStr("req-" + s)) == s
    ensures !HasReqPrefix(s) ==> ReqPlainId(VStr(s)) == s
    ensures ReqPlainId(VStr("REQ-REQ-7")) == "REQ-7"
  {
    UpperReqPrefix(s);
    ReqPrefixAfterFirst("REQ-" + s);
    assert ("REQ-" + s)[4..] == s;
    var l := "req-" + s;
    assert Upper(l)[..4] == "REQ-" by {
      assert Upper(l)[0] == 'R' && Upper(l)[1] == 'E' && Upper(l)[2] == 'Q' && Upper(l)[3] == '-';
    }
    ReqPrefixAfterFirst(l);
    assert l[4..] == s;
    UpperReqPrefix("REQ-7");
    ReqPrefixAfterFirst("REQ-REQ-7");
    assert "REQ-REQ-7"[4..] == "REQ-7";
  }

  /** An int id's plain form is its decimal text, which never carries the prefix. */
  lemma PlainIdOfInt(n: int)
    ensures ReqPlainId(VInt(n)) == IntToString(n)
    ensures CanonReqId(VInt(n)) == "REQ-" + ReqPlainId(VInt(n))
  {
    IntToStringShape(n);
    var s := IntToString(n);
    NatToStringDigits(if n < 0 then -n else n);
    assert s != [] && (s[0] == '-' || IsDigit(s[0]));
    assert Upper(s)[0] == s[0];
    assert !HasReqPrefix(s);
    StripFixpoint(s);
  }

  /** For an id with no surrounding blanks, the canonical form is "REQ-" and the plain form. */
  lemma CanonIsPrefixedPlain(v: Value)
    requires Strip(Str(v)) == Str(v)
    ensures CanonReqId(v) == "REQ-" + ReqPlainId(v)
  {
    if v.VInt? {
      PlainIdOfInt(v.i);
    }
  }

  // ------------------------------------------------------------------ ownership and accounts

  /**
   * Ownership never holds for an empty user; otherwise it holds exactly
   * when the string owner, trimmed, equals the user ignoring case.
   */
  lemma OwnsExact(rec: Record, me: string)
    ensures Owns(rec, me) == Some(true) <==>
      me != "" && TextOr(Get(rec, "owner"), "").Some? &&
      Lower(Strip(TextOr(Get(rec, "owner"), "").value)) == Lower(me)
    ensures Owns(rec, "") == Some(false)
    ensures "owner" !in rec && me != "" ==> Owns(rec, me) == Some(Lower(me) == "")
  {
    assert Strip("") == "";
  }

  /** A padded owner in other capitalisation still owns the record. */
  lemma OwnsPaddedOwner()
    ensures Owns(map["owner" := VStr(" Alice ")], "ALICE") == Some(true)
  {
    var p := " Alice ";
    var q := p[1..];
    var t := q[..|q| - 1];
    assert t == "Alice";
    assert TrimStart(q) == q by { assert !IsSpace(q[0]); }
    assert TrimStart(p) == TrimStart(q) by { assert IsSpace(p[0]); }
    assert TrimEnd(t) == t by { assert !IsSpace(t[|t| - 1]); }
    assert TrimEnd(q) == TrimEnd(t) by { assert IsSpace(q[|q| - 1]); }
    assert Strip(p) == "Alice";
    var a, b := Lower("Alice"), Lower("ALICE");
    assert a[0] == b[0] == 'a' && a[1] == b[1] == 'l' && a[2] == b[2] == 'i';
    assert a[3] == b[3] == 'c' && a[4] == b[4] == 'e';
    assert a == b;
  }

  predicate StatusIs(users: CsrLogin.Users, roleKey: string, username: string, status: string) {
    roleKey in users && username in users[roleKey] && Get(users[roleKey][username], "status") == VStr(status)
  }

  /** Only 'suspended' and 'inactive' (any case, any blanks) suspend; an unknown user is not suspended. */
  lemma SuspendedCases(users: CsrLogin.Users, roleKey: string, username: string)
    ensures roleKey !in users ==> IsSuspended(users, roleKey, username) == Some(false)
    ensures roleKey in users && username !in users[roleKey] ==> IsSuspended(users, roleKey, username) == Some(false)
    ensures StatusIs(users, roleKey, username, " Suspended") ==> IsSuspended(users, roleKey, username) == Some(true)
    ensures StatusIs(users, roleKey, username, "Active") ==> IsSuspended(users, roleKey, username) == Some(false)
  {
    assert Strip("") == "";
    assert Strip(" Suspended") == "Suspended" by {
      assert TrimStart(" Suspended") == "Suspended";
      assert TrimEnd("Suspended") == "Suspended";
    }
    assert Lower("Suspended") == "suspended";
    assert Strip("Active") == "Active" by { StripFixpoint("Active"); }
    assert Lower("Active") == "active";
  }

  /** An 'inactive' account is blocked like a suspended one. */
  lemma InactiveSuspended(users: CsrLogin.Users, roleKey: string, username: string)
    requires StatusIs(users, roleKey, username, "inactive")
    ensures IsSuspended(users, roleKey, username) == Some(true)
  {
    assert Strip("inactive") == "inactive" by { StripFixpoint("inactive"); }
    assert Lower("inactive") == "inactive";
  }

  /**
   * Only the trimmed, lower-cased status counts: two accounts whose string
   * statuses agree after `strip().lower()` are both suspended or both not,
   * and an account with a string status is suspended exactly when that form
   * is 'suspended' or 'inactive'.
   */
  lemma SuspendedByNormalForm(users: CsrLogin.Users, roleKey: string, username: string,
                              users': CsrLogin.Users, roleKey': string, username': string, st: string, st': string)
    requires StatusIs(users, roleKey, username, st) && StatusIs(users', roleKey', username', st')
    requires Lower(Strip(st)) == Lower(Strip(st'))
    ensures IsSuspended(users, roleKey, username) == IsSuspended(users', roleKey', username')
    ensures IsSuspended(users, roleKey, username) ==
      Some(Lower(Strip(st)) == "suspended" || Lower(Strip(st)) == "inactive")
  {
    assert Strip("") == "";
  }

  /**
   * The plaintext branch: a stored password with no ':' matches exactly the
   * same string; a non-string stored password never matches; a scrypt or
   * pbkdf2 hash is decided by the hash check alone.
   */
  lemma VerifyPasswordCases(stored: Value, provided: Value, hashCheck: (string, Value) -> Option<bool>)
    ensures !stored.VStr? ==> !VerifyPassword(stored, provided, hashCheck)
    ensures stored.VStr? && ':' !in stored.s ==>
      (VerifyPassword(stored, provided, hashCheck) <==> provided == stored)
    ensures stored.VStr? && (HashPrefix(stored.s) == "scrypt" || HashPrefix(stored.s) == "pbkdf2") ==>
      (VerifyPassword(stored, provided, hashCheck) <==> hashCheck(stored.s, provided) == Some(true))
  {
    assert "" != "scrypt" && "" != "pbkdf2";
  }

  /** The scheme is everything before the first ':', lower-cased. */
  lemma HashPrefixOf(scheme: string, rest: string)
    requires ':' !in scheme
    ensures HashPrefix(scheme + ":" + rest) == Lower(scheme)
  {
    var s := scheme + ":" + rest;
    var n := |scheme|;
    assert s[n] == ':';
    assert s[..n] == scheme;
    IndexOfAt(s, ':', n);
  }

  /** "PBKDF2:sha256:..." is treated as a hash, whatever the case of the scheme name. */
  lemma HashSchemeIgnoresCase()
    ensures HashPrefix("PBKDF2" + ":" + "sha256:1$x") == "pbkdf2"
  {
    var u := "PBKDF2";
    assert ':' !in u;
    HashPrefixOf(u, "sha256:1$x");
    LowerPbkdf2();
  }

  lemma LowerPbkdf2()
    ensures Lower("PBKDF2") == "pbkdf2"
  {
    var w := Lower("PBKDF2");
    assert w[0] == 'p' && w[1] == 'b' && w[2] == 'k';
    assert w[3] == 'd' && w[4] == 'f' && w[5] == '2';
  }
}
