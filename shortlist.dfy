/**
 * How the request services decide that a request is on a shortlist
 * (UserStory21, 23 and 24 repeat the same test): a true boolean flag under one
 * of four keys, a status of 'shortlisted' in any case, or a non-empty list or
 * non-blank string under one of three owner keys.
 */
module Shortlist {
  import opened PyValue

  const FlagKeys: seq<string> := ["shortlisted", "is_shortlisted", "favorite", "is_favorite"]
  const ListKeys: seq<string> := ["shortlisted_by", "favorites", "shortlist"]

  /** `isinstance(value, bool) and value` */
  predicate FlagSet(r: Record, k: string) {
    Get(r, k) == VBool(true)
  }

  /** `isinstance(value, list) and len(value) > 0`, or `isinstance(value, str) and value.strip()` */
  predicate Marks(v: Value) {
    (v.VList? && |v.items| > 0) || (v.VStr? && !Blank(v.s))
  }

  predicate StatusShortlisted(r: Record) {
    Lower(Str(GetOr(r, "status", VStr("")))) == "shortlisted"
  }

  predicate IsShortlisted(r: Record) {
    (exists i :: 0 <= i < |FlagKeys| && FlagSet(r, FlagKeys[i])) ||
    StatusShortlisted(r) ||
    (exists i :: 0 <= i < |ListKeys| && Marks(Get(r, ListKeys[i])))
  }

  /** The three detection loops of `getShortlist` / `_is_shortlisted`, each stopping at the first hit. */
  method ShortlistSignal(r: Record) returns (found: bool)
    ensures found == IsShortlisted(r)
  {
    found := false;
    var i := 0;
    while i < |FlagKeys| && !found
      invariant 0 <= i <= |FlagKeys|
      invariant found <==> exists j :: 0 <= j < i && FlagSet(r, FlagKeys[j])
    {
      var value := Get(r, FlagKeys[i]);
      if value.VBool? && value.b {
        found := true;
      }
      i := i + 1;
    }
    if !found {
      var status := Lower(Str(GetOr(r, "status", VStr(""))));
      if status == "shortlisted" {
        found := true;
      }
    }
    if !found {
      i := 0;
      while i < |ListKeys| && !found
        invariant 0 <= i <= |ListKeys|
        invariant found <==> exists j :: 0 <= j < i && Marks(Get(r, ListKeys[j]))
      {
        var value := Get(r, ListKeys[i]);
        if value.VList? && |value.items| > 0 {
          found := true;
        } else if value.VStr? && !Blank(value.s) {
          found := true;
        }
        i := i + 1;
      }
    }
  }

  /** Non-boolean flags do not count: a record whose every field is `1` is not shortlisted. */
  lemma FlagsMustBeBooleans(r: Record)
    requires forall k :: k in r ==> r[k] == VInt(1)
    ensures !IsShortlisted(r)
  {
    assert !StatusShortlisted(r) by {
      var st := Str(GetOr(r, "status", VStr("")));
      assert "status" in r ==> st == "1" by {
        assert IntToString(1) == "1";
      }
      assert Lower("1") == "1";
      assert Lower("") == "";
      assert "shortlisted" != "1";
    }
  }

  /** Each of the three signals on its own is enough. */
  lemma AnySignalSuffices(r: Record)
    ensures FlagSet(r, "favorite") ==> IsShortlisted(r)
    ensures Get(r, "status") == VStr("Shortlisted") ==> IsShortlisted(r)
    ensures Get(r, "shortlisted_by") == VList([VStr("CSR_Rep")]) ==> IsShortlisted(r)
  {
    assert FlagKeys[2] == "favorite";
    assert ListKeys[0] == "shortlisted_by";
    if Get(r, "status") == VStr("Shortlisted") {
      assert Lower("Shortlisted") == "shortlisted";
    }
  }
}
