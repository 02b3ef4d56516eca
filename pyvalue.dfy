/**
 * The part of Python the request services rely on: JSON values as loaded by
 * json.load, truthiness, `or`, `str()`, `==`, `int()`, and the str methods
 * the services call (strip, lower, upper, title, startswith, replace, split).
 * Characters outside ASCII are treated as having no case and no whitespace.
 */
module PyValue {

  datatype Option<+T> = None | Some(value: T)

  /** A JSON value after json.load; floats and nested objects are not modelled. */
  datatype Value =
    | VNone
    | VBool(b: bool)
    | VInt(i: int)
    | VStr(s: string)
    | VList(items: seq<Value>)

  /** A JSON object, i.e. the dict the services read and write. */
  type Record = map<string, Value>

  /** An argument that should be a dict: None, a dict, or some other value. */
  datatype Arg = NoArg | DictArg(d: Record) | OtherArg

  /** Outcome of a call that returns a value, returns an error string, or raises. */
  datatype Outcome<+T> = Ok(value: T) | Err(message: string) | Raised

  /** `d.get(k)` */
  function Get(r: Record, k: string): Value {
    if k in r then r[k] else VNone
  }

  /** `d.get(k, dflt)` */
  function GetOr(r: Record, k: string, dflt: Value): Value {
    if k in r then r[k] else dflt
  }

  /** Python truthiness of a value. */
  predicate Truthy(v: Value) {
    match v
    case VNone => false
    case VBool(b) => b
    case VInt(i) => i != 0
    case VStr(s) => s != ""
    case VList(xs) => xs != []
  }

  /** Truthiness of a dict: it is non-empty. */
  predicate RecordTruthy(r: Record) {
    r != map[]
  }

  /** `a or b` */
  function Or(a: Value, b: Value): Value {
    if Truthy(a) then a else b
  }

  /** `(v or dflt)` used as a str; None where Python raises AttributeError. */
  function TextOr(v: Value, dflt: string): Option<string> {
    match Or(v, VStr(dflt))
    case VStr(s) => Some(s)
    case _ => None
  }

  // ---------------------------------------------------------------- str()

  /** `str(v)`; strings inside a list are shown in single quotes (escaping not modelled). */
  function Str(v: Value): string
    decreases v, 1
  {
    match v
    case VNone => "None"
    case VBool(b) => if b then "True" else "False"
    case VInt(i) => IntToString(i)
    case VStr(s) => s
    case VList(xs) => "[" + ReprList(xs) + "]"
  }

  function ReprList(xs: seq<Value>): string
    decreases xs, 0
  {
    if xs == [] then ""
    else
      var head := if xs[0].VStr? then "'" + xs[0].s + "'" else Str(xs[0]);
      if |xs| == 1 then head else head + ", " + ReprList(xs[1..])
  }

  /** Python `==` between JSON values (True == 1, False == 0). */
  predicate PyEq(a: Value, b: Value)
    decreases a, 1
  {
    match (a, b)
    case (VNone, VNone) => true
    case (VBool(x), VBool(y)) => x == y
    case (VInt(x), VInt(y)) => x == y
    case (VBool(x), VInt(y)) => (if x then 1 else 0) == y
    case (VInt(x), VBool(y)) => x == (if y then 1 else 0)
    case (VStr(x), VStr(y)) => x == y
    case (VList(xs), VList(ys)) => ListEq(xs, ys)
    case _ => false
  }

  predicate ListEq(xs: seq<Value>, ys: seq<Value>)
    decreases xs, 0
  {
    |xs| == |ys| && (xs == [] || (PyEq(xs[0], ys[0]) && ListEq(xs[1..], ys[1..])))
  }

  /** `x in xs` for a Python list, which compares with `==`. */
  predicate PyIn(x: Value, xs: seq<Value>) {
    exists i :: 0 <= i < |xs| && PyEq(x, xs[i])
  }

  // ---------------------------------------------------------------- characters

  predicate IsSpace(c: char) {
    var n := c as int;
    n == 32 || 9 <= n <= 13 || 28 <= n <= 31
  }

  predicate IsUpper(c: char) { 'A' <= c <= 'Z' }
  predicate IsLowerCase(c: char) { 'a' <= c <= 'z' }
  predicate IsLetter(c: char) { IsUpper(c) || IsLowerCase(c) }
  predicate IsDigit(c: char) { '0' <= c <= '9' }

  function LowerChar(c: char): char {
    if IsUpper(c) then (c as int + 32) as char else c
  }

  function UpperChar(c: char): char {
    if IsLowerCase(c) then (c as int - 32) as char else c
  }

  /** `s.lower()` */
  function Lower(s: string): string {
    seq(|s|, i requires 0 <= i < |s| => LowerChar(s[i]))
  }

  /** `s.upper()` */
  function Upper(s: string): string {
    seq(|s|, i requires 0 <= i < |s| => UpperChar(s[i]))
  }

  /** `s.title()`: a letter is upper-cased after a non-letter and lower-cased after a letter. */
  function Title(s: string): string {
    seq(|s|, i requires 0 <= i < |s| =>
      if i > 0 && IsLetter(s[i - 1]) then LowerChar(s[i]) else UpperChar(s[i]))
  }

  // ---------------------------------------------------------------- strip

  function TrimStart(s: string): string
    decreases |s|
  {
    if s != [] && IsSpace(s[0]) then TrimStart(s[1..]) else s
  }

  function TrimEnd(s: string): string
    decreases |s|
  {
    if s != [] && IsSpace(s[|s| - 1]) then TrimEnd(s[..|s| - 1]) else s
  }

  /** `s.strip()` */
  function Strip(s: string): string {
    TrimEnd(TrimStart(s))
  }

  /** A string is blank when it has nothing left after strip(). */
  predicate Blank(s: string) {
    Strip(s) == ""
  }

  // ---------------------------------------------------------------- substrings

  /** `needle in hay` for strings */
  predicate Contains(hay: string, needle: string) {
    exists i :: 0 <= i <= |hay| - |needle| && OccursAt(hay, needle, i)
  }

  predicate OccursAt(hay: string, needle: string, i: int) {
    0 <= i && i + |needle| <= |hay| && hay[i..i + |needle|] == needle
  }

  /** `s.startswith(p)` */
  predicate StartsWith(s: string, p: string) {
    |p| <= |s| && s[..|p|] == p
  }

  /** `s.upper().startswith("REQ-")` */
  predicate HasReqPrefix(s: string) {
    StartsWith(Upper(s), "REQ-")
  }

  /** `s.replace(pat, "")`: every non-overlapping occurrence, left to right, is deleted. */
  function DeleteAll(s: string, pat: string): string
    requires pat != []
    decreases |s|
  {
    if |s| < |pat| then s
    else if s[..|pat|] == pat then DeleteAll(s[|pat|..], pat)
    else [s[0]] + DeleteAll(s[1..], pat)
  }

  /** `s.split(c, 1)[1]`: the text after the first `c`. */
  function AfterFirst(s: string, c: char): string
    requires c in s
  {
    if s[0] == c then s[1..] else AfterFirst(s[1..], c)
  }

  /** `s.split(c)` */
  function Split(s: string, c: char): seq<string>
    decreases |s|
  {
    if c !in s then [s]
    else
      var k := IndexOf(s, c);
      [s[..k]] + Split(s[k + 1..], c)
  }

  function IndexOf(s: string, c: char): (k: nat)
    requires c in s
    ensures k < |s| && s[k] == c && c !in s[..k]
  {
    if s[0] == c then 0 else 1 + IndexOf(s[1..], c)
  }

  /** `s.rsplit(c, 1)[-1]` / `s.split(c)[-1]`: the text after the last `c`, or all of `s`. */
  function AfterLast(s: string, c: char): string
    decreases |s|
  {
    if c !in s then s else AfterLast(s[IndexOf(s, c) + 1..], c)
  }

  /** `sep.join(parts)` */
  function Join(sep: string, parts: seq<string>): string {
    if parts == [] then ""
    else if |parts| == 1 then parts[0]
    else parts[0] + sep + Join(sep, parts[1..])
  }

  // ---------------------------------------------------------------- integers

  function DigitChar(d: nat): char
    requires d < 10
  {
    ('0' as int + d) as char
  }

  function NatToString(n: nat): string {
    if n < 10 then [DigitChar(n)] else NatToString(n / 10) + [DigitChar(n % 10)]
  }

  /** `str(n)` for an int */
  function IntToString(n: int): string {
    if n < 0 then "-" + NatToString(-n) else NatToString(n)
  }

  /** `"%03d" % n` for a non-negative n */
  function Pad3(n: nat): string {
    var d := NatToString(n);
    if |d| >= 3 then d else seq(3 - |d|, _ => '0') + d
  }

  predicate AllDigits(s: string) {
    forall i :: 0 <= i < |s| ==> IsDigit(s[i])
  }

  function DigitsValue(s: string): nat
    requires AllDigits(s)
    decreases |s|
  {
    if s == [] then 0
    else DigitsValue(s[..|s| - 1]) * 10 + (s[|s| - 1] as int - '0' as int)
  }

  /** `int(s)` for a str: surrounding whitespace, an optional sign, ASCII digits. */
  function ParseInt(s: string): Option<int> {
    var t := Strip(s);
    if t == [] then None
    else
      var neg := t[0] == '-';
      var digits := if t[0] == '-' || t[0] == '+' then t[1..] else t;
      if digits != [] && AllDigits(digits) then
        var v: int := DigitsValue(digits);
        Some(if neg then -v else v)
      else None
  }

  /** `int(v)`; None where Python raises TypeError or ValueError. */
  function PyInt(v: Value): Option<int> {
    match v
    case VInt(i) => Some(i)
    case VBool(b) => Some(if b then 1 else 0)
    case VStr(s) => ParseInt(s)
    case _ => None
  }

  /** Python `a < b` on strings: lexicographic by code point. */
  predicate LexLess(a: string, b: string)
    decreases |a|
  {
    if a == [] then b != []
    else if b == [] then false
    else if a[0] != b[0] then a[0] < b[0]
    else LexLess(a[1..], b[1..])
  }

  // ---------------------------------------------------------------- lemmas

  lemma {:induction false} NatToStringDigits(n: nat)
    ensures NatToString(n) != [] && AllDigits(NatToString(n))
    ensures DigitsValue(NatToString(n)) == n
  {
    if n >= 10 {
      NatToStringDigits(n / 10);
      var s := NatToString(n);
      assert s == NatToString(n / 10) + [DigitChar(n % 10)];
      assert s[..|s| - 1] == NatToString(n / 10);
      assert s[|s| - 1] as int - '0' as int == n % 10;
      assert DigitsValue(s) == DigitsValue(NatToString(n / 10)) * 10 + n % 10;
    }
  }

  lemma {:induction false} NoSpaceStrips(s: string)
    requires forall i :: 0 <= i < |s| ==> !IsSpace(s[i])
    ensures Strip(s) == s
  {
  }

  /** `int(str(n)) == n` for every integer n. */
  lemma {:induction false} ParseIntToString(n: int)
    ensures ParseInt(IntToString(n)) == Some(n)
  {
    var s := IntToString(n);
    IntToStringShape(n);
    NoSpaceStrips(s);
    assert Strip(s) == s;
    if n < 0 {
      NatToStringDigits(-n);
      assert s[0] == '-' && s[1..] == NatToString(-n);
    } else {
      NatToStringDigits(n);
      assert IsDigit(s[0]);
    }
  }

  lemma {:induction false} IntToStringShape(n: int)
    ensures forall i :: 0 <= i < |IntToString(n)| ==> !IsSpace(IntToString(n)[i])
    ensures n < 0 ==> IntToString(n)[0] == '-' && IntToString(n)[1..] == NatToString(-n)
    ensures n >= 0 ==> IntToString(n) == NatToString(n)
  {
    var m: nat := if n < 0 then -n else n;
    var d := NatToString(m);
    NatToStringDigits(m);
    var s := IntToString(n);
    if n < 0 {
      assert s == "-" + d;
      assert forall i :: 1 <= i < |s| ==> s[i] == d[i - 1];
    }
  }

  /** `"%03d" % n` parses back to n and contains no '-'. */
  lemma {:induction false} ParsePad3(n: nat)
    ensures ParseInt(Pad3(n)) == Some(n)
    ensures '-' !in Pad3(n)
  {
    NatToStringDigits(n);
    var d := NatToString(n);
    var p := Pad3(n);
    assert AllDigits(p);
    LeadingZeros(d, |p| - |d|);
    assert forall i :: 0 <= i < |p| ==> !IsSpace(p[i]);
    NoSpaceStrips(p);
  }

  lemma {:induction false} LeadingZeros(d: string, k: nat)
    requires AllDigits(d)
    ensures AllDigits(seq(k, _ => '0') + d)
    ensures DigitsValue(seq(k, _ => '0') + d) == DigitsValue(d)
    decreases |d|
  {
    var p := seq(k, _ => '0') + d;
    if d == [] {
      ZerosValue(k);
      assert p == seq(k, _ => '0');
    } else {
      LeadingZeros(d[..|d| - 1], k);
      assert p[..|p| - 1] == seq(k, _ => '0') + d[..|d| - 1];
    }
  }

  lemma {:induction false} ZerosValue(k: nat)
    ensures AllDigits(seq(k, _ => '0'))
    ensures DigitsValue(seq(k, _ => '0')) == 0
  {
    if k > 0 {
      ZerosValue(k - 1);
      assert seq(k, _ => '0')[..k - 1] == seq(k - 1, _ => '0');
    }
  }

  /** Under a case-insensitive "REQ-" prefix, the text after the first '-' is the text after the prefix. */
  lemma ReqPrefixAfterFirst(s: string)
    requires HasReqPrefix(s)
    ensures '-' in s && AfterFirst(s, '-') == s[4..]
  {
    assert Upper(s)[..4] == "REQ-";
    assert Upper(s)[0] == 'R' && Upper(s)[1] == 'E' && Upper(s)[2] == 'Q' && Upper(s)[3] == '-';
    assert s[3] == '-';
    assert s[0] != '-' && s[1] != '-' && s[2] != '-';
    assert AfterFirst(s, '-') == AfterFirst(s[1..], '-') == AfterFirst(s[2..], '-') == AfterFirst(s[3..], '-');
  }

  lemma {:induction false} TrimStartShape(s: string)
    ensures |TrimStart(s)| <= |s| && TrimStart(s) == s[|s| - |TrimStart(s)|..]
    ensures TrimStart(s) != [] ==> !IsSpace(TrimStart(s)[0])
    ensures forall i :: 0 <= i < |s| - |TrimStart(s)| ==> IsSpace(s[i])
    decreases |s|
  {
    if s != [] && IsSpace(s[0]) {
      TrimStartShape(s[1..]);
    }
  }

  lemma {:induction false} TrimEndShape(s: string)
    ensures |TrimEnd(s)| <= |s| && TrimEnd(s) == s[..|TrimEnd(s)|]
    ensures TrimEnd(s) != [] ==> !IsSpace(TrimEnd(s)[|TrimEnd(s)| - 1])
    ensures forall i :: |TrimEnd(s)| <= i < |s| ==> IsSpace(s[i])
    decreases |s|
  {
    if s != [] && IsSpace(s[|s| - 1]) {
      TrimEndShape(s[..|s| - 1]);
    }
  }

  /** strip() leaves a string alone exactly when it has no whitespace at either end. */
  lemma {:induction false} StripFixpoint(s: string)
    ensures Strip(s) == s <==> (s == [] || (!IsSpace(s[0]) && !IsSpace(s[|s| - 1])))
  {
    if s == [] {
    } else if !IsSpace(s[0]) && !IsSpace(s[|s| - 1]) {
      assert TrimStart(s) == s;
    } else {
      TrimStartShape(s);
      TrimEndShape(TrimStart(s));
      if IsSpace(s[0]) {
        assert |TrimStart(s)| < |s|;
      } else {
        assert TrimStart(s) == s;
        assert |TrimEnd(s)| < |s|;
      }
    }
  }

  /** strip() is idempotent. */
  lemma StripIdempotent(s: string)
    ensures Strip(Strip(s)) == Strip(s)
  {
    var t := TrimStart(s);
    TrimStartShape(s);
    TrimEndShape(t);
    var u := TrimEnd(t);
    if u != [] {
      assert u[0] == t[0];
    }
    StripFixpoint(u);
  }

  /** The result of strip() has no whitespace at either end. */
  lemma StripEnds(s: string)
    ensures Strip(s) == [] || (!IsSpace(Strip(s)[0]) && !IsSpace(Strip(s)[|Strip(s)| - 1]))
  {
    StripIdempotent(s);
    StripFixpoint(Strip(s));
  }

  /** lower() keeps whitespace where it is, so it commutes with the stripped shape. */
  lemma LowerIdempotent(s: string)
    ensures Lower(Lower(s)) == Lower(s)
  {
  }

  /** The first `c` is at `n` when `s[n]` is `c` and no earlier character is. */
  lemma {:induction false} IndexOfAt(s: string, c: char, n: nat)
    requires n < |s| && s[n] == c && c !in s[..n]
    ensures c in s && IndexOf(s, c) == n
    decreases n
  {
    assert s[n] in s;
    if n > 0 {
      assert s[0] in s[..n];
      var t := s[1..];
      assert t[..n - 1] == s[1..n];
      assert forall x :: x in t[..n - 1] ==> x in s[..n];
      IndexOfAt(t, c, n - 1);
    }
  }

  /** A string without upper-case letters is its own lower-casing. */
  lemma LowerNoUpper(s: string)
    requires forall i :: 0 <= i < |s| ==> !IsUpper(s[i])
    ensures Lower(s) == s
  {
    assert forall i :: 0 <= i < |s| ==> Lower(s)[i] == s[i];
  }

  /** Lower-casing forgets whether the letters were upper-cased first. */
  lemma LowerOfUpper(s: string)
    ensures Lower(Upper(s)) == Lower(s)
  {
  }

  lemma LowerOfStripped(s: string)
    requires Strip(s) == s
    ensures Strip(Lower(s)) == Lower(s)
  {
    StripFixpoint(s);
    StripFixpoint(Lower(s));
  }

  /** `a < b`, `a == b` or `b < a` on strings. */
  lemma {:induction false} LexTrichotomy(a: string, b: string)
    ensures LexLess(a, b) || a == b || LexLess(b, a)
    decreases |a|
  {
    if a != [] && b != [] && a[0] == b[0] {
      LexTrichotomy(a[1..], b[1..]);
      if a[1..] == b[1..] {
        assert a == [a[0]] + a[1..] && b == [b[0]] + b[1..];
      }
    }
  }

  lemma {:induction false} LexTransitive(a: string, b: string, c: string)
    requires LexLess(a, b) && LexLess(b, c)
    ensures LexLess(a, c)
    decreases |a|
  {
    if a != [] && a[0] == b[0] && b[0] == c[0] {
      LexTransitive(a[1..], b[1..], c[1..]);
    }
  }

  lemma {:induction false} LexIrreflexive(a: string)
    ensures !LexLess(a, a)
    decreases |a|
  {
    if a != [] {
      LexIrreflexive(a[1..]);
    }
  }

  /** Splitting at the first separator. */
  lemma SplitFirst(a: string, c: char, b: string)
    requires c !in a
    ensures Split(a + [c] + b, c) == [a] + Split(b, c)
  {
    var s := a + [c] + b;
    assert s[|a|] == c;
    var k := IndexOf(s, c);
    assert s[..|a|] == a;
    assert k == |a|;
    assert s[..k] == a && s[k + 1..] == b;
  }

  /** Splitting a join at a separator that occurs in no part gives the parts back. */
  lemma {:induction false} SplitJoin(c: char, parts: seq<string>)
    requires parts != []
    requires forall i :: 0 <= i < |parts| ==> c !in parts[i]
    ensures Split(Join([c], parts), c) == parts
    decreases |parts|
  {
    if |parts| == 1 {
      assert Join([c], parts) == parts[0];
    } else {
      var rest := parts[1..];
      assert forall i :: 0 <= i < |rest| ==> c !in rest[i] by {
        forall i | 0 <= i < |rest| ensures c !in rest[i] {
          assert rest[i] == parts[i + 1];
        }
      }
      SplitJoin(c, rest);
      assert Join([c], parts) == parts[0] + [c] + Join([c], rest);
      SplitFirst(parts[0], c, Join([c], rest));
      assert parts == [parts[0]] + rest;
    }
  }

  /** Each line followed by a newline: the text a run of newline-terminated f-string pieces builds. */
  function Terminated(lines: seq<string>): string {
    if lines == [] then "" else lines[0] + "\n" + Terminated(lines[1..])
  }

  /** Splitting newline-terminated lines at newlines gives the lines and a final empty piece. */
  lemma {:induction false} SplitTerminated(lines: seq<string>)
    requires forall i :: 0 <= i < |lines| ==> '\n' !in lines[i]
    ensures Split(Terminated(lines), '\n') == lines + [""]
    decreases |lines|
  {
    if lines != [] {
      SplitTerminated(lines[1..]);
      SplitFirst(lines[0], '\n', Terminated(lines[1..]));
      assert [lines[0]] + (lines[1..] + [""]) == lines + [""];
    }
  }

  /** A string contains every piece it is built from. */
  lemma ContainsMiddle(a: string, b: string, c: string)
    ensures Contains(a + b + c, b)
  {
    assert OccursAt(a + b + c, b, |a|) by {
      assert (a + b + c)[|a|..|a| + |b|] == b;
    }
  }

  /** A character of the needle occurs in any string that contains the needle. */
  lemma ContainsChar(hay: string, needle: string, c: char)
    requires Contains(hay, needle) && c in needle
    ensures c in hay
  {
    var i :| 0 <= i <= |hay| - |needle| && OccursAt(hay, needle, i);
    var j :| 0 <= j < |needle| && needle[j] == c;
    assert hay[i..i + |needle|][j] == hay[i + j];
  }

  /** A needle with a character the haystack lacks does not occur in it. */
  lemma NotContainsChar(hay: string, needle: string, c: char)
    requires c in needle && c !in hay
    ensures !Contains(hay, needle)
  {
    var j :| 0 <= j < |needle| && needle[j] == c;
    forall i | 0 <= i <= |hay| - |needle| ensures !OccursAt(hay, needle, i) {
      assert hay[i..i + |needle|][j] == hay[i + j];
      assert hay[i + j] in hay;
    }
  }
}
