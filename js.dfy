/** The JavaScript values that request bodies and database rows carry, and
    the three pieces of JavaScript semantics the handlers rely on:
    truthiness (`if (!x)`, `x || d`), conversion to a string (`String(x)`,
    `arr.join(',')`) and `parseInt`. Numbers are integers only. */
module Js {

  import opened Common
  import Text

  datatype Value =
    | Undefined
    | Null
    | Bool(b: bool)
    | Num(n: int)
    | Str(s: string)
    | Arr(items: seq<Value>)
    | Obj(fields: seq<(string, Value)>)

  /** ToBoolean: undefined, null, false, 0 and "" are falsy; every array and
      object is truthy. */
  predicate Truthy(v: Value) {
    match v
    case Undefined => false
    case Null => false
    case Bool(b) => b
    case Num(n) => n != 0
    case Str(s) => s != ""
    case Arr(_) => true
    case Obj(_) => true
  }

  /** `a || b`: a when it is truthy, b otherwise. */
  function Or(a: Value, b: Value): (r: Value)
    ensures Truthy(a) ==> r == a
    ensures !Truthy(a) ==> r == b
  {
    if Truthy(a) then a else b
  }

  /** `x || null` and `x || fallback` return either x itself or the fallback:
      nothing falsy survives unless it is the fallback. */
  lemma OrTruthy(a: Value, b: Value)
    ensures Truthy(Or(a, b)) <==> Truthy(a) || Truthy(b)
  {
  }

  /** A JavaScript string value, or undefined/null when absent. */
  function OfString(s: Option<string>): Value
  {
    match s
    case Some(x) => Str(x)
    case None => Null
  }

  /** A string-or-null that is truthy: present and not empty. */
  predicate Given(v: Option<string>) {
    Truthy(OfString(v))
  }

  /** `v || null` for a string-or-null: the empty string becomes null. */
  function OrNull(v: Option<string>): (r: Option<string>)
    ensures r.Some? <==> v.Some? && v.value != ""
    ensures r.Some? ==> r == v
  {
    if Given(v) then v else None
  }

  // ---------------------------------------------------------------------
  // Decimal digits

  predicate IsDigit(c: char) { '0' <= c <= '9' }

  function DigitChar(d: int): (c: char)
    requires 0 <= d < 10
    ensures IsDigit(c)
  {
    ('0' as int + d) as char
  }

  /** The decimal rendering of a natural number, most significant digit
      first and without leading zeros. */
  function ShowNat(n: nat): (r: string)
    ensures |r| >= 1
    ensures forall i :: 0 <= i < |r| ==> IsDigit(r[i])
    ensures |r| > 1 ==> r[0] != '0'
  {
    if n < 10 then [DigitChar(n)] else ShowNat(n / 10) + [DigitChar(n % 10)]
  }

  /** `String(n)` for an integer. */
  function ShowInt(n: int): (r: string)
    ensures |r| >= 1
  {
    if n < 0 then "-" + ShowNat(-n) else ShowNat(n)
  }

  function DigitValue(c: char): (d: nat)
    requires IsDigit(c)
    ensures d < 10
  {
    c as int - '0' as int
  }

  /** The value of a string of decimal digits. */
  function DigitsValue(ds: string): nat
    requires forall i :: 0 <= i < |ds| ==> IsDigit(ds[i])
  {
    if ds == [] then 0
    else DigitsValue(ds[..|ds| - 1]) * 10 + DigitValue(ds[|ds| - 1])
  }

  lemma {:induction false} DigitsValueShowNat(n: nat)
    ensures DigitsValue(ShowNat(n)) == n
  {
    if n >= 10 {
      var r := ShowNat(n);
      assert r[..|r| - 1] == ShowNat(n / 10);
      DigitsValueShowNat(n / 10);
    }
  }

  // ---------------------------------------------------------------------
  // String conversion

  /** `String(v)`; an array converts as `v.join(',')` and every plain object
      as "[object Object]". */
  function ToStr(v: Value): string
    decreases v, 2
  {
    match v
    case Undefined => "undefined"
    case Null => "null"
    case Bool(b) => if b then "true" else "false"
    case Num(n) => ShowInt(n)
    case Str(s) => s
    case Arr(items) => JoinValues(items, ",")
    case Obj(_) => "[object Object]"
  }

  /** `arr.join(sep)`: each element as a string, except that undefined and
      null elements become the empty string. */
  function JoinValues(items: seq<Value>, sep: string): (r: string)
    decreases items, 1
  {
    Text.Join(JoinPieces(items), sep)
  }

  function JoinPieces(items: seq<Value>): (r: seq<string>)
    ensures |r| == |items|
    decreases items, 0
  {
    if items == [] then []
    else
      var first := if items[0] == Undefined || items[0] == Null then "" else ToStr(items[0]);
      [first] + JoinPieces(items[1..])
  }

  /** Joining strings converts each of them to itself. */
  lemma {:induction false} JoinPiecesStrings(parts: seq<string>)
    ensures JoinPieces(Strs(parts)) == parts
  {
    if parts != [] {
      assert Strs(parts)[1..] == Strs(parts[1..]);
      JoinPiecesStrings(parts[1..]);
    }
  }

  /** A sequence of JavaScript strings. */
  function Strs(parts: seq<string>): (r: seq<Value>)
    ensures |r| == |parts|
    ensures forall i :: 0 <= i < |parts| ==> r[i] == Str(parts[i])
  {
    seq(|parts|, i requires 0 <= i < |parts| => Str(parts[i]))
  }

  // ---------------------------------------------------------------------
  // parseInt

  /** The longest prefix of s whose characters satisfy p. */
  function PrefixWhile(s: string, p: char -> bool): (r: string)
    ensures |r| <= |s| && r == s[..|r|]
    ensures forall i :: 0 <= i < |r| ==> p(r[i])
    ensures |r| < |s| ==> !p(s[|r|])
  {
    if s == [] || !p(s[0]) then "" else [s[0]] + PrefixWhile(s[1..], p)
  }

  /** The prefix stops exactly where the characters stop satisfying p. */
  lemma {:induction false} PrefixWhileAll(a: string, b: string, p: char -> bool)
    requires forall i :: 0 <= i < |a| ==> p(a[i])
    requires b == [] || !p(b[0])
    ensures PrefixWhile(a + b, p) == a
  {
    if a == [] {
      assert a + b == b;
    } else {
      assert (a + b)[1..] == a[1..] + b;
      PrefixWhileAll(a[1..], b, p);
      assert a == [a[0]] + a[1..];
    }
  }

  predicate IsHexDigit(c: char) { Text.HexValue(c).Some? }

  function HexDigitValue(c: char): (d: nat)
    requires IsHexDigit(c)
    ensures d < 16
  {
    match Text.HexValue(c)
    case Some(v) => v
  }

  /** The value of a string of hexadecimal digits. */
  function HexDigitsValue(ds: string): nat
    requires forall i :: 0 <= i < |ds| ==> IsHexDigit(ds[i])
  {
    if ds == [] then 0
    else HexDigitsValue(ds[..|ds| - 1]) * 16 + HexDigitValue(ds[|ds| - 1])
  }

  /** A "0x" or "0X" prefix. */
  predicate HasHexPrefix(body: string) {
    |body| >= 2 && body[0] == '0' && (body[1] == 'x' || body[1] == 'X')
  }

  /** The unsigned part of parseInt: base 16 after a hex prefix, base 10
      otherwise, reading the longest run of digits; None when there is none. */
  function ParseMagnitude(body: string): Option<nat>
  {
    if HasHexPrefix(body) then
      var ds := PrefixWhile(body[2..], IsHexDigit);
      if ds == [] then None else Some(HexDigitsValue(ds))
    else
      var ds := PrefixWhile(body, IsDigit);
      if ds == [] then None else Some(DigitsValue(ds))
  }

  /** `parseInt(s)` without a radix: leading white space is skipped, then
      an optional sign, then a "0x"/"0X" prefix selects base 16; the longest
      run of digits that follows is read and the rest ignored. None stands
      for NaN, the result when no digit follows. */
  function ParseInt(s: string): (r: Option<int>)
  {
    var t := Text.TrimStart(s);
    if |t| > 0 && t[0] == '-' then Signed(ParseMagnitude(t[1..]), true)
    else if |t| > 0 && t[0] == '+' then Signed(ParseMagnitude(t[1..]), false)
    else Signed(ParseMagnitude(t), false)
  }

  function Signed(m: Option<nat>, negative: bool): Option<int>
  {
    match m
    case None => None
    case Some(v) => var w: int := v; Some(if negative then -w else w)
  }

  /** The digits of a natural number, followed by anything that does not
      continue them, read back as that number. */
  lemma MagnitudeShowNat(n: nat, suffix: string)
    requires suffix == [] || (!IsDigit(suffix[0]) && suffix[0] != 'x' && suffix[0] != 'X')
    ensures ParseMagnitude(ShowNat(n) + suffix) == Some(n)
  {
    var digits := ShowNat(n);
    var s := digits + suffix;
    assert !HasHexPrefix(s) by {
      if |s| >= 2 && |digits| == 1 {
        assert s[1] == suffix[0];
      }
    }
    PrefixWhileAll(digits, suffix, IsDigit);
    DigitsValueShowNat(n);
  }

  /** parseInt reads back every integer that String() renders. */
  lemma ParseIntShowInt(n: int)
    ensures ParseInt(ShowInt(n)) == Some(n)
  {
    var m: nat := if n < 0 then -n else n;
    var digits := ShowNat(m);
    MagnitudeShowNat(m, "");
    assert digits + "" == digits;
    var s := ShowInt(n);
    Text.TrimStartNoSpace(s);
    if n < 0 {
      assert s[0] == '-' && s[1..] == digits;
    } else {
      assert s[0] == digits[0];
    }
  }

  /** `parseInt` stops at the first character that is not a digit (an "x"
      right after a lone "0" would select base 16 instead). */
  lemma ParseIntIgnoresSuffix(n: nat, suffix: string)
    requires suffix == [] || (!IsDigit(suffix[0]) && suffix[0] != 'x' && suffix[0] != 'X')
    ensures ParseInt(ShowNat(n) + suffix) == Some(n)
  {
    MagnitudeShowNat(n, suffix);
    UnsignedParse(ShowNat(n) + suffix, n);
  }

  /** Input that starts with a digit has no sign and no leading space. */
  lemma UnsignedParse(s: string, n: nat)
    requires s != [] && IsDigit(s[0])
    requires ParseMagnitude(s) == Some(n)
    ensures ParseInt(s) == Some(n)
  {
    Text.TrimStartNoSpace(s);
  }
}
