/** The slice of JavaScript's value semantics the request handler relies on:
    the values a parsed JSON body can hold, truthiness, and String.prototype.trim. */
module Js {

  /** A value of the parsed request body. A member the body does not have
      reads as Undefined. JSON numbers are taken as exact reals. An object's
      members are not modelled, because the handler reads none of them. */
  datatype Value =
    | Undefined
    | Null
    | Bool(b: bool)
    | Num(x: real)
    | Str(s: string)
    | Arr(items: seq<Value>)
    | Obj

  /** ECMAScript ToBoolean: what `!v` and `v ? a : b` test. Every array and
      object is truthy, including the empty ones. */
  predicate Truthy(v: Value) {
    match v
    case Undefined => false
    case Null => false
    case Bool(b) => b
    case Num(x) => x != 0.0
    case Str(s) => s != ""
    case Arr(_) => true
    case Obj => true
  }

  /** The characters `trim` removes: ECMAScript WhiteSpace (tab, vertical tab,
      form feed, no-break space, the byte order mark and every Zs space
      separator) and LineTerminator (line feed, carriage return, the line and
      paragraph separators). */
  predicate IsWhitespace(c: char) {
    var n := c as int;
    n == 0x09 || n == 0x0A || n == 0x0B || n == 0x0C || n == 0x0D
    || n == 0x20 || n == 0xA0 || n == 0x1680 || (0x2000 <= n <= 0x200A)
    || n == 0x2028 || n == 0x2029 || n == 0x202F || n == 0x205F
    || n == 0x3000 || n == 0xFEFF
  }

  predicate AllWhitespace(s: string) {
    forall i :: 0 <= i < |s| ==> IsWhitespace(s[i])
  }

  /** A string with nothing for `trim` to remove at either end. */
  predicate Unpadded(t: string) {
    t == "" || (!IsWhitespace(t[0]) && !IsWhitespace(t[|t| - 1]))
  }

  /** The length of the whitespace run that starts `s`. */
  function LeadingWhitespace(s: string): (k: nat)
    ensures k <= |s|
    ensures AllWhitespace(s[..k])
    ensures k < |s| ==> !IsWhitespace(s[k])
  {
    if s == [] || !IsWhitespace(s[0]) then 0
    else
      var k := 1 + LeadingWhitespace(s[1..]);
      assert s[..k] == [s[0]] + s[1..][..k - 1];
      k
  }

  /** Where the whitespace run that ends `s` begins. */
  function TrailingWhitespace(s: string): (k: nat)
    ensures k <= |s|
    ensures AllWhitespace(s[k..])
    ensures k > 0 ==> !IsWhitespace(s[k - 1])
  {
    if s == [] || !IsWhitespace(s[|s| - 1]) then |s|
    else
      var k := TrailingWhitespace(s[..|s| - 1]);
      assert s[k..] == s[..|s| - 1][k..] + [s[|s| - 1]];
      k
  }

  /** String.prototype.trim: `s` with the whitespace removed from both ends.
      The result is a contiguous piece of `s`, everything cut off is
      whitespace, and nothing more could be cut. */
  function Trim(s: string): (t: string)
    ensures |t| <= |s|
    ensures Unpadded(t)
    ensures exists i :: 0 <= i <= |s| - |t| && s[i..i + |t|] == t
                        && AllWhitespace(s[..i]) && AllWhitespace(s[i + |t|..])
  {
    var i := LeadingWhitespace(s);
    var rest := s[i..];
    var j := TrailingWhitespace(rest);
    assert rest[..j] == s[i..i + j];
    assert s[i + j..] == rest[j..];
    assert rest[..j] != "" ==> rest[..j][0] == s[i];
    rest[..j]
  }

  /** Trim is fully determined by its contract: padding a string that has
      no whitespace at its ends with whitespace on both sides, and trimming,
      gives that string back. */
  lemma {:induction false} TrimOfPadded(a: string, b: string, c: string)
    requires AllWhitespace(a) && AllWhitespace(c) && Unpadded(b)
    ensures Trim(a + b + c) == b
  {
    var s := a + b + c;
    var i := LeadingWhitespace(s);
    if b == "" {
      assert s == a + c;
      assert AllWhitespace(s);
      assert i == |s|;
    } else {
      assert s[|a|] == b[0];
      assert forall m :: 0 <= m < |a| ==> s[m] == a[m];
      assert i == |a|;
      var rest := s[i..];
      assert rest == b + c;
      var j := TrailingWhitespace(rest);
      assert rest[|b| - 1] == b[|b| - 1];
      assert forall m :: |b| <= m < |rest| ==> rest[m] == c[m - |b|];
      assert j == |b|;
      assert rest[..j] == b;
    }
  }

  /** Trimming twice is trimming once. */
  lemma TrimIdempotent(s: string)
    ensures Trim(Trim(s)) == Trim(s)
  {
    TrimOfPadded("", Trim(s), "");
    assert "" + Trim(s) + "" == Trim(s);
  }

  /** A string of whitespace only trims to the empty string. */
  lemma TrimAllWhitespace(s: string)
    requires AllWhitespace(s)
    ensures Trim(s) == ""
  {
    TrimOfPadded(s, "", "");
    assert s + "" + "" == s;
  }
}
