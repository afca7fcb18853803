/** The recogniser for the image payloads the handler accepts, the regular
    expression `^data:([A-Za-z-+/]+);base64,(.+)$` written out by hand.

    In the character class the `-` after `a-z` is a literal, so the MIME part
    is a non-empty run of ASCII letters, `-`, `+` and `/`. It cannot contain
    `;`, so the place where `;base64,` starts is unique. The payload is
    non-empty and, since `.` does not match line terminators and `$` (without
    the multiline flag) only matches at the end of the input, contains no
    line terminator. */
module DataUri {
  import opened Wrappers

  /** The two capture groups of a successful match. */
  datatype DataUri = DataUri(mime: string, payload: string)

  const Scheme: string := "data:"
  const Marker: string := ";base64,"

  predicate IsMimeChar(c: char) {
    ('A' <= c <= 'Z') || ('a' <= c <= 'z') || c == '-' || c == '+' || c == '/'
  }

  /** The characters `.` does not match. */
  predicate IsLineTerminator(c: char) {
    c == '\n' || c == '\r' || c as int == 0x2028 || c as int == 0x2029
  }

  predicate IsMime(m: string) {
    |m| > 0 && forall i :: 0 <= i < |m| ==> IsMimeChar(m[i])
  }

  predicate IsPayload(p: string) {
    |p| > 0 && forall i :: 0 <= i < |p| ==> !IsLineTerminator(p[i])
  }

  /** The string a data URI with these groups spells. */
  function Compose(u: DataUri): string {
    Scheme + u.mime + Marker + u.payload
  }

  /** The length of the longest prefix of `s` made of MIME characters: how
      far the greedy `[A-Za-z-+/]+` can run. */
  function MimeRun(s: string): (k: nat)
    ensures k <= |s|
    ensures forall i :: 0 <= i < k ==> IsMimeChar(s[i])
    ensures k < |s| ==> !IsMimeChar(s[k])
  {
    if s == [] || !IsMimeChar(s[0]) then 0 else 1 + MimeRun(s[1..])
  }

  /** `s.match(...)`: the capture groups, or None when the pattern does not
      match. Whatever it returns spells `s` back. */
  function Match(s: string): (r: Option<DataUri>)
    ensures r.Some? ==> IsMime(r.value.mime) && IsPayload(r.value.payload)
    ensures r.Some? ==> Compose(r.value) == s
  {
    if |s| < |Scheme| || s[..|Scheme|] != Scheme then None
    else
      var rest := s[|Scheme|..];
      var k := MimeRun(rest);
      var tail := rest[k..];
      if k == 0 || |tail| < |Marker| || tail[..|Marker|] != Marker then None
      else
        var payload := tail[|Marker|..];
        if !IsPayload(payload) then None
        else
          assert rest == rest[..k] + Marker + payload;
          assert s == Scheme + rest;
          Some(DataUri(rest[..k], payload))
  }

  /** Every well-formed data URI is recognised, with exactly the groups it
      was built from. */
  lemma MatchComplete(u: DataUri)
    requires IsMime(u.mime) && IsPayload(u.payload)
    ensures Match(Compose(u)) == Some(u)
  {
    var s := Compose(u);
    var m := u.mime;
    assert s[..|Scheme|] == Scheme;
    var rest := s[|Scheme|..];
    assert rest == m + Marker + u.payload;
    assert rest[|m|] == ';';
    assert forall i :: 0 <= i < |m| ==> rest[i] == m[i];
    assert MimeRun(rest) == |m|;
    assert rest[|m|..] == Marker + u.payload;
    assert rest[..|m|] == m;
  }

  /** The recogniser accepts exactly the strings the pattern describes. */
  lemma MatchIff(s: string)
    ensures Match(s).Some? <==>
            exists u: DataUri :: IsMime(u.mime) && IsPayload(u.payload) && Compose(u) == s
  {
    if u: DataUri :| IsMime(u.mime) && IsPayload(u.payload) && Compose(u) == s {
      MatchComplete(u);
    }
  }
}
