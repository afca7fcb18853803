/** The photo loop of the create handler: which entries of `photos` end up
    as files in the upload directory, under which names, and which paths the
    handler collects in `savedImagePaths`.

    The clock is an input: `stamp(i)` is what `Date.now()` returns while
    entry `i` is being saved. Failed writes are an input too: `refused` holds
    the file names whose `writeFileSync` throws. */
module ImageStore {
  import opened Js
  import opened DataUri

  /** An uploaded file: the bytes base64-decoding `payload` gives. Decoding
      itself is not modelled. */
  datatype Image = Decoded(payload: string)

  predicate IsDigit(c: char) {
    '0' <= c <= '9'
  }

  predicate IsDigits(s: string) {
    forall i :: 0 <= i < |s| ==> IsDigit(s[i])
  }

  function DigitChar(d: nat): (c: char)
    requires d < 10
    ensures IsDigit(c) && c as int - '0' as int == d
  {
    ('0' as int + d) as char
  }

  /** A decimal rendering without leading zeros: `0` itself, or digits
      that do not start with `0`. */
  predicate IsCanonical(s: string) {
    |s| > 0 && IsDigits(s) && (s[0] == '0' ==> s == "0")
  }

  /** A non-negative integer written in decimal, as a template literal
      renders it: no leading zeros. */
  function Decimal(n: nat): (s: string)
    ensures IsCanonical(s)
    decreases n, 0
  {
    if n < 10 then [DigitChar(n)]
    else
      DecimalValue(n / 10);
      assert Decimal(n / 10) != "0";
      Decimal(n / 10) + [DigitChar(n % 10)]
  }

  /** The number a string of decimal digits denotes. */
  function DigitsValue(s: string): nat
    requires IsDigits(s)
  {
    if s == [] then 0 else 10 * DigitsValue(s[..|s| - 1]) + (s[|s| - 1] as int - '0' as int)
  }

  /** Reading back a decimal rendering gives the number. */
  lemma {:induction false} DecimalValue(n: nat)
    ensures DigitsValue(Decimal(n)) == n
    decreases n, 1
  {
    if n >= 10 {
      DecimalValue(n / 10);
      var s := Decimal(n);
      assert s[..|s| - 1] == Decimal(n / 10);
    }
  }

  /** The position of the first `_` in `s`, or `|s|` when there is none. */
  function FirstUnderscore(s: string): (k: nat)
    ensures k <= |s|
  {
    if s == [] || s[0] == '_' then 0 else 1 + FirstUnderscore(s[1..])
  }

  lemma {:induction false} FirstUnderscoreAfterDigits(x: string, y: string)
    requires IsDigits(x)
    ensures FirstUnderscore(x + "_" + y) == |x|
  {
    if x != [] {
      assert (x + "_" + y)[1..] == x[1..] + "_" + y;
      FirstUnderscoreAfterDigits(x[1..], y);
    }
  }

  /** `name` is `book_`, the canonical decimal of `stamp`, `_`, the canonical
      decimal of `index`, and `.jpg`. */
  ghost predicate NamesBook(name: string, stamp: nat, index: nat) {
    exists x, y :: IsCanonical(x) && IsCanonical(y) && DigitsValue(x) == stamp && DigitsValue(y) == index
                   && name == "book_" + x + "_" + y + ".jpg"
  }

  /** `book_${Date.now()}_${index}.jpg` */
  function ImageName(stamp: nat, index: nat): string {
    "book_" + Decimal(stamp) + "_" + Decimal(index) + ".jpg"
  }

  /** A file name spells its clock reading and its index in decimal without
      leading zeros, between `book_`, `_` and `.jpg`. */
  lemma ImageNameSpelling(stamp: nat, index: nat)
    ensures NamesBook(ImageName(stamp, index), stamp, index)
  {
    DecimalValue(stamp);
    DecimalValue(index);
    assert IsCanonical(Decimal(stamp)) && IsCanonical(Decimal(index));
  }

  /** `/uploads/${imageName}` */
  function UploadPath(name: string): string {
    "/uploads/" + name
  }

  /** The part of a file name after `book_`. */
  function NameTail(stamp: nat, index: nat): string {
    Decimal(stamp) + "_" + (Decimal(index) + ".jpg")
  }

  lemma ImageNameTail(stamp: nat, index: nat)
    ensures ImageName(stamp, index) == "book_" + NameTail(stamp, index)
  {
  }

  /** `x + "_" + y` with `x` made of digits determines `x` and `y`. */
  lemma SplitAtUnderscore(x: string, y: string, u: string, v: string)
    requires IsDigits(x) && IsDigits(u)
    ensures x + "_" + y == u + "_" + v ==> x == u && y == v
  {
    if x + "_" + y == u + "_" + v {
      FirstUnderscoreAfterDigits(x, y);
      FirstUnderscoreAfterDigits(u, v);
      var w := x + "_" + y;
      assert x == w[..|x|];
      assert u == w[..|u|];
      assert y == w[|x| + 1..];
      assert v == w[|u| + 1..];
    }
  }

  /** Two strings that differ only in a common prefix or suffix are equal. */
  lemma CancelAffixes(p: string, x: string, y: string, q: string)
    ensures p + x + q == p + y + q ==> x == y
  {
    if p + x + q == p + y + q {
      assert x == (p + x + q)[|p|..|p| + |x|];
      assert y == (p + y + q)[|p|..|p| + |y|];
    }
  }

  /** A file name determines the clock reading and the index it was made
      from: the clock reading has no `_`, so the first `_` after `book_`
      separates the two numbers. */
  lemma ImageNameInjective(t1: nat, i1: nat, t2: nat, i2: nat)
    ensures ImageName(t1, i1) == ImageName(t2, i2) ==> t1 == t2 && i1 == i2
  {
    ImageNameTail(t1, i1);
    ImageNameTail(t2, i2);
    CancelAffixes("book_", NameTail(t1, i1), NameTail(t2, i2), "");
    assert "book_" + NameTail(t1, i1) + "" == ImageName(t1, i1);
    assert "book_" + NameTail(t2, i2) + "" == ImageName(t2, i2);
    SplitAtUnderscore(Decimal(t1), Decimal(i1) + ".jpg", Decimal(t2), Decimal(i2) + ".jpg");
    CancelAffixes("", Decimal(i1), Decimal(i2), ".jpg");
    assert "" + Decimal(i1) + ".jpg" == Decimal(i1) + ".jpg";
    assert "" + Decimal(i2) + ".jpg" == Decimal(i2) + ".jpg";
    DecimalValue(t1);
    DecimalValue(t2);
    DecimalValue(i1);
    DecimalValue(i2);
  }

  /** An upload path names the file it was made from. */
  lemma UploadPathInjective(n1: string, n2: string)
    ensures UploadPath(n1) == UploadPath(n2) ==> n1 == n2
  {
    assert UploadPath(n1)[9..] == n1;
    assert UploadPath(n2)[9..] == n2;
  }

  /** Whether entry `index` of the batch is saved: it is a string (`match`
      on any other value throws, and the per-image handler swallows it), the
      data-URI pattern matches it, and the filesystem accepts the write. */
  predicate Saves(entry: Value, index: nat, stamp: nat -> nat, refused: set<string>) {
    entry.Str? && Match(entry.s).Some? && ImageName(stamp(index), index) !in refused
  }

  /** The indices of the saved entries, in increasing order; with
      SavedIndicesComplete, exactly the entries `Saves` holds of. */
  function SavedIndices(entries: seq<Value>, stamp: nat -> nat, refused: set<string>): (ix: seq<nat>)
    ensures |ix| <= |entries|
    ensures forall k :: 0 <= k < |ix| ==> ix[k] < |entries| && Saves(entries[ix[k]], ix[k], stamp, refused)
    ensures forall j, k :: 0 <= j < k < |ix| ==> ix[j] < ix[k]
  {
    if entries == [] then []
    else
      var n := |entries| - 1;
      var front := entries[..n];
      assert forall i :: 0 <= i < n ==> front[i] == entries[i];
      SavedIndices(front, stamp, refused) + (if Saves(entries[n], n, stamp, refused) then [n] else [])
  }

  /** Every entry that is saved has its index among the saved indices. */
  lemma {:induction false} SavedIndicesComplete(entries: seq<Value>, stamp: nat -> nat, refused: set<string>, i: nat)
    requires i < |entries| && Saves(entries[i], i, stamp, refused)
    ensures i in SavedIndices(entries, stamp, refused)
  {
    var n := |entries| - 1;
    if i < n {
      assert entries[..n][i] == entries[i];
      SavedIndicesComplete(entries[..n], stamp, refused, i);
    }
  }

  /** `savedImagePaths` after the loop: one path per saved entry, in input
      order, each naming the file written for that entry. */
  function SavedPaths(entries: seq<Value>, stamp: nat -> nat, refused: set<string>): (paths: seq<string>)
    ensures |paths| == |SavedIndices(entries, stamp, refused)|
    ensures forall k :: 0 <= k < |paths| ==>
      var i := SavedIndices(entries, stamp, refused)[k];
      paths[k] == UploadPath(ImageName(stamp(i), i))
  {
    if entries == [] then []
    else
      var n := |entries| - 1;
      SavedPaths(entries[..n], stamp, refused)
        + (if Saves(entries[n], n, stamp, refused) then [UploadPath(ImageName(stamp(n), n))] else [])
  }

  /** The upload directory after the loop: the file of every saved entry
      written over what was there. The loop never removes a file, and it adds
      at most one file per entry. */
  function Uploaded(uploads: map<string, Image>, entries: seq<Value>, stamp: nat -> nat,
                    refused: set<string>): (u: map<string, Image>)
    ensures uploads.Keys <= u.Keys
    ensures |u.Keys| <= |uploads.Keys| + |entries|
  {
    if entries == [] then uploads
    else
      var n := |entries| - 1;
      var before := Uploaded(uploads, entries[..n], stamp, refused);
      if Saves(entries[n], n, stamp, refused)
      then before[ImageName(stamp(n), n) := Decoded(Match(entries[n].s).value.payload)]
      else before
  }

  /** One more entry of the loop: the path list and the upload directory
      grow by that entry's path and file exactly when it is saved. */
  lemma SavedStep(uploads: map<string, Image>, entries: seq<Value>, stamp: nat -> nat,
                  refused: set<string>, n: nat)
    requires n < |entries|
    ensures SavedPaths(entries[..n + 1], stamp, refused) == SavedPaths(entries[..n], stamp, refused)
      + (if Saves(entries[n], n, stamp, refused) then [UploadPath(ImageName(stamp(n), n))] else [])
    ensures Uploaded(uploads, entries[..n + 1], stamp, refused) ==
      if Saves(entries[n], n, stamp, refused)
      then Uploaded(uploads, entries[..n], stamp, refused)[ImageName(stamp(n), n) := EntryImage(entries[n])]
      else Uploaded(uploads, entries[..n], stamp, refused)
  {
    assert entries[..n + 1][..n] == entries[..n];
    assert entries[..n + 1][n] == entries[n];
  }

  /** Whether `name` is the file of some saved entry of the batch. */
  ghost predicate InBatch(name: string, entries: seq<Value>, stamp: nat -> nat, refused: set<string>) {
    exists i :: 0 <= i < |entries| && Saves(entries[i], i, stamp, refused) && name == ImageName(stamp(i), i)
  }

  /** `savedImagePaths` is never longer than `photos` and holds no path
      twice. (That the paths follow the input order is SavedPaths' contract
      over the increasing SavedIndices.) */
  lemma SavedPathsDistinct(entries: seq<Value>, stamp: nat -> nat, refused: set<string>)
    ensures |SavedPaths(entries, stamp, refused)| <= |entries|
    ensures forall j, k :: 0 <= j < k < |SavedPaths(entries, stamp, refused)| ==>
      SavedPaths(entries, stamp, refused)[j] != SavedPaths(entries, stamp, refused)[k]
  {
    var ix := SavedIndices(entries, stamp, refused);
    var paths := SavedPaths(entries, stamp, refused);
    forall j, k | 0 <= j < k < |paths|
      ensures paths[j] != paths[k]
    {
      ImageNameInjective(stamp(ix[j]), ix[j], stamp(ix[k]), ix[k]);
      UploadPathInjective(ImageName(stamp(ix[j]), ix[j]), ImageName(stamp(ix[k]), ix[k]));
    }
  }

  /** A file of a prefix of the batch is a file of the batch. */
  lemma InBatchPrefix(name: string, entries: seq<Value>, n: nat, stamp: nat -> nat, refused: set<string>)
    requires n <= |entries|
    ensures InBatch(name, entries[..n], stamp, refused) ==> InBatch(name, entries, stamp, refused)
  {
    if InBatch(name, entries[..n], stamp, refused) {
      var i :| 0 <= i < n && Saves(entries[..n][i], i, stamp, refused) && name == ImageName(stamp(i), i);
      assert entries[..n][i] == entries[i];
    }
  }

  /** The file of a saved entry's decoded payload. */
  function EntryImage(entry: Value): Image
    requires entry.Str? && Match(entry.s).Some?
  {
    Decoded(Match(entry.s).value.payload)
  }

  /** The loop writes the file of saved entry `i`, holding that entry's
      decoded payload; no later entry of the batch overwrites it. */
  lemma {:induction false} UploadedSaved(uploads: map<string, Image>, entries: seq<Value>,
                                         stamp: nat -> nat, refused: set<string>, i: nat)
    requires i < |entries| && Saves(entries[i], i, stamp, refused)
    ensures ImageName(stamp(i), i) in Uploaded(uploads, entries, stamp, refused)
    ensures Uploaded(uploads, entries, stamp, refused)[ImageName(stamp(i), i)] == EntryImage(entries[i])
  {
    var n := |entries| - 1;
    var front := entries[..n];
    var name := ImageName(stamp(i), i);
    SavedStep(uploads, entries, stamp, refused, n);
    assert entries[..n + 1] == entries;
    if i < n {
      assert front[i] == entries[i];
      UploadedSaved(uploads, front, stamp, refused, i);
      ImageNameInjective(stamp(i), i, stamp(n), n);
    }
  }

  /** The loop leaves every file that is not the file of a saved entry as it
      was: present with the same content, or absent. */
  lemma {:induction false} UploadedOthers(uploads: map<string, Image>, entries: seq<Value>,
                                          stamp: nat -> nat, refused: set<string>, name: string)
    requires !InBatch(name, entries, stamp, refused)
    ensures name in Uploaded(uploads, entries, stamp, refused) <==> name in uploads
    ensures name in uploads ==> Uploaded(uploads, entries, stamp, refused)[name] == uploads[name]
  {
    if entries != [] {
      var n := |entries| - 1;
      InBatchPrefix(name, entries, n, stamp, refused);
      UploadedOthers(uploads, entries[..n], stamp, refused, name);
      if Saves(entries[n], n, stamp, refused) {
        assert name != ImageName(stamp(n), n);
      }
    }
  }
}
