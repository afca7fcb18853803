/** A book listing, the check on its required fields, and how the create
    handler builds the record it stores from the request body. */
module Listing {
  import opened Wrappers
  import opened Js

  /** One stored listing, with the fields in the order the handler writes them. */
  datatype Listing = Listing(
    id: nat,
    studentName: string,
    schoolName: string,
    className: string,
    classRoom: string,
    bookName: string,
    medium: string,
    price: string,
    phoneNumber: string,
    bookDescription: string,
    additionalMessages: string,
    photos: seq<string>,
    date: string)

  /** The parsed JSON request body: its members by name. */
  type Body = map<string, Value>

  /** A member of the body, Undefined when absent (what destructuring gives). */
  function Field(body: Body, name: string): Value {
    if name in body then body[name] else Undefined
  }

  /** The fields the handler refuses to do without. */
  const RequiredFields: seq<string> :=
    ["studentName", "schoolName", "className", "classRoom",
     "bookName", "medium", "price", "bookDescription"]

  /** The string fields of the record, in the order the object literal
      evaluates them (phoneNumber sits between price and bookDescription). */
  const TextFields: seq<string> :=
    ["studentName", "schoolName", "className", "classRoom", "bookName",
     "medium", "price", "phoneNumber", "bookDescription", "additionalMessages"]

  /** The validation guard: every required field is truthy. Nothing is
      trimmed first, so a field of spaces passes. */
  function HasRequiredFields(body: Body): (ok: bool)
    ensures ok <==> forall f :: f in RequiredFields ==> Truthy(Field(body, f))
  {
    Truthy(Field(body, "studentName")) && Truthy(Field(body, "schoolName"))
    && Truthy(Field(body, "className")) && Truthy(Field(body, "classRoom"))
    && Truthy(Field(body, "bookName")) && Truthy(Field(body, "medium"))
    && Truthy(Field(body, "price")) && Truthy(Field(body, "bookDescription"))
  }

  /** The message a TypeError carries when `<name>.trim()` is called on a
      value that has no `trim` method, in V8's wording. */
  function NotAFunction(callee: string): string {
    callee + " is not a function"
  }

  /** Whether the literal can evaluate a text field: `trim` is only called
      on a truthy field, and only a string has it. */
  predicate TextOk(body: Body, name: string) {
    !Truthy(Field(body, name)) || Field(body, name).Str?
  }

  /** What a text field of the body becomes in the record: the trimmed
      string, or '' for a falsy field. */
  function Expected(body: Body, name: string): string {
    if Field(body, name).Str? then Trim(Field(body, name).s) else ""
  }

  /** `<name> ? <name>.trim() : ''`. For a required field, which validation
      has found truthy, this is `<name>.trim()`. */
  function TextValue(body: Body, name: string): (r: Result<string, string>)
    ensures r.Success? <==> TextOk(body, name)
    ensures r.Success? ==> r.value == Expected(body, name)
    ensures r.Failure? ==> r.error == NotAFunction(name + ".trim")
  {
    if !Truthy(Field(body, name)) then
      assert Field(body, name).Str? ==> Field(body, name).s == "";
      assert Trim("") == "";
      Success("")
    else match Field(body, name)
      case Str(s) => Success(Trim(s))
      case _ => Failure(NotAFunction(name + ".trim"))
  }

  /** Field `names[i]` is the first one whose `.trim()` throws: it is truthy
      and not a string, and every field before it can be evaluated. */
  predicate FirstUntrimmable(body: Body, names: seq<string>, i: nat) {
    i < |names| && !TextOk(body, names[i]) && forall j :: 0 <= j < i ==> TextOk(body, names[j])
  }

  /** Evaluation that gets past the first field finds its first failure
      one place further along. */
  lemma FirstUntrimmableShift(body: Body, names: seq<string>, i: nat)
    requires |names| > 0 && TextOk(body, names[0]) && FirstUntrimmable(body, names[1..], i)
    ensures FirstUntrimmable(body, names, i + 1)
  {
    forall j | 0 < j < i + 1 ensures TextOk(body, names[j]) {
      assert names[j] == names[1..][j - 1];
    }
    assert names[i + 1] == names[1..][i];
  }

  /** Evaluates the text fields `names` in order, stopping at the first
      `.trim()` that throws: the error names the first field that is truthy
      and not a string. */
  function TrimEach(body: Body, names: seq<string>): (r: Result<seq<string>, string>)
    ensures r.Success? <==> forall i :: 0 <= i < |names| ==> TextOk(body, names[i])
    ensures r.Success? ==> |r.value| == |names|
    ensures r.Success? ==> forall i :: 0 <= i < |names| ==> r.value[i] == Expected(body, names[i])
    ensures r.Failure? ==> exists i: nat :: FirstUntrimmable(body, names, i)
                                       && r.error == NotAFunction(names[i] + ".trim")
  {
    if names == [] then Success([])
    else match TextValue(body, names[0])
      case Failure(e) =>
        assert FirstUntrimmable(body, names, 0);
        Failure(e)
      case Success(first) =>
        match TrimEach(body, names[1..])
        case Failure(e) =>
          var i: nat :| FirstUntrimmable(body, names[1..], i) && e == NotAFunction(names[1..][i] + ".trim");
          FirstUntrimmableShift(body, names, i);
          Failure(e)
        case Success(rest) => Success([first] + rest)
  }

  /** Whether `trim` can be called on every field the object literal trims:
      the required ones, and the optional ones that are truthy. */
  predicate Trimmable(body: Body) {
    forall i :: 0 <= i < |TextFields| ==> TextOk(body, TextFields[i])
  }

  /** The record's text fields, in the order of TextFields. */
  function Texts(book: Listing): seq<string> {
    [book.studentName, book.schoolName, book.className, book.classRoom, book.bookName,
     book.medium, book.price, book.phoneNumber, book.bookDescription, book.additionalMessages]
  }

  /** The record with these text fields, photo paths, id and date. */
  function FromTexts(v: seq<string>, photos: seq<string>, id: nat, date: string): (book: Listing)
    requires |v| == |TextFields|
    ensures Texts(book) == v && book.photos == photos && book.id == id && book.date == date
  {
    Listing(id, v[0], v[1], v[2], v[3], v[4], v[5], v[6], v[7], v[8], v[9], photos, date)
  }

  /** The object literal `newBook`. The handler evaluates it only on a body
      that passed validation, where `<name>.trim()` on a required field and
      `<name> ? <name>.trim() : ''` agree. It is built when every field it trims is a string; each
      text field then holds its trimmed input ('' for a falsy optional one),
      and the record carries the saved photo paths, the id and the date it is
      given. Otherwise the first `.trim()` on a non-string, in literal order, throws. */
  function BuildListing(body: Body, photos: seq<string>, id: nat, date: string): (r: Result<Listing, string>)
    ensures r.Success? <==> Trimmable(body)
    ensures r.Success? ==> forall i :: 0 <= i < |TextFields| ==> Texts(r.value)[i] == Expected(body, TextFields[i])
    ensures r.Success? ==> r.value.photos == photos && r.value.id == id && r.value.date == date
    ensures r.Failure? ==> exists i: nat :: FirstUntrimmable(body, TextFields, i)
                                       && r.error == NotAFunction(TextFields[i] + ".trim")
  {
    var v :- TrimEach(body, TextFields);
    Success(FromTexts(v, photos, id, date))
  }

  /** Validation tests the raw value: a text field made only of whitespace
      passes it, and the record stores it as the empty string. */
  lemma WhitespaceFieldStoredEmpty(body: Body, i: nat, photos: seq<string>, id: nat, date: string)
    requires i < |TextFields| && Field(body, TextFields[i]).Str?
    requires Field(body, TextFields[i]).s != "" && AllWhitespace(Field(body, TextFields[i]).s)
    ensures Truthy(Field(body, TextFields[i]))
    ensures BuildListing(body, photos, id, date).Success? ==>
            Texts(BuildListing(body, photos, id, date).value)[i] == ""
  {
    TrimAllWhitespace(Field(body, TextFields[i]).s);
  }

  /** Every stored text field is already trimmed: trimming it again changes
      nothing. */
  lemma StoredFieldsTrimmed(body: Body, photos: seq<string>, id: nat, date: string)
    requires BuildListing(body, photos, id, date).Success?
    ensures forall i :: 0 <= i < |TextFields| ==>
      var t := Texts(BuildListing(body, photos, id, date).value)[i];
      Trim(t) == t
  {
    forall i | 0 <= i < |TextFields|
      ensures Trim(Expected(body, TextFields[i])) == Expected(body, TextFields[i])
    {
      if Field(body, TextFields[i]).Str? {
        TrimIdempotent(Field(body, TextFields[i]).s);
      } else {
        TrimAllWhitespace("");
      }
    }
  }
}
