/** The two book endpoints: `GET /api/books`, which returns the stored
    collection, and `POST /api/books`, which validates a request, saves its
    photos, builds a record and appends it to books.json.

    The filesystem is abstract state: books.json is an optional BooksFile
    (None while the file does not exist) and the upload directory is a map
    from file names to images. JSON serialisation is taken as the identity
    on the collection: what a write stores is what the next read parses. */
module Server {
  import opened Wrappers
  import opened Js
  import opened DataUri
  import opened ImageStore
  import opened Listing

  /** books.json as the handlers find it. */
  datatype BooksFile =
    | Listings(items: seq<Listing>)  // a JSON array of listings
    | Unreadable(message: string)    // reading or parsing it throws this message

  /** The state the handlers touch. */
  datatype Disk = Disk(books: Option<BooksFile>, uploads: map<string, Image>)

  /** What a create request takes from its surroundings: the clock reading
      taken while entry `i` of `photos` is saved (`stamp(i)`), the reading the
      id is made from (`now`), the date rendered for the en-IN locale
      (`today`), the image file names the filesystem refuses to write
      (`refused`), and the error, if any, that rewriting books.json throws
      (`writeError`). */
  datatype Env = Env(stamp: nat -> nat, now: nat, today: string,
                     refused: set<string>, writeError: Option<string>)

  /** A JSON response body. */
  datatype Reply =
    | Created(message: string, id: nat)  // { success: true, message, id }
    | Rejected(message: string)          // { success: false, message }
    | Books(items: seq<Listing>)         // the array GET returns
    | LoadFailed(error: string)          // { error }

  datatype Response = Response(status: nat, reply: Reply)

  const MissingFields: string := "All required fields must be filled"
  const PostedMessage: string := "Book posted successfully!"
  const SaveErrorPrefix: string := "Error saving book: "
  const LoadError: string := "Failed to load books"

  /** The read both handlers do: the stored collection, [] when the file
      does not exist, or the error reading or parsing it throws. */
  function ReadAll(books: Option<BooksFile>): (r: Result<seq<Listing>, string>)
    ensures books.None? ==> r == Success([])
    ensures books.Some? && books.value.Listings? ==> r == Success(books.value.items)
    ensures r.Failure? <==> books.Some? && books.value.Unreadable?
  {
    match books
    case None => Success([])
    case Some(Listings(items)) => Success(items)
    case Some(Unreadable(message)) => Failure(message)
  }

  /** `GET /api/books`: 200 with the stored collection ([] when the file is
      absent), or 500 with a fixed error when it cannot be read. */
  function HandleGet(d: Disk): (resp: Response)
    ensures resp.status == 200 <==> ReadAll(d.books).Success?
    ensures resp.status == 200 ==> resp.reply == Books(ReadAll(d.books).value)
    ensures resp.status != 200 ==> resp == Response(500, LoadFailed(LoadError))
  {
    match ReadAll(d.books)
    case Success(items) => Response(200, Books(items))
    case Failure(_) => Response(500, LoadFailed(LoadError))
  }

  /** The response of the handler's outer catch. */
  function SaveFailed(message: string): Response {
    Response(500, Rejected(SaveErrorPrefix + message))
  }

  /** `POST /api/books`. Validation comes first and touches nothing. On a
      non-empty string `photos` the loop throws before writing anything.
      Otherwise the photo loop writes its files and Commit finishes the
      request on the disk they were written to. */
  function HandlePost(d: Disk, body: Body, env: Env): (r: (Disk, Response))
    ensures r.1.status == 400 <==> !HasRequiredFields(body)
    ensures r.1.status != 200 ==> r.0.books == d.books
  {
    if !HasRequiredFields(body) then (d, Response(400, Rejected(MissingFields)))
    else match PhotoEntries(Field(body, "photos"))
      case Failure(e) => (d, SaveFailed(e))
      case Success(entries) =>
        Commit(d.(uploads := Uploaded(d.uploads, entries, env.stamp, env.refused)),
               BuildListing(body, SavedPaths(entries, env.stamp, env.refused), env.now, env.today),
               env.writeError)
  }

  /** The rest of the request, after the photos are on disk: a record that
      could not be built, a books.json that cannot be read, or a rewrite that
      throws yields 500 with the photos left in place; otherwise the record
      is appended to the collection. Only `books` can change, and a failure
      is the outer catch's response carrying the message of the first step
      that threw: the trim, then the read or parse, then the rewrite. */
  function Commit(saved: Disk, built: Result<Listing, string>, writeError: Option<string>): (r: (Disk, Response))
    ensures r.0.uploads == saved.uploads
    ensures r.1.status == 200 <==> built.Success? && ReadAll(saved.books).Success? && writeError.None?
    ensures r.1.status == 200 ==>
            r.0.books == Some(Listings(ReadAll(saved.books).value + [built.value]))
            && r.1.reply == Created(PostedMessage, built.value.id)
    ensures r.1.status != 200 ==> r.0 == saved
    ensures r.1.status != 200 ==>
            r.1 == SaveFailed(if built.Failure? then built.error
                              else if ReadAll(saved.books).Failure? then ReadAll(saved.books).error
                              else if writeError.Some? then writeError.value else "")
  {
    match built
    case Failure(e) => (saved, SaveFailed(e))
    case Success(book) =>
      match ReadAll(saved.books)
      case Failure(e) => (saved, SaveFailed(e))
      case Success(existing) =>
        match writeError
        case Some(e) => (saved, SaveFailed(e))
        case None => (saved.(books := Some(Listings(existing + [book]))),
                      Response(200, Created(PostedMessage, book.id)))
  }

  /** The entries the photo loop visits. `photos` defaults to [] only when
      absent, and the loop runs only when `photos && photos.length > 0`:
      `length` is a string's or an array's length and undefined on anything
      else. On a non-empty string `photos.forEach` is not a function, which
      throws before any file is written. */
  function PhotoEntries(photos: Value): (r: Result<seq<Value>, string>)
    ensures r.Failure? <==> photos.Str? && photos.s != ""
    ensures r.Failure? ==> r.error == NotAFunction("photos.forEach")
    ensures r.Success? ==> r.value == if photos.Arr? then photos.items else []
  {
    match photos
    case Arr(items) => Success(items)
    case Str(s) => if s != "" then Failure(NotAFunction("photos.forEach")) else Success([])
    case _ => Success([])
  }

  /** The record a create request describes, when it describes one: the
      body passes validation, its photos can be iterated and every field the
      record trims is a string. It does not depend on what is on disk. */
  function RequestedBook(body: Body, env: Env): (r: Option<Listing>)
    ensures r.Some? <==> HasRequiredFields(body) && PhotoEntries(Field(body, "photos")).Success?
                         && Trimmable(body)
    ensures r.Some? ==> r.value.id == env.now && r.value.date == env.today
    ensures r.Some? ==> r.value.photos == SavedPaths(PhotoEntries(Field(body, "photos")).value,
                                                     env.stamp, env.refused)
    ensures r.Some? ==> forall i :: 0 <= i < |TextFields| ==> Texts(r.value)[i] == Expected(body, TextFields[i])
  {
    if !HasRequiredFields(body) then None
    else match PhotoEntries(Field(body, "photos"))
      case Failure(_) => None
      case Success(entries) =>
        match BuildListing(body, SavedPaths(entries, env.stamp, env.refused), env.now, env.today)
        case Failure(_) => None
        case Success(book) => Some(book)
  }

  /** A request missing a required field gets 400 and changes nothing: no
      image is written and the collection is untouched. Every other request
      gets past validation. */
  lemma PostValidation(d: Disk, body: Body, env: Env)
    ensures HandlePost(d, body, env).1.status == 400 <==> !HasRequiredFields(body)
    ensures !HasRequiredFields(body) ==>
            HandlePost(d, body, env) == (d, Response(400, Rejected(MissingFields)))
  {
  }

  /** A create request succeeds exactly when it describes a record, the
      collection can be read and the rewrite goes through. It then appends
      that one record after all earlier ones and answers with its id;
      otherwise the collection is as it was. */
  lemma PostAppends(d: Disk, body: Body, env: Env)
    ensures HandlePost(d, body, env).1.status == 200 <==>
            RequestedBook(body, env).Some? && ReadAll(d.books).Success? && env.writeError.None?
    ensures HandlePost(d, body, env).1.status == 200 ==>
            HandlePost(d, body, env).0.books
              == Some(Listings(ReadAll(d.books).value + [RequestedBook(body, env).value]))
            && HandlePost(d, body, env).1.reply == Created(PostedMessage, RequestedBook(body, env).value.id)
    ensures HandlePost(d, body, env).1.status != 200 ==> HandlePost(d, body, env).0.books == d.books
  {
  }

  /** Every response is 200 with `success: true`, 400 with the validation
      message, or 500 with `success: false` and a message that starts with
      `Error saving book: `. */
  lemma PostResponses(d: Disk, body: Body, env: Env)
    ensures var resp := HandlePost(d, body, env).1;
      || (resp.status == 200 && resp.reply.Created? && resp.reply.message == PostedMessage)
      || (resp.status == 400 && resp.reply == Rejected(MissingFields))
      || (resp.status == 500 && resp.reply.Rejected? && SaveErrorPrefix <= resp.reply.message)
  {
    var resp := HandlePost(d, body, env).1;
    if resp.status == 500 {
      assert exists m :: resp == SaveFailed(m) by { PostFailureShape(d, body, env); }
      var m :| resp == SaveFailed(m);
      assert resp.reply.message[..|SaveErrorPrefix|] == SaveErrorPrefix;
    }
  }

  /** Every response is a success, the validation rejection or a failure of
      the outer catch. Past validation, a non-empty string `photos` fails
      with `photos.forEach is not a function` and nothing written; otherwise
      the photo loop's files are on disk and Commit's response, with the
      message of the first step that threw, is the answer. */
  lemma PostFailureShape(d: Disk, body: Body, env: Env)
    ensures var resp := HandlePost(d, body, env).1;
      resp.status == 200 || resp == Response(400, Rejected(MissingFields)) || exists m :: resp == SaveFailed(m)
    ensures HasRequiredFields(body) && PhotoEntries(Field(body, "photos")).Failure? ==>
            HandlePost(d, body, env) == (d, SaveFailed(NotAFunction("photos.forEach")))
    ensures HasRequiredFields(body) && PhotoEntries(Field(body, "photos")).Success? ==>
            var entries := PhotoEntries(Field(body, "photos")).value;
            HandlePost(d, body, env)
              == Commit(d.(uploads := Uploaded(d.uploads, entries, env.stamp, env.refused)),
                        BuildListing(body, SavedPaths(entries, env.stamp, env.refused), env.now, env.today),
                        env.writeError)
  {
    if HasRequiredFields(body) {
      match PhotoEntries(Field(body, "photos"))
      case Failure(e) =>
        assert HandlePost(d, body, env).1 == SaveFailed(e);
      case Success(entries) =>
        var saved := d.(uploads := Uploaded(d.uploads, entries, env.stamp, env.refused));
        var built := BuildListing(body, SavedPaths(entries, env.stamp, env.refused), env.now, env.today);
        var r := Commit(saved, built, env.writeError);
        assert HandlePost(d, body, env) == r;
        if r.1.status != 200 {
          assert r.1 == SaveFailed(if built.Failure? then built.error
                                   else if ReadAll(saved.books).Failure? then ReadAll(saved.books).error
                                   else if env.writeError.Some? then env.writeError.value else "");
        }
    }
  }

  /** Once validation passes and `photos` can be iterated, the photo files
      are on disk whatever happens to the record afterwards; before that
      point no file is written. */
  lemma PostUploads(d: Disk, body: Body, env: Env)
    ensures var entries := PhotoEntries(Field(body, "photos"));
      HandlePost(d, body, env).0.uploads ==
        if HasRequiredFields(body) && entries.Success?
        then Uploaded(d.uploads, entries.value, env.stamp, env.refused)
        else d.uploads
  {
    if HasRequiredFields(body) && PhotoEntries(Field(body, "photos")).Success? {
      var entries := PhotoEntries(Field(body, "photos")).value;
      var saved := d.(uploads := Uploaded(d.uploads, entries, env.stamp, env.refused));
      var built := BuildListing(body, SavedPaths(entries, env.stamp, env.refused), env.now, env.today);
      assert HandlePost(d, body, env) == Commit(saved, built, env.writeError);
    }
  }

  /** Every path the described record lists names a file that the request
      wrote: the k-th path is the file of an entry of `photos` that is a data
      URI, and after the request that file holds the entry's decoded payload,
      whatever the response. */
  lemma PostPhotosOnDisk(d: Disk, body: Body, env: Env, k: nat)
    requires RequestedBook(body, env).Some? && k < |RequestedBook(body, env).value.photos|
    ensures var entries := PhotoEntries(Field(body, "photos")).value;
      var i := SavedIndices(entries, env.stamp, env.refused)[k];
      var name := ImageName(env.stamp(i), i);
      && RequestedBook(body, env).value.photos[k] == UploadPath(name)
      && i < |entries| && entries[i].Str? && Match(entries[i].s).Some?
      && name in HandlePost(d, body, env).0.uploads
      && HandlePost(d, body, env).0.uploads[name] == Decoded(Match(entries[i].s).value.payload)
  {
    var entries := PhotoEntries(Field(body, "photos")).value;
    var i := SavedIndices(entries, env.stamp, env.refused)[k];
    PostUploads(d, body, env);
    UploadedSaved(d.uploads, entries, env.stamp, env.refused, i);
  }

  /** A read after a successful create (the conditions PostAppends gives
      for a 200) returns the earlier collection with the new record at its
      end. */
  lemma GetAfterPost(d: Disk, body: Body, env: Env)
    requires RequestedBook(body, env).Some? && ReadAll(d.books).Success? && env.writeError.None?
    ensures HandleGet(HandlePost(d, body, env).0)
            == Response(200, Books(ReadAll(d.books).value + [RequestedBook(body, env).value]))
  {
    PostAppends(d, body, env);
  }

  /** A sequence of create requests handled one after the other. */
  function PostAll(d: Disk, reqs: seq<(Body, Env)>): Disk
    decreases |reqs|
  {
    if reqs == [] then d else PostAll(HandlePost(d, reqs[0].0, reqs[0].1).0, reqs[1..])
  }

  /** The record one create request appends: its record when it succeeds,
      nothing otherwise. */
  function Appended(d: Disk, body: Body, env: Env): seq<Listing> {
    var book := RequestedBook(body, env);
    if HandlePost(d, body, env).1.status == 200 && book.Some? then [book.value] else []
  }

  /** The records of those requests that succeed, in the order they were handled. */
  function Accepted(d: Disk, reqs: seq<(Body, Env)>): seq<Listing>
    decreases |reqs|
  {
    if reqs == [] then []
    else Appended(d, reqs[0].0, reqs[0].1) + Accepted(HandlePost(d, reqs[0].0, reqs[0].1).0, reqs[1..])
  }

  /** One create request on a readable collection appends what Appended
      names, and the collection stays readable. */
  lemma PostStep(d: Disk, body: Body, env: Env)
    requires ReadAll(d.books).Success?
    ensures ReadAll(HandlePost(d, body, env).0.books) == Success(ReadAll(d.books).value + Appended(d, body, env))
  {
    PostAppends(d, body, env);
    assert ReadAll(d.books).value + [] == ReadAll(d.books).value;
  }

  /** Sequential creates only ever append: after any run of requests the
      collection is the earlier one followed by the accepted records in
      order, and it stays readable. */
  lemma {:induction false} PostAllAppends(d: Disk, reqs: seq<(Body, Env)>)
    requires ReadAll(d.books).Success?
    ensures ReadAll(PostAll(d, reqs).books) == Success(ReadAll(d.books).value + Accepted(d, reqs))
    decreases |reqs|
  {
    if reqs != [] {
      var next := HandlePost(d, reqs[0].0, reqs[0].1).0;
      var added := Appended(d, reqs[0].0, reqs[0].1);
      PostStep(d, reqs[0].0, reqs[0].1);
      PostAllAppends(next, reqs[1..]);
      AppendAssociates(ReadAll(d.books).value, added, Accepted(next, reqs[1..]));
    } else {
      assert ReadAll(d.books).value + [] == ReadAll(d.books).value;
    }
  }

  /** Sequence concatenation regroups. Stated apart from PostAllAppends,
      whose context makes the solver's search for this step too costly. */
  lemma AppendAssociates<T>(a: seq<T>, b: seq<T>, c: seq<T>)
    ensures a + b + c == a + (b + c)
  {
  }

  /** Round trip: starting without books.json, a read after a run of
      creates returns exactly the accepted records, in insertion order. */
  lemma PostAllThenGet(reqs: seq<(Body, Env)>, uploads: map<string, Image>)
    ensures HandleGet(PostAll(Disk(None, uploads), reqs)) == Response(200, Books(Accepted(Disk(None, uploads), reqs)))
  {
    var d := Disk(None, uploads);
    var acc := Accepted(d, reqs);
    PostAllAppends(d, reqs);
    assert [] + acc == acc;
    GetReadable(PostAll(d, reqs), acc);
  }

  /** A read of a readable collection returns it. */
  lemma GetReadable(d: Disk, items: seq<Listing>)
    requires ReadAll(d.books) == Success(items)
    ensures HandleGet(d) == Response(200, Books(items))
  {
  }

  /** Books.json and the upload directory, updated in place by the handlers. */
  class Store {
    var books: Option<BooksFile>
    var uploads: map<string, Image>

    constructor (books: Option<BooksFile>, uploads: map<string, Image>)
      ensures this.books == books && this.uploads == uploads
    {
      this.books := books;
      this.uploads := uploads;
    }

    function Snapshot(): Disk
      reads this
    {
      Disk(books, uploads)
    }

    /** `GET /api/books`. It changes nothing, so two reads with no write in
        between return the same response. */
    method Get() returns (resp: Response)
      ensures resp == HandleGet(Snapshot())
    {
      var items: seq<Listing> := [];
      if books.Some? {
        match books.value
        case Unreadable(_) =>
          return Response(500, LoadFailed(LoadError));
        case Listings(stored) =>
          items := stored;
      }
      resp := Response(200, Books(items));
    }

    /** The `photos.forEach` loop: each entry is matched and, when it is a
        data URI, written as `book_<clock>_<index>.jpg` and its path pushed
        onto `savedImagePaths`. A non-string entry (whose `match` throws) and
        a refused write are caught and skipped. */
    method SavePhotos(entries: seq<Value>, stamp: nat -> nat, refused: set<string>)
      returns (savedImagePaths: seq<string>)
      modifies this`uploads
      ensures savedImagePaths == SavedPaths(entries, stamp, refused)
      ensures uploads == Uploaded(old(uploads), entries, stamp, refused)
    {
      savedImagePaths := [];
      var index := 0;
      while index < |entries|
        invariant 0 <= index <= |entries|
        invariant savedImagePaths == SavedPaths(entries[..index], stamp, refused)
        invariant uploads == Uploaded(old(uploads), entries[..index], stamp, refused)
      {
        SavedStep(old(uploads), entries, stamp, refused, index);
        var entry := entries[index];
        if entry.Str? {
          var matches := Match(entry.s);
          if matches.Some? {
            var imageName := ImageName(stamp(index), index);
            if imageName !in refused {
              uploads := uploads[imageName := Decoded(matches.value.payload)];
              savedImagePaths := savedImagePaths + [UploadPath(imageName)];
            }
          }
        }
        index := index + 1;
      }
      assert entries[..index] == entries;
    }

    /** Reads the collection ([] when the file is absent), pushes `book` and
        rewrites the whole file. A read or a rewrite that throws leaves the
        file as it was. */
    method Append(book: Listing, writeError: Option<string>) returns (r: Result<(), string>)
      modifies this`books
      ensures r.Success? <==> ReadAll(old(books)).Success? && writeError.None?
      ensures r.Success? ==> books == Some(Listings(ReadAll(old(books)).value + [book]))
      ensures r.Failure? ==> books == old(books)
      ensures r.Failure? ==> r.error == if ReadAll(old(books)).Failure? then ReadAll(old(books)).error
                                        else writeError.value
    {
      var stored: seq<Listing> := [];
      if books.Some? {
        match books.value
        case Unreadable(message) =>
          return Failure(message);
        case Listings(items) =>
          stored := items;
      }
      stored := stored + [book];
      if writeError.Some? {
        return Failure(writeError.value);
      }
      books := Some(Listings(stored));
      r := Success(());
    }

    /** `POST /api/books`, step by step, with the outcome HandlePost gives. */
    method Post(body: Body, env: Env) returns (resp: Response)
      modifies this
      ensures (Snapshot(), resp) == HandlePost(old(Snapshot()), body, env)
    {
      if !HasRequiredFields(body) {
        return Response(400, Rejected(MissingFields));
      }
      var photos := PhotoEntries(Field(body, "photos"));
      if photos.Failure? {
        return SaveFailed(photos.error);
      }
      var savedImagePaths := SavePhotos(photos.value, env.stamp, env.refused);
      var newBook := BuildListing(body, savedImagePaths, env.now, env.today);
      if newBook.Failure? {
        return SaveFailed(newBook.error);
      }
      var appended := Append(newBook.value, env.writeError);
      if appended.Failure? {
        return SaveFailed(appended.error);
      }
      resp := Response(200, Created(PostedMessage, newBook.value.id));
    }
  }
}
