# studentshelf book endpoints, modelled in Dafny

studentshelf is a small Express server for student-to-student textbook
resale. This project models its two book endpoints:

- `GET /api/books` returns the stored collection of listings from
  `books.json`, or `[]` when the file does not exist.
- `POST /api/books` runs a four-stage pipeline:
  1. It checks the eight required fields for truthiness.
  2. It saves every `photos` entry that is a base64 data URI as
     `book_<clock>_<index>.jpg` in the upload directory.
  3. It builds a record from the trimmed fields.
  4. It appends the record to the collection and rewrites the whole file.

The filesystem is abstract state, held in a `Disk` value and in the
`Store` class. `books.json` is an optional `BooksFile`, which is either the
parsed listings or the error that reading or parsing throws. The upload
directory maps file names to images.

The clock readings, the locale date string, the image writes the
filesystem refuses and the error a rewrite of `books.json` throws are all
inputs, gathered in `Env`. Base64 decoding is left uninterpreted: a file
holds `Decoded(payload)`. A JSON write followed by a parse is the identity
on the collection.

Files and modules:

- `wrappers.dfy` (`Wrappers`): Option and Result.
- `js.dfy` (`Js`): JSON values, truthiness and `String.prototype.trim`.
- `data_uri.dfy` (`DataUri`): a hand-written recogniser for
  `^data:([A-Za-z-+/]+);base64,(.+)$`.
- `image_store.dfy` (`ImageStore`): the file names and the photo loop's
  specification.
- `listing.dfy` (`Listing`): the record, validation and record construction.
- `server.dfy` (`Server`): the read path, both handlers as functions, and
  the `Store` class.
  - `SavePhotos` (with its loop), `Append` and `Post` update the `Store`'s
    fields in place. `Get` has no `modifies` clause and changes nothing.
  - `Get`, `SavePhotos` and `Post` are proved to agree with the functions
    `HandleGet`, `SavedPaths`/`Uploaded` and `HandlePost`.
  - `Append` states its new state directly, in terms of the collection it
    read.

Behaviour of note:

- **Blank required fields.** A stored listing's required fields are not
  necessarily non-empty. Validation only tests truthiness before trimming,
  so a field of spaces is accepted and stored as `""`
  (`Listing.WhitespaceFieldStoredEmpty`).
- **Non-string fields.** A truthy text field that is not a string makes
  `.trim()` throw, and the request is answered 500. This covers the
  required fields and also a truthy `phoneNumber` or `additionalMessages`,
  such as a phone number sent as a JSON number. The error names the first
  such field in the literal's order, where `phoneNumber` comes between
  `price` and `bookDescription`. This happens after the photos have
  already been written (`Server.PostUploads`).
- **Clock collisions.** Because of `Server.PostUploads` and
  `ImageStore.UploadedSaved`, a later request that reads the same clock
  value for the same index overwrites the earlier request's image file.

## Model

| member | source | states |
|---|---|---|
| `Js.Trim` | server.js:100-109 | `trim` returns a contiguous piece of its input, everything cut off is whitespace, and the result has no whitespace at either end |
| `Js.TrimOfPadded` | server.js:100-109 | trimming is determined by that contract: whitespace + s + whitespace trims to s whenever s has no whitespace at its ends |
| `Js.TrimIdempotent` | server.js:100-109 | trimming a trimmed string changes nothing |
| `Js.TrimAllWhitespace` | server.js:100-108 | a string of whitespace only trims to `""` |
| `DataUri.Match` | server.js:83-84 | a match yields a non-empty MIME string over letters, `-`, `+` and `/` and a non-empty payload without line terminators, and `data:` + MIME + `;base64,` + payload spells the input |
| `DataUri.MatchComplete` | server.js:83-84 | every string of that form is matched, with exactly the groups it was built from |
| `DataUri.MatchIff` | server.js:83-84 | the recogniser matches a string iff the string is such a data URI |
| `ImageStore.ImageNameSpelling` | server.js:86 | `ImageName` gives `book_` + x + `_` + y + `.jpg` with x and y decimal digit strings without leading zeros denoting the clock reading and the index, as the template literal renders them; `ImageStore.ImageNameInjective` shows it determines both |
| `ImageStore.ImageNameInjective` | server.js:86 | `book_<t>_<i>.jpg` determines both t and i |
| `ImageStore.SavedIndices` | server.js:81-95 | the saved indices strictly increase, are each below the batch length, and every one of them is a string entry that matches and whose write succeeds |
| `ImageStore.SavedIndicesComplete` | server.js:81-95 | every string entry that matches and whose write succeeds is saved, so non-matching, non-string and refused entries are exactly the ones skipped |
| `ImageStore.SavedPaths` | server.js:86-90 | `savedImagePaths` holds one path per saved entry, in input order, namely `/uploads/book_<stamp(i)>_<i>.jpg` with i the entry's original index |
| `ImageStore.SavedPathsDistinct` | server.js:79-95 | `savedImagePaths` is never longer than `photos` and holds no path twice |
| `ImageStore.Uploaded` | server.js:85-89 | the upload directory after the loop: no file is removed and at most one file is added per entry; `ImageStore.UploadedSaved` and `ImageStore.UploadedOthers` state what each file then holds |
| `ImageStore.UploadedSaved` | server.js:85-89 | after the loop, the file of each saved entry holds that entry's decoded payload |
| `ImageStore.UploadedOthers` | server.js:85-89 | the loop leaves every other file present with the same content, or absent |
| `Listing.HasRequiredFields` | server.js:71-76 | the guard passes iff all eight required fields are truthy |
| `Listing.TextValue` | server.js:100-109 | `<name> ? <name>.trim() : ''` succeeds iff the field is falsy or a string, gives the trimmed string (`''` when falsy), and otherwise fails with `<name>.trim is not a function` |
| `Listing.TrimEach` | server.js:99-109 | the text fields are evaluated in literal order; it succeeds iff each field is falsy or a string, each value is then the trimmed field (`''` when falsy), and a failure carries the `<field>.trim is not a function` message of the first truthy non-string field in that order |
| `Listing.BuildListing` | server.js:98-112 | the record is built iff every field the literal trims is a string; each stored text field is then the trimmed input (optional ones `''` when falsy), `photos` is the given path list, and `id` and `date` are the given values; otherwise the error names the first field, in literal order, whose `.trim()` throws |
| `Listing.WhitespaceFieldStoredEmpty` | server.js:71-108 | a whitespace-only field passes the truthiness check and is stored as `""` |
| `Listing.StoredFieldsTrimmed` | server.js:100-109 | every stored text field is already trimmed |
| `Server.ReadAll` | server.js:39-44 | the read gives `[]` when the file is absent, the stored sequence unchanged when it parses, and fails only on an unreadable file |
| `Server.HandleGet` | server.js:36-51 | GET answers 200 with the stored sequence (`[]` when absent) iff the read succeeds, and otherwise 500 with `Failed to load books` |
| `Server.HandlePost` | server.js:54-142 | the POST handler: it answers 400 iff a required field is falsy, and it changes the collection only when it answers 200; `Server.PostValidation`, `Server.PostAppends`, `Server.PostResponses` and `Server.PostUploads` carry the rest |
| `Server.Commit` | server.js:98-141 | after the photo loop: it never touches the uploads; it answers 200 iff the record was built, the collection is readable and the rewrite works, and it then appends the record and replies with its id; every other outcome leaves the disk as it was and is the outer catch's response carrying the message of the first step that threw: the trim, then the read or parse, then the rewrite |
| `Server.PhotoEntries` | server.js:67-81 | the loop visits the array's entries; it visits nothing when `photos` is absent, falsy or has no length; only a non-empty string makes the request fail, with `photos.forEach is not a function` |
| `Server.RequestedBook` | server.js:70-112 | a request describes a record iff it passes validation, its photos can be iterated and every trimmed field is a string; the record then has trimmed fields, the saved paths, `id = now` and the date |
| `Server.PostValidation` | server.js:71-76 | a POST is answered 400 iff a required field is falsy, and then nothing on disk changes |
| `Server.PostAppends` | server.js:114-133 | a POST succeeds iff it describes a record, the collection is readable and the rewrite works; on success the collection is the previous one (or `[]`) with exactly that record appended and the reply is `success:true` with its id; otherwise the collection is unchanged |
| `Server.PostResponses` | server.js:129-141 | every answer is 200 `success:true`, 400 with the validation message, or 500 `success:false` with a message starting `Error saving book: ` |
| `Server.PostFailureShape` | server.js:78-141 | every answer other than 200 and the 400 rejection is the outer catch's response; past validation, a non-empty string `photos` answers `Error saving book: photos.forEach is not a function` with nothing written, and otherwise the answer and the new disk are Commit's on the disk the photo loop left |
| `Server.PostUploads` | server.js:78-96 | image files are written only after validation passes and `photos` can be iterated, and then they stay written whatever happens later |
| `Server.PostPhotosOnDisk` | server.js:79-110 | each path in the record's `photos` is `/uploads/` + the file name of a data-URI entry of `photos`, and after the request that file exists and holds the entry's decoded payload, whatever the response |
| `Server.GetAfterPost` | server.js:116-127 | a GET after a successful POST returns the earlier collection with the new record at the end |
| `Server.PostStep` | server.js:114-127 | one POST on a readable collection appends exactly the record it reports, or nothing, and the collection stays readable |
| `Server.PostAllAppends` | server.js:114-127 | after any sequence of POSTs the collection is the earlier one followed by the accepted records, in order |
| `Server.PostAllThenGet` | server.js:38-46 | starting without `books.json`, a GET after N POSTs returns exactly the accepted records, in insertion order |
| `Server.Store.Get` | server.js:36-51 | the GET method gives HandleGet's response and changes nothing, so two reads with no write between them agree |
| `Server.Store.SavePhotos` | server.js:79-95 | the loop's `savedImagePaths` equals SavedPaths and the upload directory becomes Uploaded of the old one |
| `Server.Store.Append` | server.js:114-127 | read-push-rewrite succeeds iff the file is readable and the write works; it then stores the old sequence plus the record, and otherwise leaves the file unchanged and returns the error |
| `Server.Store.Post` | server.js:54-142 | the imperative handler leaves the store and returns the response exactly as HandlePost says |

## Left out

- Express routing, middleware, the 50 MB body limit, the static pages, `/uploads` serving, creating the upload directory at start-up, and `app.listen`. These are framework plumbing.
- The request body is modelled as a JSON object, that is, a map from member names to values. A missing body and a body that is a JSON array are not modelled.
- JSON numbers are modelled as exact reals; only their truthiness matters here.
- A JSON object is modelled without its members. An object with a numeric `length` member, given as `photos`, would reach `photos.forEach` in the source; the model treats every object as having no length.
- `Buffer.from(..., 'base64')` is left uninterpreted: a saved file holds `Decoded(payload)`.
- `JSON.parse` and `JSON.stringify` are taken as the identity on the collection.
- A `books.json` that parses to something other than an array of listings is not modelled as such. Only a read or parse that throws is modelled, as `Unreadable`.
- `Date.now()` and `toLocaleDateString('en-IN')` are inputs. Clock readings are natural numbers, so readings before 1970 are not modelled, and neither is the exponent notation that numbers of 1e21 and above would render in.
- The filesystem's failures are inputs: image names whose write throws, and the error a rewrite of `books.json` throws. A partially written file is not modelled.
- The texts of filesystem and parse errors are opaque strings. The `... is not a function` messages follow V8's wording.
- Concurrent requests and the unlocked read-modify-write race between them are not modelled. The model handles one request at a time.
- `console.error` logging is not modelled.
- Listing.BuildListing: it has no precondition of its own, because the handler calls it only after validation. On a falsy required field it gives `''` where the source's `.trim()` would throw, but no request reaches that case.
- Listing.TrimEach, Listing.TextValue: they treat every field as optional (`x ? x.trim() : ''`). For a required field that differs from the source's `x.trim()` only on a falsy value, which validation rules out.
- JavaScript strings are sequences of UTF-16 code units, while a Dafny `string` is a sequence of Unicode scalar values. A body holding a lone surrogate, which JSON allows (`"\ud800"`), cannot be represented. No whitespace character, line terminator or MIME character is a surrogate, so trimming and the data-URI recogniser agree with the source on every string the model can represent.
