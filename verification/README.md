# Document sharing: the document-record layer in Dafny

This project models the deterministic core of a small document-sharing web
application, in which an administrator uploads files and everyone can list,
view and download them. The files themselves live in a blob store
(Cloudinary). A MongoDB collection holds one metadata record per file.

The model covers:

- **URL check** (`DocumentUtils`). `isCloudinaryUrlValid` tests whether a stored
  URL looks like a Cloudinary delivery URL. The regular expression is a ghost
  predicate. An executable scan is proved to agree with it.
- **Blob-store computations** (`Cloudinary`):
  - classifying a file name as `raw`, `image` or `auto`;
  - the options sent with an upload;
  - whether a view URL carries a `format`;
  - the extension appended to a raw public id for downloads.

  The blob store is a class. It records every upload call it receives.
- **Database name** (`MongoDb`). `getDatabaseName` takes the environment
  override first, then the parsed URI path, then a regular-expression
  fallback; otherwise it fails.
- **Metadata store** (`MongoStorage`). The collection is a class whose field
  is the sequence of stored rows. `save` appends a row. `delete` finds a row,
  then removes it. Reads normalise missing fields to their defaults.
- **`/api/documents` route** (`DocumentsRoute`):
  - `GET` passes the store's records through;
  - `POST` runs an ordered chain of admission checks;
  - each admitted file is then uploaded, and afterwards saved, against the
    two stores;
  - the response reports every file, or a failure.
- **Document list** (`DocumentList`):
  - the case-insensitive search;
  - an in-place sort of the matching documents by name, by size or by date;
  - the component's state;
  - the rules for the badge, the download button and the viewer.
- **Contact form** (`Contact`):
  - field validation, including the e-mail pattern;
  - the submit transition;
  - the change transition.

`Wrappers` holds `Option` and `Result`. It also holds JavaScript's
truthiness of an optional string: `x || d` treats `""` like a missing value.
`Text` holds the string operations the code relies on: `toLowerCase`,
`endsWith`, `includes`, `split(...).pop()`, `trim`, `join` and decimal
rendering.

Foreign inputs appear as parameters:

- the outcome of each blob upload and each save;
- the clock;
- `new URL(...)`;
- the locale's name comparison;
- date parsing;
- the outcome of `fetch`;
- the outcome of the contact form's `onSubmit`.

## Model

| member | source | states |
|---|---|---|
| DocumentUtils.IsCloudinaryUrlValid | lib/document-utils.ts:2-8 | A missing or empty URL is invalid. Otherwise the URL is valid exactly when it contains, anywhere, `res.cloudinary.com/`, then at least one character other than `/`, then a `/`. |
| DocumentUtils.ScanFromCorrect | lib/document-utils.ts:6-7 | The executable scan succeeds exactly when the pattern matches at some start position. |
| DocumentUtils.HasValidCloudinaryStorage | lib/document-utils.ts:11-15 | A record has valid storage exactly when its URL field is present, non-empty and matches the pattern. |
| DocumentUtils.ValidUrlContainsHost | lib/document-utils.ts:6-7 | Every valid URL contains the host followed by a slash, literally. |
| DocumentUtils.HostDotsAreLiteral | lib/document-utils.ts:6 | The dots of the host are literal: `resXcloudinaryYcom/a/` is rejected. |
| DocumentUtils.CloudNameNeedsClosingSlash | lib/document-utils.ts:6-7 | A cloud name that no slash follows, such as `https://res.cloudinary.com/demo`, is rejected. |
| DocumentUtils.DeliveryUrlIsValid | lib/document-utils.ts:6-7 | The host, a non-empty slash-free cloud name and a slash make a valid URL, whatever surrounds them. |
| DocumentUtils.OneLateSlashIsInvalid | lib/document-utils.ts:6 | Without a slash at or after index 18 that another slash follows two or more places later, no match exists. |
| Text.AfterLast | lib/cloudinary.ts:39 | The last piece of `split(sep)` is a suffix of the string, contains no `sep`, and is either the whole string or preceded by `sep`. |
| Text.FileExtension | lib/cloudinary.ts:39 | The extension is dot-free and no longer than the name. |
| Text.FileExtensionAfterLastDot | components/document-list.tsx:182-184 | With a dot at `i` and none after it, the extension is the lower-cased text after that dot. |
| Text.FileExtensionWithoutDot | components/document-list.tsx:182-184 | A name without a dot is its own lower-cased extension. The empty name has the empty extension. |
| Text.ExtensionOfDottedSuffix | lib/cloudinary.ts:36-39 | A name whose lower-cased form ends in `.` plus a dot-free `ext` has extension `ext`. |
| Text.TrimEmptyIffBlank | components/contact.tsx:30 | `s.trim()` is empty exactly when every character of `s` is whitespace. |
| Text.Trim | components/contact.tsx:30 | The trimmed text neither starts nor ends with whitespace. |
| Text.TrimCutsOnlyWhitespace | components/contact.tsx:30 | The trimmed text is a slice of the input with only whitespace before and after it. |
| Text.JoinIncludesEach | app/api/documents/route.ts:55 | Every element of a list appears in the list joined with a separator. |
| Cloudinary.Classify | lib/cloudinary.ts:35-42 | A name ending in `.pdf`, in any case, gives `raw`. Otherwise one of the six image extensions, in any case, gives `image`. Everything else gives `auto`. Exactly one of the three applies. |
| Cloudinary.ImageExtension | lib/cloudinary.ts:35-39 | An image's extension is one of the image extensions, and an image is never also a PDF. |
| Cloudinary.IsPdf | lib/cloudinary.ts:35 | A name whose lower-cased form ends in `.pdf` has the extension `pdf`. |
| Cloudinary.IsImage | lib/cloudinary.ts:36 | A name that ends, in any case, in one of the six image extensions has that extension. |
| Cloudinary.UploadOptionsFor | lib/cloudinary.ts:41-53 | The options carry the classification and the folder (default `documents`). `use_filename` and `unique_filename` are on and `overwrite` is off. The only tag is `document-management`. A `format` is present exactly for images and equals the lower-cased text after the last dot. |
| Cloudinary.BuildUploadOptions | lib/cloudinary.ts:35-53 | Building the object literal and then adding `format` yields exactly those options. |
| Cloudinary.BlobStore.Upload | lib/cloudinary.ts:23-76 | Each upload appends one call, with the file name and those options, to the store's log. The store's reply is passed on. |
| Cloudinary.ViewUrlOptions | lib/cloudinary.ts:97-108 | View URLs are secure, signed and of delivery type `upload`, with resource type `raw` unless one is given. A `format` is present exactly when it is given, non-empty and not `unknown`. |
| Cloudinary.DownloadPublicId | lib/cloudinary.ts:118-126 | `.ext` is appended only when the resource type is `raw`, the extension is non-empty and the id does not already end in `.ext`. In that case the result ends in `.ext`. Otherwise the id is unchanged. |
| Cloudinary.DownloadUrlRequest | lib/cloudinary.ts:118-135 | Reassigning `fullPublicId` step by step gives that id. The URL options carry no format. |
| Cloudinary.DownloadIdIdempotent | lib/cloudinary.ts:124-125 | Feeding the extended id back in leaves it unchanged. |
| Cloudinary.DotlessNameIsItsOwnExtension | lib/cloudinary.ts:120-125 | A dot-free name such as `README` gets `.readme` appended to a raw id. |
| MongoDb.GetDatabaseName | lib/mongodb.ts:12-35 | A non-empty `MONGODB_DB_NAME` wins. Otherwise, when the URI parses, the name is the path minus its first character, and it fails if that is empty or `/`. When the URI does not parse, the call succeeds exactly when the fallback pattern matches. The name is then the maximal `?`-free run after the first slash that starts a match. Every success is non-empty. |
| MongoDb.QueryFreeRun | lib/mongodb.ts:27 | The greedy `[^?]+` run: a `?`-free slice that ends at a `?` or at the end of the string. |
| MongoDb.PathFallback | lib/mongodb.ts:27-30 | The fallback finds nothing exactly when no slash is followed by a character other than `?`. What it finds is non-empty and `?`-free. |
| MongoDb.PathFallbackFinds | lib/mongodb.ts:27 | The first slash that starts a match determines the result: the fallback is the run after it. |
| MongoDb.FallbackNamesPath | lib/mongodb.ts:27-30 | For an unparsable `host/db?query` with a slash-free host, the fallback gives `db`. |
| MongoDb.ParsedUriIgnoresFallback | lib/mongodb.ts:19-31 | Once the URI parses, only its pathname matters. The fallback is never tried. |
| MongoDb.SlashOnlyPathIsRefused | lib/mongodb.ts:21-25 | The pathname `//` gives `/`, which is refused. |
| MongoStorage.Normalize | lib/mongodb-storage.ts:31-40 | Id, name, size and date are copied. A present non-empty URL or public id is kept; a missing or empty one reads as `""`. A present file type or resource type is kept; otherwise the file type reads as `unknown` and the resource type as `raw`. |
| MongoStorage.ToStored | lib/mongodb-storage.ts:76-85 | The inserted row copies id, name, size, date, URL, public id and file type. The resource type is kept when non-empty and written as `raw` otherwise. |
| MongoStorage.NormalizeAll | lib/mongodb-storage.ts:31-40 | One normalised document per row, in row order. |
| MongoStorage.SaveThenReadBack | lib/mongodb-storage.ts:55-64 | Reading a saved document back gives it again, up to the read defaults. |
| MongoStorage.FindFirst | lib/mongodb-storage.ts:51 | The first row with the id, or none exactly when no row has it. |
| MongoStorage.DocumentStore.GetAll | lib/mongodb-storage.ts:26-45 | One normalised record per stored row, in store order. |
| MongoStorage.DocumentStore.GetById | lib/mongodb-storage.ts:48-69 | Absent exactly when no row has the id. Otherwise the first row with that id, normalised. |
| MongoStorage.DocumentStore.Exists | lib/mongodb-storage.ts:116-125 | Holds exactly when some row has the id. |
| MongoStorage.DocumentStore.Save | lib/mongodb-storage.ts:72-90 | Appends exactly one row and checks nothing about existing ids. |
| MongoStorage.DocumentStore.Delete | lib/mongodb-storage.ts:93-113 | A missing id reports not deleted and changes nothing. Otherwise the first matching row is removed, and its public id is returned unless empty. |
| MongoStorage.ExistsIffFound | lib/mongodb-storage.ts:116-121 | `exists(id)` holds exactly when `getById(id)` finds a record. |
| MongoStorage.SavedDocumentIsFound | lib/mongodb-storage.ts:72-90 | After a save, the id can be looked up. If no earlier row had the id, the saved row is the one found. |
| MongoStorage.DeleteOnlyCopy | lib/mongodb-storage.ts:96-108 | Removing the only row with an id leaves no row with it, and the other rows unchanged. |
| DocumentsRoute.FilesOf | app/api/documents/route.ts:42-44 | The files are exactly the file entries among the `file` parts. |
| DocumentsRoute.FilesOfAppend | app/api/documents/route.ts:42-44 | Taking the files of two runs of parts one after the other gives the files of the joined parts, so order and repeats are kept. |
| DocumentsRoute.FilesOfOne | app/api/documents/route.ts:42-44 | A single file entry yields that file. A text entry yields nothing. |
| DocumentsRoute.Oversized | app/api/documents/route.ts:51-52 | The oversized files are exactly those above 10·1024·1024 bytes. |
| DocumentsRoute.OversizedAppend | app/api/documents/route.ts:51-52 | Filtering two lists of files one after the other gives the filter of the joined list, so the oversized files keep their order and repeats. |
| DocumentsRoute.OversizedOne | app/api/documents/route.ts:51-52 | A single file is kept exactly when it is above 10·1024·1024 bytes. |
| DocumentsRoute.Admission | app/api/documents/route.ts:27-65 | Admission succeeds exactly when a password is configured and matches, there is a file, no file is too large and all three credentials are set. The checks apply in order: 500 `Server configuration error` when no password is configured; 401 `Invalid password` when it does not match; 400 `No file provided` when there is no file; 400 with the too-large text naming the oversized files; 500 with the not-configured text when credentials are missing. |
| DocumentsRoute.TooLargeMessage | app/api/documents/route.ts:53-56 | The too-large text names every oversized file. |
| DocumentsRoute.SizeLimitIsInclusive | app/api/documents/route.ts:51-57 | A file of exactly 10485760 bytes is admitted. One byte more gives 400 with the too-large message. |
| DocumentsRoute.TooLargeNamesEachFile | app/api/documents/route.ts:52-56 | The too-large rejection names every oversized file. |
| DocumentsRoute.DecimalValue | app/api/documents/route.ts:75 | The decimal rendering of the clock reading reads back as the same number. |
| DocumentsRoute.IdsCollideOnlyOnSameMillisAndName | app/api/documents/route.ts:75 | Two ids are equal exactly when both the millisecond and the file name are. |
| DocumentsRoute.IdSplitsAtFirstDash | app/api/documents/route.ts:75 | The first `-` of an id follows the clock reading, and the file name is everything after it. |
| DocumentsRoute.RecordFor | app/api/documents/route.ts:75-88 | The saved record takes its id from the clock and the name, its name and size from the file, and its URL and public id from the upload result. The file type is the result's format when non-empty and `unknown` otherwise. |
| DocumentsRoute.EntryFor | app/api/documents/route.ts:90-95 | The reported entry has the id, name and size of the row saved for the file, and the second timestamp taken. |
| DocumentsRoute.RowFor | app/api/documents/route.ts:79-88 | The row written for a file carries its id, name and size. |
| DocumentsRoute.AllSucceededIffEach | app/api/documents/route.ts:68-97 | The upload succeeds as a whole exactly when every file's upload and save succeed. |
| DocumentsRoute.SavedRows | app/api/documents/route.ts:68-97 | Each file adds at most one row. When every file succeeds, every file adds one. |
| DocumentsRoute.SavedRowsAppend | app/api/documents/route.ts:68-97 | The rows saved for a later batch of files follow those of an earlier batch, so rows appear in file order. |
| DocumentsRoute.SavedRowsOne | app/api/documents/route.ts:68-97 | A single file adds its record exactly when its upload and its save both went through, and adds nothing otherwise. |
| DocumentsRoute.SavedRowsAreTheSucceeded | app/api/documents/route.ts:68-103 | Even when some files fail, a row is saved exactly when it is the record of a file whose upload and save went through. Rows written before a failure stay. |
| DocumentsRoute.AllFilesSaved | app/api/documents/route.ts:68-97 | When every file succeeds, row `k` is the record of file `k`, uploaded before it was saved. |
| DocumentsRoute.Entries | app/api/documents/route.ts:90-95 | One entry per file, in file order. |
| DocumentsRoute.CallsInFileOrder | app/api/documents/route.ts:73 | Each file gets one upload call, in file order, for its own name and the `documents` folder. |
| DocumentsRoute.ReportedIdsAreStored | app/api/documents/route.ts:75-99 | After a fully successful upload, every reported id can be looked up in the store. |
| DocumentsRoute.Get | app/api/documents/route.ts:5-23 | 200 with every normalised document, or 500 with `Failed to fetch documents` and the failure's message. |
| DocumentsRoute.UploadOne | app/api/documents/route.ts:69-96 | One upload call. Then one row when both the upload and the save succeed, and none otherwise. The entry is reported either way. |
| DocumentsRoute.UploadAll | app/api/documents/route.ts:68-97 | One call per file, in order. The store gains exactly the rows of the files that succeeded. The entries are the files' entries. The failure flag is set exactly when some file failed. |
| DocumentsRoute.Post | app/api/documents/route.ts:25-104 | A rejected request returns the admission error and touches neither store. An admitted one returns 200 with every file's entry when all succeed, and 500 `Upload failed` otherwise. Rows already saved stay. |
| DocumentList.FilterByQuery | components/document-list.tsx:66 | Each document occurs in the result as often as in the list when its lower-cased name contains the lower-cased query, and otherwise not at all. |
| DocumentList.EmptyQueryKeepsAll | components/document-list.tsx:66 | An empty query keeps every document, in order. |
| DocumentList.SortInPlace | components/document-list.tsx:68-79 | The sorted array is ordered by the comparator and is a permutation of the original. |
| DocumentList.FilteredAndSorted | components/document-list.tsx:65-82 | The result is a permutation of the filtered documents, holding exactly the matching ones. Names are non-decreasing under the locale order. Sizes and parsed dates are non-increasing. |
| DocumentList.DocumentListView.constructor | components/document-list.tsx:28-32 | The state starts with no documents, loading, no error, an empty search and the name order. |
| DocumentList.DocumentListView.FetchDocuments | components/document-list.tsx:42-63 | A load keeps the data and clears the error. An HTTP error shows `Failed to load documents (status)` and a thrown error `Failed to load documents`, both with an empty list. Loading ends in every case. |
| DocumentList.DocumentListView.SetSearchQuery | components/document-list.tsx:209 | Sets the query and nothing else. |
| DocumentList.DocumentListView.ClearSearch | components/document-list.tsx:214 | Empties the query, after which every document is shown. |
| DocumentList.DocumentListView.SetSortBy | components/document-list.tsx:223-231 | Sets the sort key and nothing else. |
| DocumentList.DocumentListView.Visible | components/document-list.tsx:65-82 | The shown rows are the matching documents of the current state, sorted by its key. |
| DocumentList.Heading | components/document-list.tsx:236-247 | The heading says there are no documents exactly when the list is empty, and that none match exactly when none does. Otherwise it shows the number of matching documents, which is positive, out of the total. |
| DocumentList.RowActionFor | components/document-list.tsx:270-283 | A row offers the download exactly when its URL is non-empty. Otherwise it says a re-upload is needed. |
| DocumentList.BadgeFor | components/document-list.tsx:255-264 | `Old` exactly when there is no URL. `Invalid URL` exactly when a URL is present without `res.cloudinary.com`. |
| DocumentList.ViewerPaneFor | components/document-list.tsx:313-402 | Nothing selected shows the placeholder. A selected record without a URL shows the legacy notice. With a URL: loading shows the loading text; otherwise a PDF is framed from the view URL, or the stored URL when the view URL is missing or empty; any other file gets the no-preview pane linking its stored URL. |
| DocumentList.LegacyRecordNeedsReupload | components/document-list.tsx:255-259 | A record stored without a URL is marked `Old`, offers no download and opens on the legacy notice. |
| DocumentList.ValidStorageShowsDownload | components/document-list.tsx:260-278 | A record whose URL passes the server-side URL check shows no badge and offers the download. |
| DocumentList.HostOnlyUrlHasNoBadgeButIsInvalid | components/document-list.tsx:260 | The badge test is weaker than the server-side check: a URL that is just the host gets no badge but is not valid. |
| Contact.WithValue | components/contact.tsx:77 | Editing sets the named field and keeps the other two. |
| Contact.ValidEmailIffPattern | components/contact.tsx:36 | The one-scan check accepts exactly the strings `^[^\s@]+@[^\s@]+\.[^\s@]+$` matches. |
| Contact.RequiredError | components/contact.tsx:30-32 | A required field has an error exactly when it is blank, and the error is the given message. |
| Contact.EmailError | components/contact.tsx:34-38 | The e-mail has an error exactly when it is blank (`Email is required`) or, being non-blank, fails the check as typed (`Please enter a valid email`). |
| Contact.WithError | components/contact.tsx:80 | Setting one entry of the errors gives that field the new text and keeps the other two entries. |
| Contact.KeyCount | components/contact.tsx:45 | The count of fields with an entry is at most three and is zero exactly when the errors object is empty. |
| Contact.ErrorsForMeaning | components/contact.tsx:27-43 | The name and message errors are recorded exactly when those fields are blank, with their messages. The e-mail error is recorded exactly when the e-mail is blank (`Email is required`) or, being non-blank, fails the check (`Please enter a valid email`). |
| Contact.RecordedErrorsAreShown | components/contact.tsx:121-127 | Every error the check records is a non-empty text, so the form shows it. |
| Contact.CollectErrors | components/contact.tsx:28-43 | Building the errors object one check at a time yields the errors of the given values. |
| Contact.NoErrorsIff | components/contact.tsx:27-45 | No error is recorded exactly when the name and message are non-blank and the e-mail, as typed, matches the pattern. |
| Contact.PatternIsNotBlank | components/contact.tsx:34-36 | An address the pattern accepts is never blank. |
| Contact.LeadingSpaceIsInvalid | components/contact.tsx:34-38 | The pattern is tried on the untrimmed value: a matching address with a leading space is reported invalid. |
| Contact.ContactForm.constructor | components/contact.tsx:16-25 | The form starts empty, with no errors and no status. |
| Contact.ContactForm.ValidateForm | components/contact.tsx:27-46 | Replaces the shown errors by the errors of the current values and reports true exactly when there are none. Nothing else changes. |
| Contact.ContactForm.Send | components/contact.tsx:53-70 | Calls `onSubmit` once when it is present. On success the fields are cleared and success is set. On rejection the values are kept and the error's message, or `Failed to send message`, is shown. Submitting ends false. |
| Contact.ContactForm.HandleSubmit | components/contact.tsx:48-71 | Records the errors of the values submitted. An invalid form is not sent and keeps its values and status. A valid one is sent as above. |
| Contact.ContactForm.SuccessTimeout | components/contact.tsx:64 | The success notice is withdrawn and nothing else changes. |
| Contact.ContactForm.HandleChange | components/contact.tsx:73-82 | Sets only the edited field. When that field's error is shown it is replaced by an empty entry, so afterwards it is not shown. Other errors are kept. |

## Left out

- The blob-store SDK (upload streaming, deletion, URL signing). Its outcomes are parameters.
- An upload callback that receives neither an error nor a result never settles. The model has no such outcome.
- The MongoDB client, its connection and its development-mode cache are not modelled. Neither is the module-level failure when `MONGODB_URI` is missing: the URI is a parameter.
- `new URL(...)` is a parameter that either fails or yields a pathname.
- The store's rows are a sequence. `findOne` and `deleteOne` act on the first matching row in store order.
- `Promise.all` runs the per-file callbacks concurrently. The model takes the files in order, runs every callback to its end, and answers 500 when any of them failed. The interleaving of the stores' calls across files is not modelled.
- `request.formData()` rejecting, for a body that is not a valid form, is not modelled. The handler then answers 500 `Upload failed`.
- `file.arrayBuffer()` rejecting is not modelled. In the handler, that file then makes no upload call and the response is 500 `Upload failed`. `UploadOne` always makes the upload call.
- `Date.now()` and `new Date().toISOString()` are parameters. The two readings of the date (the stored one and the reported one) may differ, and the model keeps them apart.
- Console logging and the warning when no admin password is set.
- The delete, view, download and stream endpoints under `app/api/documents/[id]/` are not part of this model.
- `formatFileSize` uses floating-point logarithms and rounding.
- `localeCompare` and `Date` parsing are parameters: a total preorder on names and a function from strings to integers. A date that does not parse (`NaN`) is not modelled.
- DocumentList.SortInPlace: it proves sortedness and permutation, but not that documents with equal keys keep their list order, which a stable `Array.prototype.sort` gives.
- The download, view, delete and upload handlers of the document list, and all rendering markup.
- The contact form's `isSubmitting` is true only while `onSubmit` runs. The model runs a submission to completion, so that intermediate state is not visible.
- `ToLower` maps only the ASCII letters `A`-`Z`. JavaScript's `toLowerCase` also lower-cases letters of other scripts, and may change the length of the string (`U+0130` becomes two characters). File extensions and searches with such letters are not modelled.
- app/api/contact/route.ts, app/page.tsx, components/upload-form.tsx, lib/document-storage.ts and next.config.mjs are not part of this model.
