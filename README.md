# MediVault ingestion core in Dafny

MediVault is a mobile app that keeps medical documents and calendar events on the device.

A user picks an image. The app sends it to an analysis service, which returns:
- a summary, a category and context text;
- an embedding vector;
- a list of candidate calendar events.

The app then stores one `completed` document record and tags it with its category. If the analysis found events, the app asks "Add to calendar?". On "Yes" it writes the candidates one by one, each under a newly generated id.

This project models that core and proves properties of it:

- **`Types`**: the record shapes and closed enumerations (`constants/Types.ts`), with their text forms.
- **`Ordering`**: the part of SQLite the read queries rely on.
  - The BINARY collation is proved to be a total order.
  - `SELECT * ... ORDER BY column` over a table keyed by its primary key returns every row exactly once, sorted.
- **`DatabaseService`** (`services/DatabaseService.ts`):
  - The schema, and the additive migrations each wrapped in its own try block.
  - The `events`, `documents` and `categories` tables, and the row-to-record read mappings.
  - A pure function per operation on a `Snapshot` of the store, with its properties as lemmas.
  - The class `DatabaseService`, whose fields are the connection flag, the schema and the three tables. Each method is proved to move the fields exactly as the matching function says, and to keep the store well formed.
- **`ApiService`** (`services/ApiService.ts`):
  - the file name and MIME type that `analyzeImage` derives from the image uri;
  - the order of the multipart form fields;
  - the shape of the analysis response.
- **`UploadFABs`** (`components/UploadFABs.tsx`):
  - `pickImage` and `alertEventsFound` as pure functions returning the store afterwards and the ordered list of effects (analysis call, document write, refresh, timer, alerts, event writes);
  - the class `UploadFABs`, holding the `isUploading` flag and a ghost log of effects. Its methods are proved to follow the functions, the confirmation's `for` loop included.

Inputs from the outside world are parameters:
- the picker's answer;
- the analysis result, or its failure;
- the `Math.random` ids;
- the clock;
- the user's answer;
- an I/O failure of the tag insert.

The generated ids are not assumed to be unique. A collision with an existing key is the concrete way `addEvent` and `addDocument` fail here. Separate lemmas show what fresh, distinct ids guarantee.

### Behaviour of the code worth knowing

- **Event batch.** The "Yes" handler's `for` loop has no per-event `catch` (`components/UploadFABs.tsx:81-88`). The first `addEvent` that throws therefore ends the handler. Later candidates are never attempted, and neither the success alert nor the refresh happens. `SaveCandidates`, `FailureStopsBatch`, `NoWriteAfterFailure` and `SuccessOnlyWhenAllSaved` state this behaviour.
- **Document tags.** addDocument writes the document row first and the tag row second, in two separate statements (`services/DatabaseService.ts:129-139`). A failing tag insert therefore leaves the document stored without its tag. The invariant `Referential` holds in one direction only: every tag names a stored document carrying that tag's category. A document with a category need not have a tag.
- **Cascade on delete.** The `ON DELETE CASCADE` clause (`services/DatabaseService.ts:46`) is not in force, because foreign keys are never switched on. Tags are removed only by the explicit delete at `services/DatabaseService.ts:146`, which is what the model does.

## Model

| member | source | states |
|---|---|---|
| Types.ParseEventType | constants/Types.ts:1 | exactly `appointment`, `medication` and `reminder` are event types, and parsing inverts the name |
| Types.ParseEventStatus | constants/Types.ts:10 | an event status is exactly one of `pending`, `completed`, `cancelled`, and parsing inverts the name |
| Types.ParseDocumentStatus | constants/Types.ts:13 | a document status is exactly one of `processing`, `completed`, `failed`, and parsing inverts the name |
| Types.NamesRoundTrip | constants/Types.ts:1-13 | every member of each union parses back from its text, so the three names of each union are distinct |
| Ordering.TextLeReflexive | services/DatabaseService.ts:114 | every text collates no later than itself |
| Ordering.TextLeTotal | services/DatabaseService.ts:114 | any two texts are comparable under the BINARY collation used by ORDER BY |
| Ordering.TextLeTransitive | services/DatabaseService.ts:114 | the collation is transitive |
| Ordering.TextLeAntisymmetric | services/DatabaseService.ts:114 | texts that collate both ways are equal, so ties in an ORDER BY are between equal keys |
| Ordering.InOrderTotal | services/DatabaseService.ts:114 | under ASC or DESC, any two keys can be placed one before the other |
| Ordering.InOrderTransitive | services/DatabaseService.ts:151 | ASC and DESC ordering are transitive |
| Ordering.InsertInOrder | services/DatabaseService.ts:114 | inserting a row into a sorted result keeps it sorted and changes nothing else: the result is the old rows with the new one spliced in |
| Ordering.InsertedRow | services/DatabaseService.ts:114 | splicing in a row with a new key adds exactly that key and keeps the keys distinct |
| Ordering.SelectOrdered | services/DatabaseService.ts:114 | `SELECT * ... ORDER BY key` returns the rows sorted by key, each one a stored row, every stored row present, none twice |
| DatabaseService.TablesCreated | services/DatabaseService.ts:19-48 | the three CREATE TABLE IF NOT EXISTS statements add the missing tables with their declared columns and leave existing tables alone |
| DatabaseService.Execute | services/DatabaseService.ts:54-84 | an ALTER ADD COLUMN fails exactly when the table is missing or already has the column; a successful statement only adds |
| DatabaseService.TryMigration | services/DatabaseService.ts:54-84 | one try/catch block: a statement that throws leaves the schema as it was; one that succeeds only adds, and leaves its table present |
| DatabaseService.Migrated | services/DatabaseService.ts:51-85 | running the migrations, each in its own try block, only grows the schema, and every CREATE step leaves its table present |
| DatabaseService.MigratedUnfold | services/DatabaseService.ts:54-84 | the migration list is the four try blocks run in source order |
| DatabaseService.InitializedIsComplete | services/DatabaseService.ts:7-17 | after the first initDB, all three tables exist with `context`, `embedding` and event `status`, and nothing was lost |
| DatabaseService.MigrationsBenignWhenComplete | services/DatabaseService.ts:54-84 | on a complete schema, every ALTER fails with "duplicate column" and is swallowed, and the schema is unchanged |
| DatabaseService.InitializedIdempotent | services/DatabaseService.ts:7-17 | redoing createTables and migrateDB on an initialised schema changes nothing |
| DatabaseService.EventRowOf | services/DatabaseService.ts:91-93 | the written row reads back with the event's id, title, date and type; a missing description or location becomes `''`; a missing status becomes `pending` |
| DatabaseService.ReadEvent | services/DatabaseService.ts:115-123 | a read event always has a status, and it is `pending` exactly when the column was NULL or `pending` |
| DatabaseService.EventReadThenWrite | services/DatabaseService.ts:115-123 | a row as addEvent writes it survives getEvents' read followed by a rewrite; only a NULL status comes back as `pending`, so a stored `completed` or `cancelled` reads back as itself |
| DatabaseService.DocumentRowOf | services/DatabaseService.ts:129-131 | the written row reads back field by field; missing summary, category or context become `''`; the embedding reads back element for element, absent as `[]`; extracted events are not stored |
| DatabaseService.DocumentReadThenWrite | services/DatabaseService.ts:152-162 | a row as addDocument writes it survives getDocuments' read followed by a rewrite unchanged, the embedding element for element |
| DatabaseService.WithoutImage | services/DatabaseService.ts:146 | deleting by `image_id` keeps exactly the tags of other documents, and keeps their row ids increasing |
| DatabaseService.WithoutImageIdempotent | services/DatabaseService.ts:146 | deleting a document's tags twice is the same as deleting them once |
| DatabaseService.CascadeCount | services/DatabaseService.ts:146 | removing a document's tags lowers a category's count by exactly the number of that document's tags in that category |
| DatabaseService.ImageTagsOutsideCategory | services/DatabaseService.ts:134-139 | a document whose tags all carry its own category has none in any other category |
| DatabaseService.FindGroup | services/DatabaseService.ts:167 | finds the group of a category, or reports that it has none |
| DatabaseService.CountTag | services/DatabaseService.ts:167 | accounting for one more tag row keeps the GROUP BY result exact |
| DatabaseService.GroupByCategory | services/DatabaseService.ts:167 | `GROUP BY category` with COUNT(*) gives one row per distinct tagged category, whose count is its number of tag rows and at least 1; there are no more rows than tags, and none exactly when there are no tags |
| DatabaseService.OpenSpec | services/DatabaseService.ts:7-17 | initDB connects without touching rows; when already connected it changes nothing; otherwise the schema becomes complete; the store invariants are kept |
| DatabaseService.OpenIdempotent | services/DatabaseService.ts:8-11 | a second initDB changes nothing |
| DatabaseService.AddEventSpec | services/DatabaseService.ts:88-95 | addEvent succeeds exactly when the id is new, and then adds exactly that row; an existing id is a primary-key conflict that writes nothing; other tables are untouched |
| DatabaseService.UpdateEventSpec | services/DatabaseService.ts:97-104 | the row with the event's id gets every column rewritten, and nothing else changes; a missing id silently changes nothing |
| DatabaseService.DeleteEventSpec | services/DatabaseService.ts:106-110 | removes the row with that id, if present, and nothing else |
| DatabaseService.DeleteEventIdempotent | services/DatabaseService.ts:106-110 | deleting an event a second time is a no-op |
| DatabaseService.AddDocumentSpec | services/DatabaseService.ts:127-140 | a new id stores the document row first; then exactly one tag `(category, id)` is appended, only for a non-empty category and only if that insert succeeds; a failed tag insert leaves the document row and is reported; an existing id is a conflict that writes nothing |
| DatabaseService.AddDocumentKeepsWellFormed | services/DatabaseService.ts:127-140 | addDocument keeps rows keyed by primary key and the AUTOINCREMENT ids increasing and unused |
| DatabaseService.AddDocumentKeepsReferential | services/DatabaseService.ts:134-138 | after addDocument, every tag still names a stored document carrying that category |
| DatabaseService.DeleteDocumentSpec | services/DatabaseService.ts:142-147 | removes that document and exactly the tags naming it; other documents, tags and events are unchanged |
| DatabaseService.DeleteDocumentIdempotent | services/DatabaseService.ts:142-147 | deleting a document a second time is a no-op |
| DatabaseService.DeleteDocumentCounts | services/DatabaseService.ts:142-147 | deleting a document lowers its category's count by its number of tags, and leaves every other category's count unchanged |
| DatabaseService.DatabaseService.constructor | services/DatabaseService.ts:4-5 | a new service is not connected and sees the tables as left on disk |
| DatabaseService.DatabaseService.InitDB | services/DatabaseService.ts:7-17 | the fields follow `OpenSpec`, and the store stays well formed |
| DatabaseService.DatabaseService.CreateTables | services/DatabaseService.ts:19-49 | when connected, the schema becomes `TablesCreated` of the old one; otherwise nothing changes |
| DatabaseService.DatabaseService.MigrateDB | services/DatabaseService.ts:51-85 | when connected, the schema becomes the old one migrated; otherwise nothing changes |
| DatabaseService.DatabaseService.AddEvent | services/DatabaseService.ts:88-95 | the result and the new fields are those of `AddEventSpec`, and the store stays well formed |
| DatabaseService.DatabaseService.UpdateEvent | services/DatabaseService.ts:97-104 | the new fields are those of `UpdateEventSpec`, and the store stays well formed |
| DatabaseService.DatabaseService.DeleteEvent | services/DatabaseService.ts:106-110 | the new fields are those of `DeleteEventSpec`, and the store stays well formed |
| DatabaseService.DatabaseService.GetEvents | services/DatabaseService.ts:112-124 | opens the store, then returns exactly the stored events, each read back from its row, none twice, non-decreasing by `date` |
| DatabaseService.DatabaseService.SelectEvents | services/DatabaseService.ts:114-123 | the query returns every stored event once, read back from its row, ordered by `date` ascending |
| DatabaseService.DatabaseService.AddDocument | services/DatabaseService.ts:127-140 | the result and the new fields are those of `AddDocumentSpec`, and the store stays well formed |
| DatabaseService.DatabaseService.InsertDocument | services/DatabaseService.ts:129-139 | once the id is free: the document row, then the tag and a counter bump only for a non-empty category whose insert succeeds |
| DatabaseService.DatabaseService.DeleteDocument | services/DatabaseService.ts:142-147 | the new fields are those of `DeleteDocumentSpec`, and the store stays well formed |
| DatabaseService.DatabaseService.GetDocuments | services/DatabaseService.ts:149-163 | opens the store, then returns exactly the stored documents, each read back from its row, none twice, non-increasing by `uploadDate` |
| DatabaseService.DatabaseService.SelectDocuments | services/DatabaseService.ts:151-162 | the query returns every stored document once, read back from its row, ordered by `uploadDate` descending |
| DatabaseService.DatabaseService.GetCategories | services/DatabaseService.ts:165-172 | opens the store, then returns distinct categories, each with a count of at least 1 equal to its number of tag rows, covering every tag |
| ApiService.AfterLast | services/ApiService.ts:17 | the result is the suffix after the last separator, or the whole text when there is none: `split(sep).pop()` |
| ApiService.FileName | services/ApiService.ts:17 | the file name is the non-empty segment after the last `/`, or `upload.jpg` when that segment is empty |
| ApiService.WordSuffix | services/ApiService.ts:18 | the longest run of `\w` characters at the end of the name |
| ApiService.AfterLastUnique | services/ApiService.ts:17-19 | any suffix that contains no separator and starts right after one (or at the start) is the `AfterLast` result |
| ApiService.MatchIsBeforeWordSuffix | services/ApiService.ts:18 | the anchored pattern can only match at the `.` right before the longest trailing run of word characters |
| ApiService.ExtensionMatch | services/ApiService.ts:18 | `/\.(\w+)$/.exec` matches exactly when some `.` is followed by one or more word characters up to the end; the capture is the text after that `.` |
| ApiService.ExtensionMatchMeaning | services/ApiService.ts:18-19 | `/\.(\w+)$/` matches exactly when a `.` is followed by one or more word characters up to the end; the capture is then everything after the last `.` |
| ApiService.MimeType | services/ApiService.ts:18-19 | the type is `image/` plus the extension after the last `.` when the pattern matches, and `image/jpeg` otherwise |
| ApiService.CategoryFields | services/ApiService.ts:25-27 | one `categories` field per category, in input order |
| ApiService.BuildForm | services/ApiService.ts:13-30 | the body is the file part (uri, derived name and type), one `categories` part per category in order, then `allow_new_categories` as `true`/`false` |
| UploadFABs.PickImageSpec | components/UploadFABs.tsx:19-70 | a cancelled pick does nothing; otherwise the analysis comes first; a failed analysis shows the error and writes nothing; the offer is scheduled last, only after a successful document write, and carries the analysis's events; events are never written here |
| UploadFABs.NewDocument | components/UploadFABs.tsx:36-46 | the new document has the given id, uri and upload date, status `completed`, a name `Upload_` plus the time label, a tag exactly when the analysis category is non-empty, no stored events; it reads back with the analysis's summary, category, context text and embedding |
| UploadFABs.PickImageKeepsInvariants | components/UploadFABs.tsx:49 | pickImage keeps the store well formed and every tag naming its document |
| UploadFABs.AnalyzedAttempt | components/UploadFABs.tsx:33-61 | after a successful analysis, the attempt is the one addDocument call, then the error alert, or the refresh and the optional offer |
| UploadFABs.AnalyzedSavesOneCompletedDocument | components/UploadFABs.tsx:36-49 | with a fresh id, exactly one document is added, and it reads back as `completed` with the uri, summary, category, context text and embedding of the analysis; other documents are unchanged |
| UploadFABs.OneDocumentWrite | components/UploadFABs.tsx:30-61 | for a picked image, addDocument is called exactly when the analysis succeeded, as the second effect and only there, and any offer comes after it |
| UploadFABs.NoEventsNoOffer | components/UploadFABs.tsx:56 | with no extracted events, no offer is scheduled at all (not even an empty one) and no event is stored; the attempt succeeds exactly when the id is free and no tag write failed |
| UploadFABs.WithId | components/UploadFABs.tsx:82-85 | the written event carries the generated id and every other field of the candidate unchanged |
| UploadFABs.SaveCandidates | components/UploadFABs.tsx:81-86 | the loop either saves every candidate or stops at the first insert that throws, on a key already present |
| UploadFABs.BatchRows | components/UploadFABs.tsx:81-86 | each saved candidate is stored under its own generated id, which was free before, with its other fields kept; earlier rows are untouched |
| UploadFABs.BatchKeyedById | components/UploadFABs.tsx:82-85 | every row the loop writes is keyed by its event's id |
| UploadFABs.BatchKeys | components/UploadFABs.tsx:81-86 | the loop adds no key other than the generated ids of the candidates it saved |
| UploadFABs.FailureStopsBatch | components/UploadFABs.tsx:81-86 | once an insert has thrown, later candidates are not attempted |
| UploadFABs.FreshIdsSaveEveryCandidate | components/UploadFABs.tsx:81-86 | distinct generated ids that are new to the table save every candidate |
| UploadFABs.SaveOne | components/UploadFABs.tsx:82-85 | one turn of the loop is one addEvent on the store the earlier turns left; it throws exactly when the loop stops there |
| UploadFABs.AlertEventsFoundSpec | components/UploadFABs.tsx:72-93 | the prompt comes first with the candidate count; "No" writes nothing further; "Yes" leaves the events table as the loop left it; documents and tags are untouched |
| UploadFABs.ConfirmedFailure | components/UploadFABs.tsx:81-87 | when the write of candidate i throws, the handler ends after i+1 writes, without the success alert or the refresh |
| UploadFABs.SuccessOnlyWhenAllSaved | components/UploadFABs.tsx:81-88 | the success alert shows exactly when the answer was "Yes" and every candidate was saved |
| UploadFABs.WritesInCandidateOrder | components/UploadFABs.tsx:81-86 | the writes happen in list order, each the candidate with its generated id |
| UploadFABs.NoWriteAfterFailure | components/UploadFABs.tsx:81-88 | no addEvent happens after the one that threw |
| UploadFABs.AlertEventsFoundKeepsWellFormed | components/UploadFABs.tsx:81-86 | the confirmation keeps the store well formed and every tag naming its document |
| UploadFABs.UploadOffersEvents | components/UploadFABs.tsx:49-61 | a saved upload whose tag write succeeds offers every extracted event and writes none |
| UploadFABs.UploadThenConfirm | components/UploadFABs.tsx:19-93 | with fresh ids and "Yes", the document and every extracted event end up stored, each under its new id, and the success alert shows |
| UploadFABs.UploadFABs.constructor | components/UploadFABs.tsx:15-17 | the spinner starts off, and nothing has happened yet |
| UploadFABs.UploadFABs.PickImage | components/UploadFABs.tsx:19-70 | the store and the effects follow `PickImageSpec`; every effect happens while `isUploading` is true, and it is false again afterwards on every outcome |
| UploadFABs.UploadFABs.SaveAnalysis | components/UploadFABs.tsx:36-68 | the document write, then on failure the error alert, otherwise the refresh and the optional offer, all with the spinner showing; the spinner is off at the end |
| UploadFABs.UploadFABs.Abort | components/UploadFABs.tsx:63-68 | the error alert shows, then the spinner stops, and nothing is offered |
| UploadFABs.UploadFABs.Announce | components/UploadFABs.tsx:52-68 | the refresh (when a callback exists), then the offer only for a non-empty list, then the spinner stops |
| UploadFABs.UploadFABs.AlertEventsFound | components/UploadFABs.tsx:72-93 | the store and the effects follow `AlertEventsFoundSpec`; the `for` loop's invariant ties each turn to the loop specification; all of it happens with the spinner off |
| UploadFABs.UploadFABs.SaveNext | components/UploadFABs.tsx:82-85 | one addEvent under the next generated id, logged as the next write |
| UploadFABs.UploadFABs.Celebrate | components/UploadFABs.tsx:87-88 | the success alert, then the refresh when a callback exists |

## Left out

- SQLite itself is not modelled: SQL text, the query planner, and `openDatabaseAsync` failing. The tables are maps keyed by primary key plus a sequence of tag rows. Opening always succeeds.
- The `ON DELETE CASCADE` clause is not enforced, because foreign keys are never switched on. Only the explicit tag delete is modelled.
- DatabaseService.AddEventSpec: the only failure modelled for `addEvent` is a primary-key conflict. Any other I/O failure of the INSERT is not, so a loop stop caused by such a failure is not covered.
- A failure of the document INSERT other than a conflict is not modelled either. Only the tag insert has an I/O-failure input.
- The embedding's JSON encoding is not modelled. An embedding is an opaque `seq<real>` that the column stores as is. Floating-point formatting and `JSON.parse` errors are out of scope.
- Empty text versus NULL: rows are written with `''` for a missing summary, category, context, description or location. The model keeps `''` as `Some("")`. A status column can hold only the three names or NULL, so the case where the read-back `|| 'pending'` sees an empty string cannot arise.
- The `as EventType` and `as DocumentStatus` casts on read are not modelled. Columns are typed by the datatypes, so a malformed text in the database cannot be represented.
- `Math.random` ids, `new Date()`, `toISOString` and `toLocaleTimeString` are inputs. Only the document name's shape (`Upload_` plus the time label) is modelled.
- Asynchrony is not modelled: `async`/`await`, the 500 ms `setTimeout`, `Alert` dialogs and the React state hook. The flow runs as sequential steps. Alerts, the refresh callback and the timer are logged effects. The timer's call to `alertEventsFound` is the caller invoking `AlertEventsFound` with the offered events. `console.log` output is dropped.
- A throw escaping the "Yes" handler is an unhandled promise rejection in the app. The model stops the loop there and skips the alert and the refresh; the rejection itself is not modelled.
- The HTTP request of `analyzeImage` is not modelled: `fetch`, the URL, status handling and JSON parsing. Its result is an input, with `None` standing for a throw. The form `pickImage` would send is `BuildForm(uri, [], true)`, by the default arguments. The `Analyze` effect records only the uri.
- A response without `extracted_events` is modelled as an empty list. The candidates are typed `MedicalEvent`, although the source passes `any[]`.
- The image picker's options (quality, base64) and its asset list are not modelled. Only the first asset's uri matters.
- Rendering and other screens are not part of this model: the buttons' JSX and styles, the camera screen, recent uploads, the calendar and the layouts. The mock Gemini service, colours and configuration constants are not part of it either.
- The AUTOINCREMENT counter is an unbounded `nat`. SQLite's 64-bit limit is not modelled.
