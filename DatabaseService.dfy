/**
 * The on-device record store (services/DatabaseService.ts): three tables `events`, `documents`
 * and `categories`, a lazily opened connection, a fixed list of additive migrations, writes and
 * three read queries.
 *
 * The pure functions on a `Snapshot` (`OpenSpec`, `AddEventSpec`, ...) say what each operation
 * does to the store; the class `DatabaseService` holds the same state in fields and its methods
 * are proved to follow those functions.
 */
module DatabaseService {
  import opened Wrappers
  import opened Types
  import opened Ordering

  // ---------------------------------------------------------------- schema and migrations

  /** Table name to the set of its column names. */
  type Schema = map<string, set<string>>

  const EventsColumns: set<string> := {"id", "title", "date", "type", "description", "location", "status"}
  const DocumentsColumns: set<string> :=
    {"id", "uri", "name", "uploadDate", "status", "summary", "category", "context", "embedding"}
  const CategoriesColumns: set<string> := {"id", "category", "image_id"}

  /** A schema after a successful open: all three tables, with the columns the migrations add. */
  ghost predicate Complete(s: Schema) {
    && "events" in s && "documents" in s && "categories" in s
    && "context" in s["documents"] && "embedding" in s["documents"] && "status" in s["events"]
  }

  /** `true` when every table of `s` is still in `r` with at least the columns it had. */
  ghost predicate Extends(s: Schema, r: Schema) {
    forall t :: t in s ==> t in r && s[t] <= r[t]
  }

  function CreateTableIfNotExists(s: Schema, name: string, columns: set<string>): Schema {
    if name in s then s else s[name := columns]
  }

  /** The three `CREATE TABLE IF NOT EXISTS` statements of createTables. */
  function TablesCreated(s: Schema): (r: Schema)
    ensures r.Keys == s.Keys + {"events", "documents", "categories"}
    ensures forall t :: t in s ==> r[t] == s[t]
    ensures "events" !in s ==> r["events"] == EventsColumns
    ensures "documents" !in s ==> r["documents"] == DocumentsColumns
    ensures "categories" !in s ==> r["categories"] == CategoriesColumns
  {
    var s1 := CreateTableIfNotExists(s, "events", EventsColumns);
    var s2 := CreateTableIfNotExists(s1, "documents", DocumentsColumns);
    CreateTableIfNotExists(s2, "categories", CategoriesColumns)
  }

  datatype SqlError = DuplicateColumn(table: string, column: string) | NoSuchTable(table: string)

  /** One statement of migrateDB. */
  datatype Migration =
    | AddColumn(table: string, column: string)
    | CreateTable(table: string, columns: set<string>)

  /** The migrations, in the order migrateDB runs them. */
  const Migrations: seq<Migration> := [
    AddColumn("documents", "context"),
    AddColumn("documents", "embedding"),
    AddColumn("events", "status"),
    CreateTable("categories", CategoriesColumns)
  ]

  /**
   * Executes one migration statement. `ALTER TABLE ... ADD COLUMN` throws when the column is
   * already there or the table is missing; `CREATE TABLE IF NOT EXISTS` never throws.
   */
  function Execute(s: Schema, m: Migration): (r: Result<Schema, SqlError>)
    ensures r.Failure? <==> m.AddColumn? && (m.table !in s || m.column in s[m.table])
    ensures r.Failure? && m.table in s ==> r.error == DuplicateColumn(m.table, m.column)
    ensures r.Success? ==> m.table in r.value && Extends(s, r.value) && r.value.Keys == s.Keys + {m.table}
    ensures r.Success? && m.AddColumn? ==> r.value[m.table] == s[m.table] + {m.column}
    ensures r.Success? ==> forall t :: t in s && t != m.table ==> r.value[t] == s[t]
  {
    match m
    case AddColumn(table, column) =>
      if table !in s then Failure(NoSuchTable(table))
      else if column in s[table] then Failure(DuplicateColumn(table, column))
      else Success(s[table := s[table] + {column}])
    case CreateTable(table, columns) =>
      Success(CreateTableIfNotExists(s, table, columns))
  }

  /** One `try { ... } catch { log }` block of migrateDB: a step that throws changes nothing. */
  function TryMigration(s: Schema, m: Migration): (r: Schema)
    ensures Extends(s, r)
    ensures Execute(s, m).Failure? ==> r == s
    ensures Execute(s, m).Success? ==> m.table in r
  {
    match Execute(s, m)
    case Success(s') => s'
    case Failure(_) => s
  }

  /** Runs `steps` in order, each in its own try block; the schema only ever grows. */
  function Migrated(s: Schema, steps: seq<Migration>): (r: Schema)
    ensures Extends(s, r)
    ensures forall m :: m in steps && m.CreateTable? ==> m.table in r
    decreases |steps|
  {
    if steps == [] then s
    else
      var s' := TryMigration(s, steps[0]);
      assert steps == [steps[0]] + steps[1..];
      Migrated(s', steps[1..])
  }

  /** The four try blocks of migrateDB, one after the other. */
  lemma MigratedUnfold(s: Schema)
    ensures Migrated(s, Migrations) ==
      TryMigration(TryMigration(TryMigration(TryMigration(s, Migrations[0]), Migrations[1]), Migrations[2]), Migrations[3])
  {
    var s1 := TryMigration(s, Migrations[0]);
    var s2 := TryMigration(s1, Migrations[1]);
    var s3 := TryMigration(s2, Migrations[2]);
    var s4 := TryMigration(s3, Migrations[3]);
    assert Migrations[1..][0] == Migrations[1] && Migrations[1..][1..] == Migrations[2..];
    assert Migrations[2..][0] == Migrations[2] && Migrations[2..][1..] == Migrations[3..];
    assert Migrations[3..][0] == Migrations[3] && Migrations[3..][1..] == [];
    assert Migrated(s, Migrations) == Migrated(s1, Migrations[1..]);
    assert Migrated(s1, Migrations[1..]) == Migrated(s2, Migrations[2..]);
    assert Migrated(s2, Migrations[2..]) == Migrated(s3, Migrations[3..]);
    assert Migrated(s3, Migrations[3..]) == s4;
  }

  /** The schema after initDB's first call: createTables, then migrateDB. */
  function Initialized(s: Schema): Schema {
    Migrated(TablesCreated(s), Migrations)
  }

  /** After the first initDB all three tables exist with the `context`, `embedding` and `status` columns. */
  lemma InitializedIsComplete(s: Schema)
    ensures Complete(Initialized(s)) && Extends(s, Initialized(s))
  {
    var s0 := TablesCreated(s);
    var s1 := TryMigration(s0, Migrations[0]);
    var s2 := TryMigration(s1, Migrations[1]);
    var s3 := TryMigration(s2, Migrations[2]);
    var s4 := TryMigration(s3, Migrations[3]);
    MigratedUnfold(s0);
    assert "context" in s1["documents"];
    assert "embedding" in s2["documents"] && "context" in s2["documents"];
    assert "status" in s3["events"];
  }

  /**
   * On a complete schema every migration is benign: each ALTER fails with "duplicate column"
   * (and is swallowed), the CREATE finds its table, and the schema is unchanged.
   */
  lemma MigrationsBenignWhenComplete(s: Schema)
    requires Complete(s)
    ensures forall m :: m in Migrations ==> TryMigration(s, m) == s
    ensures forall m :: m in Migrations && Execute(s, m).Failure? ==> Execute(s, m).error.DuplicateColumn?
    ensures Migrated(s, Migrations) == s
  {
    MigratedUnfold(s);
  }

  /** Running initDB's schema work a second time changes nothing. */
  lemma InitializedIdempotent(s: Schema)
    ensures Initialized(Initialized(s)) == Initialized(s)
  {
    InitializedIsComplete(s);
    var i := Initialized(s);
    assert TablesCreated(i) == i;
    MigrationsBenignWhenComplete(i);
  }

  // ---------------------------------------------------------------- rows

  /** A row of `events`; a nullable column is an `Option` (NULL is `None`). */
  datatype EventRow = EventRow(
    id: string,
    title: string,
    date: string,
    eventType: EventType,
    description: Option<string>,
    location: Option<string>,
    status: Option<EventStatus>)

  /** A row of `documents`; `embedding` stands for the JSON text of the vector. */
  datatype DocumentRow = DocumentRow(
    id: string,
    uri: string,
    name: string,
    uploadDate: string,
    status: DocumentStatus,
    summary: Option<string>,
    category: Option<string>,
    context: Option<string>,
    embedding: Option<seq<real>>)

  /** A row of `categories`: its AUTOINCREMENT key, the tag and the owning document's id. */
  datatype Tag = Tag(rowId: nat, category: string, imageId: string)

  /** A row of `SELECT category, COUNT(*) ... GROUP BY category`. */
  datatype CategoryCount = CategoryCount(category: string, count: nat)

  /** JavaScript's `x || ''` on an optional text. */
  function OrEmpty(o: Option<string>): string {
    o.GetOr("")
  }

  /** JavaScript truthiness of an optional text: present and non-empty. */
  predicate Truthy(o: Option<string>) {
    o.Some? && o.value != ""
  }

  /** The row addEvent and updateEvent write for `e`. */
  function EventRowOf(e: MedicalEvent): (row: EventRow)
    ensures row.id == e.id
    ensures var back := ReadEvent(row);
      && back.id == e.id && back.title == e.title && back.date == e.date && back.eventType == e.eventType
      && back.description == Some(OrEmpty(e.description))
      && back.location == Some(OrEmpty(e.location))
      && back.status == Some(e.status.GetOr(Pending))
  {
    EventRow(e.id, e.title, e.date, e.eventType, Some(OrEmpty(e.description)), Some(OrEmpty(e.location)),
             Some(e.status.GetOr(Pending)))
  }

  /** The record getEvents builds from a row: a NULL status reads as `'pending'`. */
  function ReadEvent(row: EventRow): (e: MedicalEvent)
    ensures e.id == row.id && e.date == row.date
    ensures e.status.Some? && (e.status.value == Pending <==> row.status.None? || row.status == Some(Pending))
  {
    MedicalEvent(row.id, row.title, row.date, row.eventType, row.description, row.location,
                 Some(row.status.GetOr(Pending)))
  }

  /** The row addDocument writes for `d`; `extractedEvents` has no column and is dropped. */
  function DocumentRowOf(d: MedicalDocument): (row: DocumentRow)
    ensures row.id == d.id && row.category == Some(OrEmpty(d.category))
    ensures var back := ReadDocument(row);
      && back.id == d.id && back.uri == d.uri && back.name == d.name
      && back.uploadDate == d.uploadDate && back.status == d.status
      && back.summary == Some(OrEmpty(d.summary))
      && back.category == Some(OrEmpty(d.category))
      && back.context == Some(OrEmpty(d.context))
      && back.embedding == Some(d.embedding.GetOr([]))
      && back.extractedEvents == None
  {
    DocumentRow(d.id, d.uri, d.name, d.uploadDate, d.status, Some(OrEmpty(d.summary)), Some(OrEmpty(d.category)),
                Some(OrEmpty(d.context)), Some(d.embedding.GetOr([])))
  }

  /** The record getDocuments builds from a row: a NULL embedding reads as `[]`. */
  function ReadDocument(row: DocumentRow): (d: MedicalDocument)
    ensures d.id == row.id && d.uploadDate == row.uploadDate
    ensures d.embedding == Some(if row.embedding.Some? then row.embedding.value else [])
  {
    MedicalDocument(row.id, row.uri, row.name, row.uploadDate, row.status, row.summary, row.category, row.context,
                    Some(row.embedding.GetOr([])), None)
  }

  /**
   * A row whose nullable text columns are all set (as every row addEvent and updateEvent write)
   * survives a read followed by a rewrite, except that a NULL status comes back as `'pending'`.
   */
  lemma EventReadThenWrite(row: EventRow)
    requires row.description.Some? && row.location.Some?
    ensures EventRowOf(ReadEvent(row)) == row.(status := Some(row.status.GetOr(Pending)))
    ensures row.status.Some? ==> EventRowOf(ReadEvent(row)) == row
  {
  }

  /**
   * A row whose nullable columns are all set (as every row addDocument writes) survives a read
   * followed by a rewrite unchanged; in particular the embedding comes back element for element.
   */
  lemma DocumentReadThenWrite(row: DocumentRow)
    requires row.summary.Some? && row.category.Some? && row.context.Some? && row.embedding.Some?
    ensures DocumentRowOf(ReadDocument(row)) == row
  {
  }

  // ---------------------------------------------------------------- the categories table

  /** `COUNT(*)` of the tag rows with category `c`. */
  function TagCount(tags: seq<Tag>, c: string): nat {
    if tags == [] then 0
    else TagCount(tags[..|tags| - 1], c) + (if tags[|tags| - 1].category == c then 1 else 0)
  }

  /** The number of tag rows of document `id` with category `c`. */
  function ImageTagCount(tags: seq<Tag>, id: string, c: string): nat {
    if tags == [] then 0
    else
      var t := tags[|tags| - 1];
      ImageTagCount(tags[..|tags| - 1], id, c) + (if t.imageId == id && t.category == c then 1 else 0)
  }

  ghost predicate Increasing(tags: seq<Tag>) {
    forall i, j :: 0 <= i < j < |tags| ==> tags[i].rowId < tags[j].rowId
  }

  /** `DELETE FROM categories WHERE image_id = id`: the other rows, in their order. */
  function WithoutImage(tags: seq<Tag>, id: string): (r: seq<Tag>)
    ensures forall t :: t in r <==> t in tags && t.imageId != id
    ensures Increasing(tags) ==> Increasing(r)
  {
    if tags == [] then []
    else
      var init, last := tags[..|tags| - 1], tags[|tags| - 1];
      assert forall t :: t in tags <==> t in init || t == last;
      var rest := WithoutImage(init, id);
      if last.imageId == id then rest else rest + [last]
  }

  /** Deleting a document's tags a second time finds none left. */
  lemma {:induction false} WithoutImageIdempotent(tags: seq<Tag>, id: string)
    ensures WithoutImage(WithoutImage(tags, id), id) == WithoutImage(tags, id)
  {
    if tags != [] {
      var init, last := tags[..|tags| - 1], tags[|tags| - 1];
      WithoutImageIdempotent(init, id);
      var rest := WithoutImage(init, id);
      if last.imageId != id {
        assert (rest + [last])[..|rest|] == rest;
      }
    }
  }

  /** A category none of whose rows is present counts zero. */
  lemma {:induction false} TagCountAbsent(tags: seq<Tag>, c: string)
    requires forall k :: 0 <= k < |tags| ==> tags[k].category != c
    ensures TagCount(tags, c) == 0
  {
    if tags != [] {
      TagCountAbsent(tags[..|tags| - 1], c);
    }
  }

  /**
   * Deleting the tags of document `id` lowers the count of category `c` by exactly the number of
   * tags that document had in `c`.
   */
  lemma {:induction false} CascadeCount(tags: seq<Tag>, id: string, c: string)
    ensures TagCount(WithoutImage(tags, id), c) + ImageTagCount(tags, id, c) == TagCount(tags, c)
  {
    if tags != [] {
      var init, last := tags[..|tags| - 1], tags[|tags| - 1];
      CascadeCount(init, id, c);
      var rest := WithoutImage(init, id);
      if last.imageId != id {
        assert (rest + [last])[..|rest|] == rest;
      }
    }
  }

  /** If every tag of document `id` is in category `c`, no other category's count changes. */
  lemma {:induction false} ImageTagsOutsideCategory(tags: seq<Tag>, id: string, c: string, other: string)
    requires forall t :: t in tags && t.imageId == id ==> t.category == c
    requires other != c
    ensures ImageTagCount(tags, id, other) == 0
  {
    if tags != [] {
      var init := tags[..|tags| - 1];
      assert forall t :: t in init ==> t in tags;
      ImageTagsOutsideCategory(init, id, c, other);
    }
  }

  /** Category `c` has a row in the result of the GROUP BY query. */
  ghost predicate Listed(groups: seq<CategoryCount>, c: string) {
    exists i :: 0 <= i < |groups| && groups[i].category == c
  }

  /** The position of category `c` among the groups found so far, or `|groups|` when it has none. */
  method FindGroup(groups: seq<CategoryCount>, c: string) returns (g: nat)
    ensures g <= |groups|
    ensures g < |groups| ==> groups[g].category == c
    ensures g == |groups| ==> !Listed(groups, c)
  {
    g := 0;
    while g < |groups| && groups[g].category != c
      invariant g <= |groups|
      invariant forall i :: 0 <= i < g ==> groups[i].category != c
    {
      g := g + 1;
    }
  }

  /**
   * `groups` is a GROUP BY of `tags` on category with COUNT(*): each row's count is the number of
   * tags in its category and at least one, no category has two rows, and every tag's category has one.
   */
  ghost predicate GroupedCounts(groups: seq<CategoryCount>, tags: seq<Tag>) {
    && (forall i :: 0 <= i < |groups| ==> groups[i].count == TagCount(tags, groups[i].category) >= 1)
    && (forall i, j :: 0 <= i < j < |groups| ==> groups[i].category != groups[j].category)
    && (forall k :: 0 <= k < |tags| ==> Listed(groups, tags[k].category))
  }

  /** Accounts for one more tag row: bumps its category's count, or adds the category with count 1. */
  method CountTag(groups: seq<CategoryCount>, tags: seq<Tag>, t: Tag) returns (r: seq<CategoryCount>)
    requires GroupedCounts(groups, tags)
    ensures GroupedCounts(r, tags + [t])
    ensures |groups| <= |r| <= |groups| + 1
  {
    var all := tags + [t];
    assert all[..|tags|] == tags;
    var c := t.category;
    var g := FindGroup(groups, c);
    if g < |groups| {
      r := groups[g := CategoryCount(c, groups[g].count + 1)];
      assert forall i :: 0 <= i < |r| ==> r[i].category == groups[i].category;
    } else {
      assert forall k :: 0 <= k < |tags| ==> tags[k].category != c;
      TagCountAbsent(tags, c);
      r := groups + [CategoryCount(c, 1)];
    }
    forall k | 0 <= k < |all|
      ensures Listed(r, all[k].category)
    {
      if k == |tags| {
        assert r[g].category == c;
      } else {
        var i :| 0 <= i < |groups| && groups[i].category == tags[k].category;
        assert r[i].category == all[k].category;
      }
    }
  }

  /**
   * `SELECT category, COUNT(*) AS count FROM categories GROUP BY category`: one row per distinct
   * category, with the number of its tags; a category with no tag does not appear.
   */
  method GroupByCategory(tags: seq<Tag>) returns (groups: seq<CategoryCount>)
    ensures forall i :: 0 <= i < |groups| ==> groups[i].count == TagCount(tags, groups[i].category) >= 1
    ensures forall i, j :: 0 <= i < j < |groups| ==> groups[i].category != groups[j].category
    ensures forall k :: 0 <= k < |tags| ==> Listed(groups, tags[k].category)
    ensures |groups| <= |tags| && (|groups| == 0 <==> |tags| == 0)
  {
    groups := [];
    var n := 0;
    while n < |tags|
      invariant n <= |tags| && |groups| <= n && (n > 0 ==> |groups| > 0)
      invariant GroupedCounts(groups, tags[..n])
    {
      assert tags[..n + 1] == tags[..n] + [tags[n]];
      groups := CountTag(groups, tags[..n], tags[n]);
      n := n + 1;
    }
    assert tags[..n] == tags;
  }

  // ---------------------------------------------------------------- the store as a value

  /** The database file and the connection flag (`db !== null`). */
  datatype Snapshot = Snapshot(
    connected: bool,
    schema: Schema,
    events: map<string, EventRow>,
    documents: map<string, DocumentRow>,
    tags: seq<Tag>,
    nextTagId: nat)

  /**
   * A connection is only held over a complete schema, rows are keyed by their PRIMARY KEY,
   * AUTOINCREMENT keys grow and are never reused, and a table that does not exist holds no rows.
   */
  ghost predicate WellFormed(s: Snapshot) {
    && (s.connected ==> Complete(s.schema))
    && (forall id :: id in s.events ==> s.events[id].id == id)
    && (forall id :: id in s.documents ==> s.documents[id].id == id)
    && (forall t :: t in s.tags ==> t.rowId < s.nextTagId)
    && Increasing(s.tags)
    && ("events" !in s.schema ==> s.events == map[])
    && ("documents" !in s.schema ==> s.documents == map[])
    && ("categories" !in s.schema ==> s.tags == [])
  }

  /** Every tag names a stored document, and that document's stored category is the tag's. */
  ghost predicate Referential(s: Snapshot) {
    forall t :: t in s.tags ==> t.imageId in s.documents && s.documents[t.imageId].category == Some(t.category)
  }

  /** The tables' contents are those of `s`. */
  ghost predicate SameRows(s: Snapshot, r: Snapshot) {
    r.events == s.events && r.documents == s.documents && r.tags == s.tags && r.nextTagId == s.nextTagId
  }

  datatype StoreError =
    | Conflict(table: string, id: string)   // PRIMARY KEY constraint failed
    | WriteFailed(table: string)            // an I/O failure on that table

  /** What a write returned and the store afterwards. */
  datatype Step = Step(outcome: Outcome<StoreError>, state: Snapshot)

  /** initDB: does nothing when already connected; otherwise connects, creates tables and migrates. */
  function OpenSpec(s: Snapshot): (r: Snapshot)
    ensures r.connected && SameRows(s, r) && Extends(s.schema, r.schema)
    ensures s.connected ==> r == s
    ensures !s.connected ==> Complete(r.schema)
    ensures WellFormed(s) ==> WellFormed(r)
    ensures Referential(s) ==> Referential(r)
  {
    if s.connected then s
    else
      InitializedIsComplete(s.schema);
      s.(connected := true, schema := Initialized(s.schema))
  }

  /** A second initDB changes nothing. */
  lemma OpenIdempotent(s: Snapshot)
    ensures OpenSpec(OpenSpec(s)) == OpenSpec(s)
  {
  }

  /** addEvent: one new row, or a primary-key conflict that writes nothing. */
  function AddEventSpec(s: Snapshot, e: MedicalEvent): (r: Step)
    ensures r.state.connected && r.state.schema == OpenSpec(s).schema
    ensures r.outcome.Pass? <==> e.id !in s.events
    ensures r.outcome.Pass? ==> r.state.events == s.events[e.id := EventRowOf(e)]
    ensures r.outcome.Fail? ==> r.outcome.error == Conflict("events", e.id) && r.state.events == s.events
    ensures r.state.documents == s.documents && r.state.tags == s.tags && r.state.nextTagId == s.nextTagId
    ensures WellFormed(s) ==> WellFormed(r.state)
    ensures Referential(s) ==> Referential(r.state)
  {
    var o := OpenSpec(s);
    if e.id in o.events then Step(Fail(Conflict("events", e.id)), o)
    else Step(Pass, o.(events := o.events[e.id := EventRowOf(e)]))
  }

  /** updateEvent: replaces every column of the row with `e.id`; a missing id is a silent miss. */
  function UpdateEventSpec(s: Snapshot, e: MedicalEvent): (r: Snapshot)
    ensures r.connected && r.schema == OpenSpec(s).schema
    ensures e.id in s.events ==> r.events == s.events[e.id := EventRowOf(e)]
    ensures e.id !in s.events ==> r.events == s.events
    ensures r.documents == s.documents && r.tags == s.tags && r.nextTagId == s.nextTagId
    ensures WellFormed(s) ==> WellFormed(r)
    ensures Referential(s) ==> Referential(r)
  {
    var o := OpenSpec(s);
    if e.id in o.events then o.(events := o.events[e.id := EventRowOf(e)]) else o
  }

  /** deleteEvent: removes the row with that id, if any, and nothing else. */
  function DeleteEventSpec(s: Snapshot, id: string): (r: Snapshot)
    ensures r.connected && r.schema == OpenSpec(s).schema
    ensures r.events.Keys == s.events.Keys - {id}
    ensures forall k :: k in r.events ==> r.events[k] == s.events[k]
    ensures r.documents == s.documents && r.tags == s.tags && r.nextTagId == s.nextTagId
    ensures WellFormed(s) ==> WellFormed(r)
    ensures Referential(s) ==> Referential(r)
  {
    var o := OpenSpec(s);
    o.(events := o.events - {id})
  }

  /** Deleting the same event twice is the same as deleting it once. */
  lemma DeleteEventIdempotent(s: Snapshot, id: string)
    ensures DeleteEventSpec(DeleteEventSpec(s, id), id) == DeleteEventSpec(s, id)
  {
  }

  /**
   * addDocument: the document row first; then, only for a non-empty category, one tag row.
   * A failing tag insert leaves the document row in place and is reported.
   * `tagWriteFails` stands for an I/O failure of the second INSERT.
   */
  function AddDocumentSpec(s: Snapshot, d: MedicalDocument, tagWriteFails: bool): (r: Step)
    ensures r.state.connected && r.state.schema == OpenSpec(s).schema
    ensures d.id in s.documents ==> r == Step(Fail(Conflict("documents", d.id)), OpenSpec(s))
    ensures d.id !in s.documents ==> r.state.documents == s.documents[d.id := DocumentRowOf(d)]
    ensures r.state.tags ==
      if d.id !in s.documents && Truthy(d.category) && !tagWriteFails
      then s.tags + [Tag(s.nextTagId, d.category.value, d.id)] else s.tags
    ensures r.outcome.Pass? <==> d.id !in s.documents && !(Truthy(d.category) && tagWriteFails)
    ensures r.outcome.Fail? && d.id !in s.documents ==> r.outcome.error == WriteFailed("categories")
    ensures r.state.events == s.events
  {
    var o := OpenSpec(s);
    if d.id in o.documents then Step(Fail(Conflict("documents", d.id)), o)
    else
      var withDoc := o.(documents := o.documents[d.id := DocumentRowOf(d)]);
      if !Truthy(d.category) then Step(Pass, withDoc)
      else if tagWriteFails then Step(Fail(WriteFailed("categories")), withDoc)
      else Step(Pass, withDoc.(tags := o.tags + [Tag(o.nextTagId, d.category.value, d.id)],
                               nextTagId := o.nextTagId + 1))
  }

  /** A row appended with an id above every existing one keeps the ids increasing. */
  lemma IncreasingSnoc(tags: seq<Tag>, t: Tag)
    requires Increasing(tags) && forall x :: x in tags ==> x.rowId < t.rowId
    ensures Increasing(tags + [t])
  {
    var r := tags + [t];
    forall i, j | 0 <= i < j < |r|
      ensures r[i].rowId < r[j].rowId
    {
      assert r[i] == tags[i] && tags[i] in tags;
    }
  }

  /**
   * addDocument keeps the store well formed: the new tag's row id is the counter, which then
   * grows, and the document row is keyed by its id.
   */
  lemma AddDocumentKeepsWellFormed(s: Snapshot, d: MedicalDocument, tagWriteFails: bool)
    requires WellFormed(s)
    ensures WellFormed(AddDocumentSpec(s, d, tagWriteFails).state)
  {
    var o := OpenSpec(s);
    var r := AddDocumentSpec(s, d, tagWriteFails).state;
    if d.id !in o.documents {
      var withDoc := o.(documents := o.documents[d.id := DocumentRowOf(d)]);
      assert WellFormed(withDoc);
      if Truthy(d.category) && !tagWriteFails {
        var t := Tag(o.nextTagId, d.category.value, d.id);
        IncreasingSnoc(o.tags, t);
        assert r == withDoc.(tags := o.tags + [t], nextTagId := o.nextTagId + 1);
      } else {
        assert r == withDoc;
      }
    }
  }

  /** addDocument keeps every tag naming a stored document with the category it was stored with. */
  lemma AddDocumentKeepsReferential(s: Snapshot, d: MedicalDocument, tagWriteFails: bool)
    requires Referential(s)
    ensures Referential(AddDocumentSpec(s, d, tagWriteFails).state)
  {
  }

  /** deleteDocument: removes the document and, explicitly, every tag that names it. */
  function DeleteDocumentSpec(s: Snapshot, id: string): (r: Snapshot)
    ensures r.connected && r.schema == OpenSpec(s).schema
    ensures r.documents.Keys == s.documents.Keys - {id}
    ensures forall k :: k in r.documents ==> r.documents[k] == s.documents[k]
    ensures forall t :: t in r.tags <==> t in s.tags && t.imageId != id
    ensures r.events == s.events && r.nextTagId == s.nextTagId
    ensures WellFormed(s) ==> WellFormed(r)
    ensures Referential(s) ==> Referential(r)
  {
    var o := OpenSpec(s);
    o.(documents := o.documents - {id}, tags := WithoutImage(o.tags, id))
  }

  /** Deleting the same document twice is the same as deleting it once. */
  lemma DeleteDocumentIdempotent(s: Snapshot, id: string)
    ensures DeleteDocumentSpec(DeleteDocumentSpec(s, id), id) == DeleteDocumentSpec(s, id)
  {
    WithoutImageIdempotent(OpenSpec(s).tags, id);
  }

  /**
   * Deleting a document lowers its category's tag count by the number of tags it had (one, when
   * it was stored by a single addDocument), and leaves every other category's count unchanged.
   */
  lemma DeleteDocumentCounts(s: Snapshot, id: string, c: string)
    requires Referential(s) && id in s.documents && s.documents[id].category == Some(c)
    ensures TagCount(DeleteDocumentSpec(s, id).tags, c) == TagCount(s.tags, c) - ImageTagCount(s.tags, id, c)
    ensures forall other :: other != c ==> TagCount(DeleteDocumentSpec(s, id).tags, other) == TagCount(s.tags, other)
  {
    CascadeCount(s.tags, id, c);
    forall other | other != c
      ensures TagCount(DeleteDocumentSpec(s, id).tags, other) == TagCount(s.tags, other)
    {
      ImageTagsOutsideCategory(s.tags, id, c, other);
      CascadeCount(s.tags, id, other);
    }
  }

  // ---------------------------------------------------------------- the service object

  class DatabaseService {
    var connected: bool
    var schema: Schema
    var events: map<string, EventRow>
    var documents: map<string, DocumentRow>
    var tags: seq<Tag>
    var nextTagId: nat

    function State(): Snapshot
      reads this
    {
      Snapshot(connected, schema, events, documents, tags, nextTagId)
    }

    ghost predicate Valid()
      reads this
    {
      WellFormed(State())
    }

    /** A service over the database file as earlier runs left it, not yet connected. */
    constructor(onDisk: Snapshot)
      requires WellFormed(onDisk)
      ensures Valid() && State() == onDisk.(connected := false)
    {
      connected := false;
      schema := onDisk.schema;
      events := onDisk.events;
      documents := onDisk.documents;
      tags := onDisk.tags;
      nextTagId := onDisk.nextTagId;
    }

    method InitDB()
      requires Valid()
      modifies this
      ensures Valid() && State() == OpenSpec(old(State()))
    {
      if connected {
        return;
      }
      connected := true;
      CreateTables();
      MigrateDB();
      InitializedIsComplete(old(schema));
    }

    method CreateTables()
      modifies this`schema
      ensures schema == if connected then TablesCreated(old(schema)) else old(schema)
    {
      if !connected {
        return;
      }
      schema := CreateTableIfNotExists(schema, "events", EventsColumns);
      schema := CreateTableIfNotExists(schema, "documents", DocumentsColumns);
      schema := CreateTableIfNotExists(schema, "categories", CategoriesColumns);
    }

    method MigrateDB()
      modifies this`schema
      ensures schema == if connected then Migrated(old(schema), Migrations) else old(schema)
    {
      if !connected {
        return;
      }
      schema := TryMigration(schema, AddColumn("documents", "context"));
      schema := TryMigration(schema, AddColumn("documents", "embedding"));
      schema := TryMigration(schema, AddColumn("events", "status"));
      schema := TryMigration(schema, CreateTable("categories", CategoriesColumns));
      MigratedUnfold(old(schema));
    }

    method AddEvent(e: MedicalEvent) returns (r: Outcome<StoreError>)
      requires Valid()
      modifies this
      ensures Valid()
      ensures r == AddEventSpec(old(State()), e).outcome && State() == AddEventSpec(old(State()), e).state
    {
      if !connected {
        InitDB();
      }
      if e.id in events {
        return Fail(Conflict("events", e.id));
      }
      events := events[e.id := EventRowOf(e)];
      r := Pass;
    }

    method UpdateEvent(e: MedicalEvent)
      requires Valid()
      modifies this
      ensures Valid() && State() == UpdateEventSpec(old(State()), e)
    {
      if !connected {
        InitDB();
      }
      if e.id in events {
        events := events[e.id := EventRowOf(e)];
      }
    }

    method DeleteEvent(id: string)
      requires Valid()
      modifies this
      ensures Valid() && State() == DeleteEventSpec(old(State()), id)
    {
      if !connected {
        InitDB();
      }
      events := events - {id};
    }

    /** `SELECT * FROM events ORDER BY date ASC`, each row read back as a record. */
    method GetEvents() returns (result: seq<MedicalEvent>)
      requires Valid()
      modifies this
      ensures Valid() && State() == OpenSpec(old(State()))
      ensures SortedBy(result, (e: MedicalEvent) => e.date, Ascending)
      ensures forall i :: 0 <= i < |result| ==> result[i].id in events && result[i] == ReadEvent(events[result[i].id])
      ensures forall id :: id in events ==> exists i :: 0 <= i < |result| && result[i].id == id
      ensures forall i, j :: 0 <= i < j < |result| ==> result[i].id != result[j].id
    {
      if !connected {
        InitDB();
      }
      result := SelectEvents();
    }

    /** The query itself, on the connected store. */
    method SelectEvents() returns (result: seq<MedicalEvent>)
      requires forall id :: id in events ==> events[id].id == id
      ensures SortedBy(result, (e: MedicalEvent) => e.date, Ascending)
      ensures forall i :: 0 <= i < |result| ==> result[i].id in events && result[i] == ReadEvent(events[result[i].id])
      ensures forall id :: id in events ==> exists i :: 0 <= i < |result| && result[i].id == id
      ensures forall i, j :: 0 <= i < j < |result| ==> result[i].id != result[j].id
    {
      var rows := SelectOrdered(events, (row: EventRow) => row.id, (row: EventRow) => row.date, Ascending);
      result := seq(|rows|, i requires 0 <= i < |rows| => ReadEvent(rows[i]));
      forall id | id in events
        ensures exists i :: 0 <= i < |result| && result[i].id == id
      {
        var i :| 0 <= i < |rows| && rows[i].id == id;
        assert result[i].id == id;
      }
    }

    method AddDocument(d: MedicalDocument, tagWriteFails: bool) returns (r: Outcome<StoreError>)
      requires Valid()
      modifies this
      ensures Valid()
      ensures r == AddDocumentSpec(old(State()), d, tagWriteFails).outcome
      ensures State() == AddDocumentSpec(old(State()), d, tagWriteFails).state
    {
      AddDocumentKeepsWellFormed(old(State()), d, tagWriteFails);
      if !connected {
        InitDB();
      }
      if d.id in documents {
        r := Fail(Conflict("documents", d.id));
        return;
      }
      r := InsertDocument(d, tagWriteFails);
    }

    /** The two INSERTs of addDocument once the id is known to be free. */
    method InsertDocument(d: MedicalDocument, tagWriteFails: bool) returns (r: Outcome<StoreError>)
      modifies this`documents, this`tags, this`nextTagId
      ensures var withDoc := old(State()).(documents := old(documents)[d.id := DocumentRowOf(d)]);
        if Truthy(d.category) && !tagWriteFails
        then r == Pass && State() == withDoc.(tags := old(tags) + [Tag(old(nextTagId), d.category.value, d.id)],
                                              nextTagId := old(nextTagId) + 1)
        else r == (if Truthy(d.category) then Fail(WriteFailed("categories")) else Pass) && State() == withDoc
    {
      documents := documents[d.id := DocumentRowOf(d)];
      r := Pass;
      if Truthy(d.category) {
        if tagWriteFails {
          return Fail(WriteFailed("categories"));
        }
        tags := tags + [Tag(nextTagId, d.category.value, d.id)];
        nextTagId := nextTagId + 1;
      }
    }

    method DeleteDocument(id: string)
      requires Valid()
      modifies this
      ensures Valid() && State() == DeleteDocumentSpec(old(State()), id)
    {
      if !connected {
        InitDB();
      }
      documents := documents - {id};
      tags := WithoutImage(tags, id);
    }

    /** `SELECT * FROM documents ORDER BY uploadDate DESC`, each row read back as a record. */
    method GetDocuments() returns (result: seq<MedicalDocument>)
      requires Valid()
      modifies this
      ensures Valid() && State() == OpenSpec(old(State()))
      ensures SortedBy(result, (d: MedicalDocument) => d.uploadDate, Descending)
      ensures forall i :: 0 <= i < |result| ==> result[i].id in documents && result[i] == ReadDocument(documents[result[i].id])
      ensures forall id :: id in documents ==> exists i :: 0 <= i < |result| && result[i].id == id
      ensures forall i, j :: 0 <= i < j < |result| ==> result[i].id != result[j].id
    {
      if !connected {
        InitDB();
      }
      result := SelectDocuments();
    }

    /** The query itself, on the connected store. */
    method SelectDocuments() returns (result: seq<MedicalDocument>)
      requires forall id :: id in documents ==> documents[id].id == id
      ensures SortedBy(result, (d: MedicalDocument) => d.uploadDate, Descending)
      ensures forall i :: 0 <= i < |result| ==> result[i].id in documents && result[i] == ReadDocument(documents[result[i].id])
      ensures forall id :: id in documents ==> exists i :: 0 <= i < |result| && result[i].id == id
      ensures forall i, j :: 0 <= i < j < |result| ==> result[i].id != result[j].id
    {
      var rows := SelectOrdered(documents, (row: DocumentRow) => row.id, (row: DocumentRow) => row.uploadDate, Descending);
      result := seq(|rows|, i requires 0 <= i < |rows| => ReadDocument(rows[i]));
      forall id | id in documents
        ensures exists i :: 0 <= i < |result| && result[i].id == id
      {
        var i :| 0 <= i < |rows| && rows[i].id == id;
        assert result[i].id == id;
      }
    }

    method GetCategories() returns (result: seq<CategoryCount>)
      requires Valid()
      modifies this
      ensures Valid() && State() == OpenSpec(old(State()))
      ensures forall i :: 0 <= i < |result| ==> result[i].count == TagCount(tags, result[i].category) >= 1
      ensures forall i, j :: 0 <= i < j < |result| ==> result[i].category != result[j].category
      ensures forall k :: 0 <= k < |tags| ==> Listed(result, tags[k].category)
    {
      if !connected {
        InitDB();
      }
      result := GroupByCategory(tags);
    }
  }
}
