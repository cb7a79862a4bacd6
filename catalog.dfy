/**
 * The catalog server: one SQLite table `projects`, created and migrated at
 * startup, seeded with eight sample projects when empty, read by
 * `GET /api/projects`, extended by `POST /api/projects` and shrunk by
 * `DELETE /api/projects/:id`, the last two behind the admin gate.
 *
 * A row keeps its `images` column decoded: `None` for SQL NULL, `Some(paths)`
 * for the JSON array of paths. `created_at` is a number of seconds, so
 * `ORDER BY datetime(created_at) DESC` is an order on integers. Clock
 * readings arrive as parameters.
 */
module Catalog {
  import opened Common
  import opened Uploads
  import opened Auth

  /** A row of `projects`, and the JSON object the handlers answer with. */
  datatype Row = Row(
    id: string,
    title: string,
    category: string,
    location: string,
    imageUrl: string,
    description: string,
    images: Option<seq<string>>,
    createdAt: int)

  /** The table as found on disk: its column names and its rows in storage order. */
  datatype Table = Table(columns: seq<string>, rows: seq<Row>)

  const ImagesColumn: string := "images"

  /** The columns `CREATE TABLE IF NOT EXISTS projects` creates. */
  const ProjectColumns: seq<string> :=
    ["id", "title", "category", "location", "imageUrl", "description", "images", "created_at"]

  function Ids(rows: seq<Row>): set<string> {
    set r | r in rows :: r.id
  }

  /** `id` is the primary key. */
  predicate UniqueIds(rows: seq<Row>) {
    forall i, j :: 0 <= i < j < |rows| ==> rows[i].id != rows[j].id
  }

  lemma UniqueIdsCons(r: Row, s: seq<Row>)
    ensures UniqueIds([r] + s) <==> r.id !in Ids(s) && UniqueIds(s)
  {
    var t := [r] + s;
    assert forall i :: 0 <= i < |s| ==> t[i + 1] == s[i];
    if r.id in Ids(s) {
      var k :| 0 <= k < |s| && s[k].id == r.id;
      assert t[0].id == t[k + 1].id;
    }
  }

  // ---------------------------------------------------------------------
  // Startup

  /** `ALTER TABLE projects ADD COLUMN images` when `PRAGMA table_info` does
      not list it: the migration only ever adds that one column. */
  function MigrateColumns(columns: seq<string>): (r: seq<string>)
    ensures ImagesColumn in r
    ensures columns <= r && |r| <= |columns| + 1
  {
    if ImagesColumn in columns then columns else columns + [ImagesColumn]
  }

  lemma MigrationIdempotent(columns: seq<string>)
    ensures MigrateColumns(MigrateColumns(columns)) == MigrateColumns(columns)
  {
  }

  /** The eight sample projects, as (title, category, location, cover, description). */
  const SampleTitles: seq<string> := [
      "Toiture Mont-Royal",
      "Façade Contemporaine",
      "Sous-sol Signature",
      "Salle de Bain Spa",
      "Garage Atelier",
      "Patio Niveau",
      "Vitrines Sur Rue",
      "Portes & Fenêtres Noir Mat" ]
  const SampleCategories: seq<string> := [
      "Toiture",
      "Revêtement Extérieur",
      "Finition de Sous-sol",
      "Salle de Bain",
      "Construction de Garage",
      "Patio & Terrasses",
      "Rénovation Commerciale",
      "Portes et Fenêtres" ]
  const SampleLocations: seq<string> := [
      "Montréal, QC",
      "Brossard, QC",
      "Laval, QC",
      "Longueuil, QC",
      "Terrebonne, QC",
      "Saint-Lambert, QC",
      "Plateau Mont-Royal, QC",
      "Outremont, QC" ]
  const SampleCovers: seq<string> := [
      "https://images.unsplash.com/photo-1503387762-592deb58ef4e?q=80&w=1600&auto=format&fit=crop",
      "https://images.unsplash.com/photo-1600585154340-be6161a56a0c?q=80&w=1600&auto=format&fit=crop",
      "https://images.unsplash.com/photo-1512914890250-353c97c9e7e2?q=80&w=1600&auto=format&fit=crop",
      "https://images.unsplash.com/photo-1584622650111-993a426fbf0a?q=80&w=1600&auto=format&fit=crop",
      "https://images.unsplash.com/photo-1563274640-e220a0614f16?q=80&w=1600&auto=format&fit=crop",
      "https://images.unsplash.com/photo-1595846519845-68e298c2edd8?q=80&w=1600&auto=format&fit=crop",
      "https://images.unsplash.com/photo-1497366811353-6870744d04b2?q=80&w=1600&auto=format&fit=crop",
      "https://images.unsplash.com/photo-1506180370005-559ccb7a69bc?q=80&w=1600&auto=format&fit=crop" ]
  const SampleDescriptions: seq<string> := [
      "Réfection complète avec membrane élastomère et isolation améliorée.",
      "Revêtement CanExel + aluminium noir, soffites ventilés et éclairage encastré.",
      "Cinéma maison, cave à vin vitrée et bureau insonorisé.",
      "Douche italienne, bain autoportant et céramique chauffante grand format.",
      "Garage double détaché avec mezzanine et plancher époxy.",
      "Terrasse multi-niveaux en composite, garde-corps verre et cuisine extérieure.",
      "Réaménagement complet de boutique : façade vitrée, éclairage accent et mobilier sur mesure.",
      "Remplacement complet par aluminium noir thermos double Low-E, seuils scellés et calfeutrage pro." ]

  /** Sample project `i` of the seed: id `i + 1` in decimal ('1' to '8'), no
      gallery, and the clock reading of the seeding transaction. */
  function SampleRow(i: nat, createdAt: int): Row
    requires i < 8
  {
    Row(DecimalString(i + 1), SampleTitles[i], SampleCategories[i], SampleLocations[i],
        SampleCovers[i], SampleDescriptions[i], None, createdAt)
  }

  /** The seed: the eight sample projects in order. */
  function SampleRows(createdAt: int): (r: seq<Row>)
    ensures |r| == 8 && UniqueIds(r)
    ensures forall x :: x in r ==> x.images.None? && x.createdAt == createdAt
  {
    var r := seq(8, i requires 0 <= i < 8 => SampleRow(i, createdAt));
    assert UniqueIds(r) by {
      forall i, j | 0 <= i < j < 8 ensures r[i].id != r[j].id {
        if DecimalString(i + 1) == DecimalString(j + 1) {
          DecimalStringInjective(i + 1, j + 1);
        }
      }
    }
    r
  }

  /** The table after startup: created if missing, migrated, and seeded only
      when it holds no row. */
  function StartupTable(existing: Option<Table>, startedAt: int): (t: Table)
    ensures ImagesColumn in t.columns && t.rows != []
    ensures existing.Some? ==> existing.value.columns <= t.columns
    ensures existing.Some? && existing.value.rows != [] ==> t.rows == existing.value.rows
    ensures existing.None? ==> ProjectColumns <= t.columns
    ensures (existing.None? || existing.value.rows == []) ==> t.rows == SampleRows(startedAt)
  {
    var found := if existing.Some? then existing.value else Table(ProjectColumns, []);
    Table(MigrateColumns(found.columns),
          if found.rows == [] then SampleRows(startedAt) else found.rows)
  }

  /** Restarting the server on the database it left behind changes nothing:
      the migration is idempotent and a seeded table is never seeded again. */
  lemma RestartChangesNothing(existing: Option<Table>, startedAt: int, restartedAt: int)
    ensures StartupTable(Some(StartupTable(existing, startedAt)), restartedAt) == StartupTable(existing, startedAt)
  {
    var t := StartupTable(existing, startedAt);
    MigrationIdempotent(if existing.Some? then existing.value.columns else ProjectColumns);
    assert MigrateColumns(t.columns) == t.columns;
  }

  // ---------------------------------------------------------------------
  // GET /api/projects

  /** `images: r.images ? JSON.parse(r.images) : []`. */
  function DecodeImages(r: Row): (d: Row)
    ensures d.images.Some?
    ensures r.images.Some? ==> d == r
    ensures r.images.None? ==> d == r.(images := Some([]))
  {
    r.(images := Some(if r.images.Some? then r.images.value else []))
  }

  function DecodeAll(rows: seq<Row>): (d: seq<Row>)
    ensures |d| == |rows|
    ensures forall i :: 0 <= i < |rows| ==> d[i] == DecodeImages(rows[i])
  {
    seq(|rows|, i requires 0 <= i < |rows| => DecodeImages(rows[i]))
  }

  /** Non-increasing `created_at`. */
  predicate NewestFirst(s: seq<Row>) {
    forall i, j :: 0 <= i < j < |s| ==> s[i].createdAt >= s[j].createdAt
  }

  /** Inserts `r` ahead of the first row that is not newer than it. */
  function InsertNewestFirst(r: Row, s: seq<Row>): (t: seq<Row>)
    decreases |s|
  {
    if s == [] || r.createdAt >= s[0].createdAt then [r] + s
    else [s[0]] + InsertNewestFirst(r, s[1..])
  }

  /** `ORDER BY datetime(created_at) DESC`. */
  function SortNewestFirst(s: seq<Row>): (t: seq<Row>)
    decreases |s|
  {
    if s == [] then [] else InsertNewestFirst(s[0], SortNewestFirst(s[1..]))
  }

  lemma {:induction false} InsertNewestFirstPermutes(r: Row, s: seq<Row>)
    ensures multiset(InsertNewestFirst(r, s)) == multiset(s) + multiset{r}
    decreases |s|
  {
    if !(s == [] || r.createdAt >= s[0].createdAt) {
      assert s == [s[0]] + s[1..];
      InsertNewestFirstPermutes(r, s[1..]);
    }
  }

  /** No row of `s` is newer than `c`. */
  predicate NoNewerThan(s: seq<Row>, c: int) {
    forall i :: 0 <= i < |s| ==> s[i].createdAt <= c
  }

  /** Inserting a row no newer than `c` keeps every row no newer than `c`. */
  lemma {:induction false} InsertNewestFirstBounded(r: Row, s: seq<Row>, c: int)
    requires NoNewerThan(s, c) && r.createdAt <= c
    ensures NoNewerThan(InsertNewestFirst(r, s), c)
    decreases |s|
  {
    var t := InsertNewestFirst(r, s);
    if s == [] || r.createdAt >= s[0].createdAt {
      forall i | 0 <= i < |t| ensures t[i].createdAt <= c {
        if i > 0 { assert t[i] == s[i - 1]; }
      }
    } else {
      var rest := InsertNewestFirst(r, s[1..]);
      assert NoNewerThan(s[1..], c) by {
        forall i | 0 <= i < |s[1..]| ensures s[1..][i].createdAt <= c {
          assert s[1..][i] == s[i + 1];
        }
      }
      InsertNewestFirstBounded(r, s[1..], c);
      forall i | 0 <= i < |t| ensures t[i].createdAt <= c {
        if i > 0 { assert t[i] == rest[i - 1]; }
      }
    }
  }

  /** A row followed by ordered rows that are no newer than it is ordered. */
  lemma ConsNewestFirst(x: Row, s: seq<Row>)
    requires NewestFirst(s) && NoNewerThan(s, x.createdAt)
    ensures NewestFirst([x] + s)
  {
    var t := [x] + s;
    forall i, j | 0 <= i < j < |t| ensures t[i].createdAt >= t[j].createdAt {
      assert t[j] == s[j - 1];
      if i > 0 { assert t[i] == s[i - 1]; }
    }
  }

  lemma {:induction false} InsertNewestFirstOrdered(r: Row, s: seq<Row>)
    requires NewestFirst(s)
    ensures NewestFirst(InsertNewestFirst(r, s))
    decreases |s|
  {
    if s == [] || r.createdAt >= s[0].createdAt {
      assert NoNewerThan(s, r.createdAt) by {
        forall i | 0 <= i < |s| ensures s[i].createdAt <= r.createdAt {
          if i > 0 { assert s[0].createdAt >= s[i].createdAt; }
        }
      }
      ConsNewestFirst(r, s);
    } else {
      var tail := s[1..];
      assert NewestFirst(tail) by {
        forall i, j | 0 <= i < j < |tail| ensures tail[i].createdAt >= tail[j].createdAt {
          assert tail[i] == s[i + 1] && tail[j] == s[j + 1];
        }
      }
      assert NoNewerThan(tail, s[0].createdAt) by {
        forall i | 0 <= i < |tail| ensures tail[i].createdAt <= s[0].createdAt {
          assert tail[i] == s[i + 1];
        }
      }
      InsertNewestFirstOrdered(r, tail);
      InsertNewestFirstBounded(r, tail, s[0].createdAt);
      ConsNewestFirst(s[0], InsertNewestFirst(r, tail));
    }
  }

  /** Insertion into ordered rows adds exactly the row and keeps the order. */
  lemma InsertNewestFirstCorrect(r: Row, s: seq<Row>)
    requires NewestFirst(s)
    ensures multiset(InsertNewestFirst(r, s)) == multiset(s) + multiset{r}
    ensures NewestFirst(InsertNewestFirst(r, s))
  {
    InsertNewestFirstPermutes(r, s);
    InsertNewestFirstOrdered(r, s);
  }

  lemma {:induction false} SortNewestFirstCorrect(s: seq<Row>)
    ensures multiset(SortNewestFirst(s)) == multiset(s)
    ensures NewestFirst(SortNewestFirst(s))
    decreases |s|
  {
    if s != [] {
      SortNewestFirstCorrect(s[1..]);
      InsertNewestFirstCorrect(s[0], SortNewestFirst(s[1..]));
      assert s == [s[0]] + s[1..];
    }
  }

  /** The body of `GET /api/projects`: every row once, newest first, with
      `images` always an array — the stored paths in their stored order, or
      `[]` for a row without gallery. */
  function ListRows(rows: seq<Row>): (r: seq<Row>)
    ensures |r| == |rows|
    ensures multiset(r) == multiset(DecodeAll(rows))
    ensures NewestFirst(r)
    ensures forall x :: x in r ==> x.images.Some?
  {
    SortNewestFirstCorrect(DecodeAll(rows));
    var r := SortNewestFirst(DecodeAll(rows));
    assert |r| == |multiset(r)| == |DecodeAll(rows)|;
    assert forall x :: x in r ==> x in multiset(DecodeAll(rows));
    r
  }

  /** A stored row appears in the listing with its gallery decoded. */
  lemma ListedRow(rows: seq<Row>, i: int)
    requires 0 <= i < |rows|
    ensures DecodeImages(rows[i]) in ListRows(rows)
  {
    var d := DecodeAll(rows);
    assert d[i] in multiset(d);
  }

  /** Where a stored row appears in the listing. */
  lemma ListedRowIndex(rows: seq<Row>, j: int) returns (i: int)
    requires 0 <= j < |rows|
    ensures 0 <= i < |ListRows(rows)| && ListRows(rows)[i] == DecodeImages(rows[j])
  {
    ListedRow(rows, j);
    var listed := ListRows(rows);
    i :| 0 <= i < |listed| && listed[i] == DecodeImages(rows[j]);
  }

  // ---------------------------------------------------------------------
  // Responses

  /** What a handler answers. `Crashed` is the primary-key violation the
      insert throws when two creations read the same clock value: for a
      multipart request it is thrown inside the upload parser's
      asynchronous completion callback, outside Express's error handling,
      so no answer is sent and the server process ends. Nothing is
      inserted; the files already written stay. */
  datatype Response =
    | Created(row: Row)
    | NoContent
    | BadRequest(error: string)
    | Unauthorized
    | Crashed

  const MissingFieldsError: string := "Champs requis manquants"
  const MissingCoverError: string := "Image principale requise (upload ou existante)."

  /** The HTTP status: 201 Created, 204 No Content, 400 Bad Request,
      401 Unauthorized; none when the process crashed before answering. */
  function StatusCode(resp: Response): (code: Option<int>)
    ensures code.None? <==> resp.Crashed?
    ensures code.Some? ==> (200 <= code.value < 300 <==> resp.Created? || resp.NoContent?)
    ensures code.Some? ==> (400 <= code.value < 500 <==> resp.BadRequest? || resp.Unauthorized?)
    ensures code == Some(401) <==> resp.Unauthorized?
  {
    match resp
    case Created(_) => Some(201)
    case NoContent => Some(204)
    case BadRequest(_) => Some(400)
    case Unauthorized => Some(401)
    case Crashed => None
  }

  // ---------------------------------------------------------------------
  // POST /api/projects

  /** The text fields of the multipart body; a missing field reads as "". */
  datatype Fields = Fields(
    title: string,
    category: string,
    location: string,
    description: string,
    imageUrl: string)

  /** A creation request: its two auth headers, its text fields, the `cover`
      file if any and the `images` files in upload order. */
  datatype CreateRequest = CreateRequest(
    authorization: string,
    adminHeader: string,
    fields: Fields,
    cover: Option<Upload>,
    gallery: seq<Upload>)

  predicate HasRequiredFields(f: Fields) {
    f.title != "" && f.category != "" && f.location != "" && f.description != ""
  }

  /** The cover: the uploaded file when there is one, else the `imageUrl` field. */
  function CoverPath(req: CreateRequest): (p: string)
    ensures req.cover.Some? ==> p == StoredPath(req.cover.value) && StartsWith(p, UploadsPrefix)
    ensures req.cover.None? ==> p == req.fields.imageUrl
  {
    if req.cover.Some? then StoredPath(req.cover.value) else req.fields.imageUrl
  }

  /** The gallery paths, one per uploaded file, in upload order. */
  function GalleryPaths(gallery: seq<Upload>): (ps: seq<string>)
    ensures |ps| == |gallery|
    ensures forall i :: 0 <= i < |ps| ==> ps[i] == StoredPath(gallery[i])
  {
    seq(|gallery|, i requires 0 <= i < |gallery| => StoredPath(gallery[i]))
  }

  /** What the `images` column receives: NULL for an empty gallery. */
  function ImagesValue(paths: seq<string>): (v: Option<seq<string>>)
    ensures v.None? <==> paths == []
    ensures v.Some? ==> v.value == paths
  {
    if |paths| > 0 then Some(paths) else None
  }

  /** The files the upload parser writes for a request, by stored name. */
  function UploadedNames(req: CreateRequest): set<string> {
    (if req.cover.Some? then {StoredFileName(req.cover.value)} else {}) +
    (set u | u in req.gallery :: StoredFileName(u))
  }

  /** The upload parser writes the cover and every gallery file, and nothing else. */
  lemma UploadedNamesExactly(req: CreateRequest)
    ensures forall u :: u in req.gallery ==> StoredFileName(u) in UploadedNames(req)
    ensures req.cover.Some? ==> StoredFileName(req.cover.value) in UploadedNames(req)
    ensures forall n :: n in UploadedNames(req) ==>
      (req.cover.Some? && n == StoredFileName(req.cover.value)) ||
      exists u :: u in req.gallery && n == StoredFileName(u)
  {
    var g := set u | u in req.gallery :: StoredFileName(u);
    forall u | u in req.gallery ensures StoredFileName(u) in g { }
    forall n | n in UploadedNames(req) && !(req.cover.Some? && n == StoredFileName(req.cover.value))
      ensures exists u :: u in req.gallery && n == StoredFileName(u)
    {
      assert n in g;
    }
  }

  /** The row a successful creation inserts; its id is `Date.now().toString()`. */
  function NewRow(req: CreateRequest, now: nat, createdAt: int): Row {
    Row(DecimalString(now), req.fields.title, req.fields.category, req.fields.location,
        CoverPath(req), req.fields.description, ImagesValue(GalleryPaths(req.gallery)), createdAt)
  }

  /** The answer to a creation request, in the order the handler checks. */
  function CreateOutcome(rows: seq<Row>, adminToken: string, req: CreateRequest, now: nat, createdAt: int): (resp: Response)
    ensures resp.Created? <==>
      Authorized(adminToken, req.authorization, req.adminHeader) && HasRequiredFields(req.fields) &&
      CoverPath(req) != "" && DecimalString(now) !in Ids(rows)
    ensures resp.Created? ==> resp.row == NewRow(req, now, createdAt)
    ensures resp.Unauthorized? <==> !Authorized(adminToken, req.authorization, req.adminHeader)
    ensures resp.BadRequest? <==>
      Authorized(adminToken, req.authorization, req.adminHeader) &&
      (!HasRequiredFields(req.fields) || CoverPath(req) == "")
    ensures resp.BadRequest? ==> resp.error == MissingFieldsError || resp.error == MissingCoverError
    ensures resp.Crashed? <==>
      Authorized(adminToken, req.authorization, req.adminHeader) && HasRequiredFields(req.fields) &&
      CoverPath(req) != "" && DecimalString(now) in Ids(rows)
    ensures !resp.NoContent?
  {
    if !Authorized(adminToken, req.authorization, req.adminHeader) then Unauthorized
    else if !HasRequiredFields(req.fields) then BadRequest(MissingFieldsError)
    else if CoverPath(req) == "" then BadRequest(MissingCoverError)
    else if DecimalString(now) in Ids(rows) then Crashed
    else Created(NewRow(req, now, createdAt))
  }

  /** Every answer is 201, 400 or 401, unless the process crashes on an id
      collision; the gate is checked first,
      then the four text fields, then the cover. */
  lemma CreateChecksInOrder(rows: seq<Row>, adminToken: string, req: CreateRequest, now: nat, createdAt: int)
    ensures var resp := CreateOutcome(rows, adminToken, req, now, createdAt);
      StatusCode(resp) in {Some(201), Some(400), Some(401), None} &&
      (!Authorized(adminToken, req.authorization, req.adminHeader) ==> resp == Unauthorized) &&
      ((Authorized(adminToken, req.authorization, req.adminHeader) && !HasRequiredFields(req.fields)) ==>
         resp == BadRequest(MissingFieldsError)) &&
      ((Authorized(adminToken, req.authorization, req.adminHeader) && HasRequiredFields(req.fields) &&
        req.cover.None? && req.fields.imageUrl == "") ==> resp == BadRequest(MissingCoverError)) &&
      ((Authorized(adminToken, req.authorization, req.adminHeader) && HasRequiredFields(req.fields) &&
        CoverPath(req) != "" && DecimalString(now) in Ids(rows)) ==> resp == Crashed)
  {
  }

  /** An uploaded cover wins over the `imageUrl` field: two requests that
      differ only in that field create the same row. */
  lemma CoverFileTakesPrecedence(rows: seq<Row>, adminToken: string, req: CreateRequest, url: string, now: nat, createdAt: int)
    requires req.cover.Some?
    ensures CreateOutcome(rows, adminToken, req, now, createdAt) ==
            CreateOutcome(rows, adminToken, req.(fields := req.fields.(imageUrl := url)), now, createdAt)
  {
  }

  /** The created row keeps the gallery in upload order, each file under
      `/uploads/` with its stored name; an empty gallery stores NULL, which
      the 201 answer leaves as null. */
  lemma CreatedGallery(rows: seq<Row>, adminToken: string, req: CreateRequest, now: nat, createdAt: int)
    requires CreateOutcome(rows, adminToken, req, now, createdAt).Created?
    ensures var row := CreateOutcome(rows, adminToken, req, now, createdAt).row;
      (req.gallery == [] <==> row.images.None?) &&
      (row.images.Some? ==>
         |row.images.value| == |req.gallery| &&
         forall i :: 0 <= i < |req.gallery| ==>
           row.images.value[i] == UploadsPrefix + StoredFileName(req.gallery[i]))
  {
  }

  /** A created project then appears in the listing with its gallery paths in
      upload order, `[]` when it has none. */
  lemma CreateThenList(rows: seq<Row>, adminToken: string, req: CreateRequest, now: nat, createdAt: int)
    requires CreateOutcome(rows, adminToken, req, now, createdAt).Created?
    ensures var row := CreateOutcome(rows, adminToken, req, now, createdAt).row;
      row.(images := Some(GalleryPaths(req.gallery))) in ListRows(rows + [row])
  {
    var row := CreateOutcome(rows, adminToken, req, now, createdAt).row;
    ListedRow(rows + [row], |rows|);
    assert (rows + [row])[|rows|] == row;
  }

  // ---------------------------------------------------------------------
  // DELETE /api/projects/:id

  /** `DELETE FROM projects WHERE id = ?`. */
  function RemoveRow(rows: seq<Row>, id: string): (r: seq<Row>)
    ensures id !in Ids(r)
    ensures forall x :: x in r <==> x in rows && x.id != id
  {
    Filter(rows, (x: Row) => x.id != id)
  }

  /** The rows that remain are the others, in their stored order. */
  lemma RemoveKeepsOrder(rows: seq<Row>, id: string)
    ensures IsSubsequence(RemoveRow(rows, id), rows)
  {
    FilterIsSubsequence(rows, (x: Row) => x.id != id);
  }

  /** Deleting an id that is not in the table changes nothing. */
  lemma RemoveAbsentIsNoOp(rows: seq<Row>, id: string)
    requires id !in Ids(rows)
    ensures RemoveRow(rows, id) == rows
  {
    FilterKeepsAll(rows, (x: Row) => x.id != id);
  }

  /** Deleting twice is deleting once. */
  lemma RemoveIdempotent(rows: seq<Row>, id: string)
    ensures RemoveRow(RemoveRow(rows, id), id) == RemoveRow(rows, id)
  {
    RemoveAbsentIsNoOp(RemoveRow(rows, id), id);
  }

  /** With unique ids, deleting a present id removes exactly one row, and
      the ids stay unique. */
  lemma {:induction false} RemoveExactlyOne(rows: seq<Row>, id: string)
    requires UniqueIds(rows)
    ensures |RemoveRow(rows, id)| == |rows| - (if id in Ids(rows) then 1 else 0)
    ensures UniqueIds(RemoveRow(rows, id))
  {
    if rows != [] {
      var keep := (x: Row) => x.id != id;
      assert rows == [rows[0]] + rows[1..];
      UniqueIdsCons(rows[0], rows[1..]);
      RemoveExactlyOne(rows[1..], id);
      var rest := RemoveRow(rows[1..], id);
      assert Ids(rows) == {rows[0].id} + Ids(rows[1..]);
      if rows[0].id == id {
        assert RemoveRow(rows, id) == rest;
        RemoveAbsentIsNoOp(rows[1..], id);
      } else {
        assert RemoveRow(rows, id) == [rows[0]] + rest;
        assert rows[0].id !in Ids(rest);
        UniqueIdsCons(rows[0], rest);
      }
    }
  }

  // ---------------------------------------------------------------------
  // The database as the running server holds it

  class ProjectDb {
    /** The token `requireAuth` compares against. */
    const adminToken: string
    var columns: seq<string>
    /** The rows in storage order. */
    var rows: seq<Row>
    /** The names of the files in the upload directory. */
    var stored: set<string>

    ghost predicate Valid()
      reads this
    {
      adminToken != "" && ImagesColumn in columns && UniqueIds(rows)
    }

    /** Server startup: read the token, open or create the table, add the
        `images` column if missing, and seed the table in one pass when it
        is empty. */
    constructor Startup(envToken: string, existing: Option<Table>, uploads: set<string>, startedAt: int)
      requires existing.Some? ==> UniqueIds(existing.value.rows)
      ensures Valid()
      ensures adminToken == ServerAdminToken(envToken)
      ensures Table(columns, rows) == StartupTable(existing, startedAt)
      ensures stored == uploads
    {
      adminToken := ServerAdminToken(envToken);
      var found := if existing.Some? then existing.value else Table(ProjectColumns, []);
      columns := found.columns;
      rows := found.rows;
      stored := uploads;
      new;
      if ImagesColumn !in columns {
        columns := columns + [ImagesColumn];
      }
      if |rows| == 0 {
        var sample := SampleRows(startedAt);
        var i := 0;
        while i < |sample|
          invariant 0 <= i <= |sample|
          invariant rows == sample[..i]
          invariant columns == MigrateColumns(found.columns) && stored == uploads
        {
          rows := rows + [sample[i]];
          i := i + 1;
        }
        assert rows == sample;
      }
    }

    /** `POST /api/projects`: the gate, then the upload parser writes every
        file, then the checks; only a successful creation inserts a row,
        appended in storage order. */
    method Create(req: CreateRequest, now: nat, createdAt: int) returns (resp: Response)
      requires Valid()
      modifies this
      ensures Valid()
      ensures resp == CreateOutcome(old(rows), adminToken, req, now, createdAt)
      ensures resp.Created? ==> rows == old(rows) + [resp.row]
      ensures !resp.Created? ==> rows == old(rows)
      ensures Authorized(adminToken, req.authorization, req.adminHeader) ==> stored == old(stored) + UploadedNames(req)
      ensures !Authorized(adminToken, req.authorization, req.adminHeader) ==> stored == old(stored)
      ensures columns == old(columns)
    {
      if !Authorized(adminToken, req.authorization, req.adminHeader) {
        return Unauthorized;
      }
      stored := stored + UploadedNames(req);
      if !HasRequiredFields(req.fields) {
        return BadRequest(MissingFieldsError);
      }
      var coverPath := CoverPath(req);
      if coverPath == "" {
        return BadRequest(MissingCoverError);
      }
      var id := DecimalString(now);
      if id in Ids(rows) {
        return Crashed;
      }
      var row := NewRow(req, now, createdAt);
      UniqueIdsAppend(rows, row);
      rows := rows + [row];
      resp := Created(row);
    }

    /** `DELETE /api/projects/:id`: behind the gate, always 204. */
    method Delete(authorization: string, adminHeader: string, id: string) returns (resp: Response)
      requires Valid()
      modifies this
      ensures Valid()
      ensures Authorized(adminToken, authorization, adminHeader) ==> resp == NoContent && rows == RemoveRow(old(rows), id)
      ensures !Authorized(adminToken, authorization, adminHeader) ==> resp == Unauthorized && rows == old(rows)
      ensures columns == old(columns) && stored == old(stored)
    {
      if !Authorized(adminToken, authorization, adminHeader) {
        return Unauthorized;
      }
      RemoveExactlyOne(rows, id);
      rows := RemoveRow(rows, id);
      resp := NoContent;
    }
  }

  /** Appending a row with a fresh id keeps the ids unique. */
  lemma UniqueIdsAppend(rows: seq<Row>, r: Row)
    requires UniqueIds(rows) && r.id !in Ids(rows)
    ensures UniqueIds(rows + [r])
  {
    var t := rows + [r];
    forall i, j | 0 <= i < j < |t| ensures t[i].id != t[j].id {
      if j == |rows| {
        assert t[i] in rows;
      }
    }
  }
}
