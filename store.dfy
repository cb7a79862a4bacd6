/**
 * The browser's catalog adapter: it rewrites server-relative upload paths
 * into absolute URLs, normalises the projects the server returns, builds
 * the multipart form of a creation and chooses the token header. The
 * network round trip is a parameter: each operation receives the HTTP
 * response the server gave.
 */
module Store {
  import opened Common
  import Auth
  import Catalog

  const DefaultApiUrl: string := "http://localhost:4000"

  /** The prefix `absolutify` looks for. */
  const UploadsMount: string := "/uploads"

  const FetchError: string := "Erreur lors du chargement des projets"
  const CreateError: string := "Création impossible"
  const RemoveError: string := "Suppression impossible"

  /** `VITE_API_URL || 'http://localhost:4000'`. */
  function ApiUrl(env: string): (u: string)
    ensures u != ""
    ensures env != "" ==> u == env
  {
    if env == "" then DefaultApiUrl else env
  }

  /** A project as the pages hold it: `images` is always an array. */
  datatype Project = Project(
    id: string,
    title: string,
    category: string,
    location: string,
    imageUrl: string,
    description: string,
    images: seq<string>)

  /** An HTTP answer: its status and its decoded body. */
  datatype HttpResponse<T> = HttpResponse(status: int, body: T)

  /** `res.ok`: a 2xx status. */
  predicate IsOk<T>(res: HttpResponse<T>) {
    200 <= res.status <= 299
  }

  // ---------------------------------------------------------------------
  // absolutify

  /** Server-relative upload paths get the API origin in front; every other
      URL is left alone. */
  function Absolutify(apiUrl: string, url: string): (r: string)
    ensures StartsWith(url, UploadsMount) ==> r == apiUrl + url
    ensures !StartsWith(url, UploadsMount) ==> r == url
  {
    if StartsWith(url, UploadsMount) then apiUrl + url else url
  }

  /** Absolutifying twice is absolutifying once, as long as the origin does
      not itself start with `/uploads`. */
  lemma AbsolutifyIdempotent(apiUrl: string, url: string)
    requires !StartsWith(apiUrl, UploadsMount)
    ensures Absolutify(apiUrl, Absolutify(apiUrl, url)) == Absolutify(apiUrl, url)
  {
    if StartsWith(url, UploadsMount) && apiUrl != "" {
      var r := apiUrl + url;
      if |apiUrl| >= |UploadsMount| {
        assert r[..|UploadsMount|] == apiUrl[..|UploadsMount|];
      } else {
        assert r[|apiUrl|] == '/';
      }
    }
  }

  /** The default origin qualifies. */
  lemma DefaultApiUrlIsAbsolute()
    ensures !StartsWith(DefaultApiUrl, UploadsMount)
  {
    assert DefaultApiUrl[0] != UploadsMount[0];
  }

  function AbsolutifyAll(apiUrl: string, urls: seq<string>): (r: seq<string>)
    ensures |r| == |urls|
    ensures forall i :: 0 <= i < |urls| ==> r[i] == Absolutify(apiUrl, urls[i])
  {
    seq(|urls|, i requires 0 <= i < |urls| => Absolutify(apiUrl, urls[i]))
  }

  // ---------------------------------------------------------------------
  // Response normalisation

  /** `{ ...p, imageUrl: absolutify(p.imageUrl), images: p.images?.map(absolutify) || [] }`. */
  function Normalize(apiUrl: string, row: Catalog.Row): (p: Project)
    ensures p.id == row.id && p.title == row.title && p.category == row.category
    ensures p.location == row.location && p.description == row.description
    ensures p.imageUrl == Absolutify(apiUrl, row.imageUrl)
    ensures row.images.None? ==> p.images == []
    ensures row.images.Some? ==> p.images == AbsolutifyAll(apiUrl, row.images.value)
  {
    Project(row.id, row.title, row.category, row.location,
            Absolutify(apiUrl, row.imageUrl), row.description,
            if row.images.Some? then AbsolutifyAll(apiUrl, row.images.value) else [])
  }

  /** `fetchProjects`: throws on a non-2xx answer, otherwise normalises every
      project, keeping their number and order. */
  function FetchProjects(apiUrl: string, res: HttpResponse<seq<Catalog.Row>>): (r: Result<seq<Project>>)
    ensures r.Ok? <==> IsOk(res)
    ensures r.Err? ==> r.message == FetchError
    ensures r.Ok? ==> |r.value| == |res.body|
    ensures r.Ok? ==> forall i :: 0 <= i < |res.body| ==> r.value[i] == Normalize(apiUrl, res.body[i])
  {
    if !IsOk(res) then Err(FetchError)
    else Ok(seq(|res.body|, i requires 0 <= i < |res.body| => Normalize(apiUrl, res.body[i])))
  }

  /** `p` is what the client shows for `row`: same id, and a gallery as
      long as the stored one (empty when none). */
  predicate Represents(p: Project, row: Catalog.Row) {
    p.id == row.id && |p.images| == (if row.images.Some? then |row.images.value| else 0)
  }

  /** Fetching the server's listing gives as many projects as stored rows,
      and each project represents one of the rows. */
  lemma FetchListing(apiUrl: string, rows: seq<Catalog.Row>)
    ensures var r := FetchProjects(apiUrl, HttpResponse(200, Catalog.ListRows(rows)));
      r.Ok? && |r.value| == |rows| &&
      forall i :: 0 <= i < |r.value| ==> exists j :: 0 <= j < |rows| && Represents(r.value[i], rows[j])
  {
    var listed := Catalog.ListRows(rows);
    var d := Catalog.DecodeAll(rows);
    var r := FetchProjects(apiUrl, HttpResponse(200, listed));
    forall i | 0 <= i < |r.value|
      ensures exists j :: 0 <= j < |rows| && Represents(r.value[i], rows[j])
    {
      assert listed[i] in multiset(d);
      var j :| 0 <= j < |d| && d[j] == listed[i];
      assert r.value[i] == Normalize(apiUrl, Catalog.DecodeImages(rows[j]));
      assert Represents(r.value[i], rows[j]);
    }
  }

  /** Every stored row is represented in the fetched listing. */
  lemma FetchListingCoversRows(apiUrl: string, rows: seq<Catalog.Row>)
    ensures var r := FetchProjects(apiUrl, HttpResponse(200, Catalog.ListRows(rows)));
      r.Ok? && forall j :: 0 <= j < |rows| ==> exists i :: 0 <= i < |r.value| && Represents(r.value[i], rows[j])
  {
    var r := FetchProjects(apiUrl, HttpResponse(200, Catalog.ListRows(rows)));
    forall j | 0 <= j < |rows|
      ensures exists i :: 0 <= i < |r.value| && Represents(r.value[i], rows[j])
    {
      var i := Catalog.ListedRowIndex(rows, j);
      assert r.value[i] == Normalize(apiUrl, Catalog.DecodeImages(rows[j]));
      assert Represents(r.value[i], rows[j]);
    }
  }

  // ---------------------------------------------------------------------
  // createProject: the multipart form

  /** The fields of a project as the admin form holds them. */
  datatype Draft = Draft(
    title: string,
    category: string,
    location: string,
    description: string,
    imageUrl: string)

  /** A file picked in the browser, known by its name. */
  datatype LocalFile = LocalFile(name: string)

  /** One `form.append(name, value)`. */
  datatype FormEntry =
    | TextEntry(name: string, text: string)
    | FileEntry(name: string, file: LocalFile)

  /** The four text fields that are always sent, and `imageUrl` when non-empty. */
  function TextPart(d: Draft): seq<FormEntry> {
    [TextEntry("title", d.title), TextEntry("category", d.category),
     TextEntry("location", d.location), TextEntry("description", d.description)] +
    (if d.imageUrl != "" then [TextEntry("imageUrl", d.imageUrl)] else [])
  }

  function GalleryPart(files: seq<LocalFile>): seq<FormEntry> {
    seq(|files|, i requires 0 <= i < |files| => FileEntry("images", files[i]))
  }

  function CoverPart(cover: Option<LocalFile>): seq<FormEntry> {
    if cover.Some? then [FileEntry("cover", cover.value)] else []
  }

  /** The form `createProject` sends, entry by entry. */
  function ExpectedForm(d: Draft, files: seq<LocalFile>, cover: Option<LocalFile>): seq<FormEntry> {
    TextPart(d) + GalleryPart(files) + CoverPart(cover)
  }

  /** The successive `append` calls, the gallery through `forEach`. */
  method BuildForm(d: Draft, files: seq<LocalFile>, cover: Option<LocalFile>) returns (form: seq<FormEntry>)
    ensures form == ExpectedForm(d, files, cover)
  {
    form := [];
    form := form + [TextEntry("title", d.title)];
    form := form + [TextEntry("category", d.category)];
    form := form + [TextEntry("location", d.location)];
    form := form + [TextEntry("description", d.description)];
    if d.imageUrl != "" {
      form := form + [TextEntry("imageUrl", d.imageUrl)];
    }
    var i := 0;
    while i < |files|
      invariant 0 <= i <= |files|
      invariant form == TextPart(d) + GalleryPart(files[..i])
    {
      assert GalleryPart(files[..i + 1]) == GalleryPart(files[..i]) + [FileEntry("images", files[i])];
      form := form + [FileEntry("images", files[i])];
      i := i + 1;
    }
    assert files[..i] == files;
    if cover.Some? {
      form := form + [FileEntry("cover", cover.value)];
    }
  }

  /** The values of the text entries called `name`, in order. */
  function TextValues(form: seq<FormEntry>, name: string): (vs: seq<string>)
    ensures |vs| <= |form|
  {
    if form == [] then []
    else (if form[0].TextEntry? && form[0].name == name then [form[0].text] else []) + TextValues(form[1..], name)
  }

  /** The files of the file entries called `name`, in order. */
  function FilesNamed(form: seq<FormEntry>, name: string): (fs: seq<LocalFile>)
    ensures |fs| <= |form|
  {
    if form == [] then []
    else (if form[0].FileEntry? && form[0].name == name then [form[0].file] else []) + FilesNamed(form[1..], name)
  }

  lemma {:induction false} TextValuesAppend(a: seq<FormEntry>, b: seq<FormEntry>, name: string)
    ensures TextValues(a + b, name) == TextValues(a, name) + TextValues(b, name)
  {
    if a != [] {
      assert (a + b)[1..] == a[1..] + b;
      TextValuesAppend(a[1..], b, name);
    } else {
      assert a + b == b;
    }
  }

  lemma {:induction false} FilesNamedAppend(a: seq<FormEntry>, b: seq<FormEntry>, name: string)
    ensures FilesNamed(a + b, name) == FilesNamed(a, name) + FilesNamed(b, name)
  {
    if a != [] {
      assert (a + b)[1..] == a[1..] + b;
      FilesNamedAppend(a[1..], b, name);
    } else {
      assert a + b == b;
    }
  }

  lemma {:induction false} GalleryPartContents(files: seq<LocalFile>, name: string)
    ensures TextValues(GalleryPart(files), name) == []
    ensures FilesNamed(GalleryPart(files), name) == (if name == "images" then files else [])
  {
    if files != [] {
      var rest := GalleryPart(files[1..]);
      assert GalleryPart(files) == [FileEntry("images", files[0])] + rest;
      EntryCons(FileEntry("images", files[0]), rest, name);
      GalleryPartContents(files[1..], name);
      assert files == [files[0]] + files[1..];
    }
  }

  /** What the upload parser reads from the form: each text field is sent
      once with the draft's value (`imageUrl` only when non-empty), the
      gallery files are exactly `files` in order, and a cover file is sent
      only when one was chosen. */
  lemma FormContents(d: Draft, files: seq<LocalFile>, cover: Option<LocalFile>)
    ensures var form := ExpectedForm(d, files, cover);
      TextValues(form, "title") == [d.title] &&
      TextValues(form, "category") == [d.category] &&
      TextValues(form, "location") == [d.location] &&
      TextValues(form, "description") == [d.description] &&
      TextValues(form, "imageUrl") == (if d.imageUrl != "" then [d.imageUrl] else []) &&
      FilesNamed(form, "images") == files &&
      FilesNamed(form, "cover") == (if cover.Some? then [cover.value] else [])
  {
    var form := ExpectedForm(d, files, cover);
    assert TextValues(form, "title") == [d.title] by { FormField(d, files, cover, "title"); }
    assert TextValues(form, "category") == [d.category] by { FormField(d, files, cover, "category"); }
    assert TextValues(form, "location") == [d.location] by { FormField(d, files, cover, "location"); }
    assert TextValues(form, "description") == [d.description] by { FormField(d, files, cover, "description"); }
    assert TextValues(form, "imageUrl") == (if d.imageUrl != "" then [d.imageUrl] else []) by {
      FormField(d, files, cover, "imageUrl");
    }
    assert FilesNamed(form, "images") == files by { FormField(d, files, cover, "images"); }
    assert FilesNamed(form, "cover") == (if cover.Some? then [cover.value] else []) by {
      FormField(d, files, cover, "cover");
    }
  }

  /** The values the draft contributes under `name`: its field of that
      name, `imageUrl` only when non-empty, nothing for any other name. */
  function DraftValues(d: Draft, name: string): seq<string> {
    (if name == "title" then [d.title] else []) +
    ((if name == "category" then [d.category] else []) +
    ((if name == "location" then [d.location] else []) +
    ((if name == "description" then [d.description] else []) +
    (if name == "imageUrl" && d.imageUrl != "" then [d.imageUrl] else []))))
  }

  /** One entry name of the form, read back. */
  lemma FormField(d: Draft, files: seq<LocalFile>, cover: Option<LocalFile>, name: string)
    ensures TextValues(ExpectedForm(d, files, cover), name) == DraftValues(d, name)
    ensures FilesNamed(ExpectedForm(d, files, cover), name) ==
      (if name == "images" then files else []) + (if name == "cover" && cover.Some? then [cover.value] else [])
  {
    TextPartContents(d, name);
    FormSplit(d, files, cover, name);
  }

  lemma EntryCons(e: FormEntry, rest: seq<FormEntry>, name: string)
    ensures TextValues([e] + rest, name) ==
      (if e.TextEntry? && e.name == name then [e.text] else []) + TextValues(rest, name)
    ensures FilesNamed([e] + rest, name) ==
      (if e.FileEntry? && e.name == name then [e.file] else []) + FilesNamed(rest, name)
  {
    assert ([e] + rest)[1..] == rest;
  }

  /** The text part, read back field by field. */
  lemma TextPartContents(d: Draft, name: string)
    ensures TextValues(TextPart(d), name) == DraftValues(d, name)
    ensures FilesNamed(TextPart(d), name) == []
  {
    var t4: seq<FormEntry> := if d.imageUrl != "" then [TextEntry("imageUrl", d.imageUrl)] else [];
    var t3 := [TextEntry("description", d.description)] + t4;
    var t2 := [TextEntry("location", d.location)] + t3;
    var t1 := [TextEntry("category", d.category)] + t2;
    var t0 := [TextEntry("title", d.title)] + t1;
    assert TextPart(d) == t0;
    if d.imageUrl != "" {
      EntryCons(TextEntry("imageUrl", d.imageUrl), [], name);
    }
    EntryCons(TextEntry("description", d.description), t4, name);
    EntryCons(TextEntry("location", d.location), t3, name);
    EntryCons(TextEntry("category", d.category), t2, name);
    EntryCons(TextEntry("title", d.title), t1, name);
  }

  lemma FormSplit(d: Draft, files: seq<LocalFile>, cover: Option<LocalFile>, name: string)
    requires FilesNamed(TextPart(d), name) == []
    ensures TextValues(ExpectedForm(d, files, cover), name) == TextValues(TextPart(d), name)
    ensures FilesNamed(ExpectedForm(d, files, cover), name) ==
      (if name == "images" then files else []) + (if name == "cover" && cover.Some? then [cover.value] else [])
  {
    var t, g, c := TextPart(d), GalleryPart(files), CoverPart(cover);
    var form := ExpectedForm(d, files, cover);
    GalleryPartContents(files, name);
    CoverPartContents(cover, name);
    assert TextValues(form, name) == TextValues(t, name) by {
      TextValuesAppend(t + g, c, name);
      TextValuesAppend(t, g, name);
    }
    assert FilesNamed(form, name) == FilesNamed(g, name) + FilesNamed(c, name) by {
      FilesNamedAppend(t + g, c, name);
      FilesNamedAppend(t, g, name);
    }
  }

  lemma CoverPartContents(cover: Option<LocalFile>, name: string)
    ensures TextValues(CoverPart(cover), name) == []
    ensures FilesNamed(CoverPart(cover), name) == (if name == "cover" && cover.Some? then [cover.value] else [])
  {
    if cover.Some? {
      EntryCons(FileEntry("cover", cover.value), [], name);
      assert CoverPart(cover) == [FileEntry("cover", cover.value)] + [];
    }
  }

  // ---------------------------------------------------------------------
  // Token header and results

  /** `token || ADMIN_TOKEN`: the `x-admin-token` header value. */
  function TokenHeader(token: string, configured: string): (h: string)
    ensures token != "" ==> h == token
    ensures token == "" ==> h == configured
  {
    if token != "" then token else configured
  }

  /** The adapter sends no Authorization header, so the server accepts its
      requests exactly when the chosen header equals the server's token. */
  lemma ClientCredentialAccepted(serverToken: string, token: string, configured: string)
    requires serverToken != ""
    ensures Auth.Authorized(serverToken, "", TokenHeader(token, configured)) <==>
            TokenHeader(token, configured) == serverToken
  {
    assert !StartsWith("", Auth.BearerPrefix);
  }

  /** `createProject`: throws on a non-2xx answer, otherwise normalises the
      created project (a null gallery becomes `[]`). */
  function CreateResult(apiUrl: string, res: HttpResponse<Catalog.Row>): (r: Result<Project>)
    ensures r.Ok? <==> IsOk(res)
    ensures r.Err? ==> r.message == CreateError
    ensures r.Ok? ==> r.value == Normalize(apiUrl, res.body)
  {
    if !IsOk(res) then Err(CreateError) else Ok(Normalize(apiUrl, res.body))
  }

  /** `removeProject`: throws when the answer is neither ok nor 204. */
  function RemoveResult(status: int): (r: Result<()>)
    ensures r.Err? <==> !(200 <= status <= 299) && status != 204
    ensures r.Err? ==> r.message == RemoveError
  {
    if !(200 <= status <= 299) && status != 204 then Err(RemoveError) else Ok(())
  }

  /** 204 is already a 2xx status: removal fails exactly on a non-2xx answer.
      Against the server, an authorised delete succeeds and an
      unauthorised one fails. */
  lemma RemoveFailsIffNotOk(status: int)
    ensures RemoveResult(status).Err? <==> !(200 <= status <= 299)
    ensures RemoveResult(Catalog.StatusCode(Catalog.NoContent).value).Ok?
    ensures RemoveResult(Catalog.StatusCode(Catalog.Unauthorized).value).Err?
  {
  }
}
