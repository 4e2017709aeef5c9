/** The document packager of `rmdoc.go`: wraps serialised page blobs into a
    reMarkable `.rmdoc` archive.

    The archive is modelled as the ordered sequence of its entries (name and
    data); the zip byte format is not modelled. The two JSON documents are
    modelled as records, and their text comes from an encoder passed in with the
    environment, which may fail. Identifiers come from a supply `uuid`, where
    `uuid(k)` is the string returned by the k-th call of the generator, and the
    time is an input. A `log.Fatalf` of the source, which ends the process,
    becomes an `Err` carrying the message the source logs. */
module RmDoc {
  import opened Common

  /** One archive entry: its name and the bytes written into it. */
  datatype Entry = Entry(name: string, data: seq<Byte>)

  /** What the packager cannot see: the JSON encoder and the zip writer,
      whose `Create` and `Write` calls on the k-th entry succeed exactly when
      `created(k)` and `written(k)` hold. */
  datatype Env = Env(
    marshalContent: ContentRecord -> Option<seq<Byte>>,
    marshalMetadata: MetadataRecord -> Option<seq<Byte>>,
    created: nat -> bool,
    written: nat -> bool)

  // ---------------------------------------------------------------------------
  // Names
  // ---------------------------------------------------------------------------

  predicate HasPrefix(s: string, t: string)
  {
    |t| <= |s| && s[..|t|] == t
  }

  predicate HasSuffix(s: string, t: string)
  {
    |t| <= |s| && s[|s| - |t|..] == t
  }

  /** `p` without its trailing separators. */
  function TrimSlashes(p: string): (r: string)
    ensures |r| <= |p| && r == p[..|r|]
    ensures r == [] || r[|r| - 1] != '/'
    ensures forall k :: |r| <= k < |p| ==> p[k] == '/'
  {
    if |p| > 0 && p[|p| - 1] == '/' then TrimSlashes(p[..|p| - 1]) else p
  }

  /** The longest suffix of `p` holding no separator. */
  function AfterLastSlash(p: string): (r: string)
    ensures |r| <= |p| && r == p[|p| - |r|..]
    ensures '/' !in r
    ensures |r| < |p| ==> p[|p| - |r| - 1] == '/'
  {
    if |p| == 0 || p[|p| - 1] == '/' then []
    else AfterLastSlash(p[..|p| - 1]) + [p[|p| - 1]]
  }

  /** A character other than a separator extends the last element. */
  lemma AfterLastSlashSnoc(p: string, c: char)
    requires c != '/'
    ensures AfterLastSlash(p + [c]) == AfterLastSlash(p) + [c]
  {
    var q := p + [c];
    assert q[..|q| - 1] == p && q[|q| - 1] == c;
  }

  /** No character of `t` is a separator. */
  predicate NoSlash(t: string)
  {
    forall i :: 0 <= i < |t| ==> t[i] != '/'
  }

  lemma NoSlashOf(t: string)
    requires '/' !in t
    ensures NoSlash(t)
  {
    forall i | 0 <= i < |t|
      ensures t[i] != '/'
    {
      assert t[i] in t;
    }
  }

  lemma NoSlashTail(t: string)
    requires NoSlash(t) && t != []
    ensures NoSlash(t[1..])
  {
    var u := t[1..];
    forall i | 0 <= i < |u|
      ensures u[i] != '/'
    {
      assert u[i] == t[i + 1];
    }
  }

  /** `q + t` regrouped around the first character of `t`. */
  lemma Regroup(q: string, t: string)
    requires t != []
    ensures q + t == (q + [t[0]]) + t[1..]
  {
    assert t == [t[0]] + t[1..];
  }

  lemma {:induction false} AfterLastSlashAppend(p: string, t: string)
    requires NoSlash(t)
    ensures AfterLastSlash(p + t) == AfterLastSlash(p) + t
    decreases |t|
  {
    if |t| == 0 {
      assert p + t == p;
    } else {
      NoSlashTail(t);
      Regroup(p, t);
      Regroup(AfterLastSlash(p), t);
      AfterLastSlashSnoc(p, t[0]);
      AfterLastSlashAppend(p + [t[0]], t[1..]);
    }
  }

  /** Go's `filepath.Base` with `/` as separator: the last element of the path,
      "." for the empty path and "/" for a path of separators only. */
  function Base(path: string): (b: string)
    ensures b != []
    ensures '/' !in b || b == "/"
  {
    if path == [] then "."
    else
      var p := TrimSlashes(path);
      if p == [] then "/"
      else
        var last := AfterLastSlash(p);
        if last == [] then "/" else last
  }

  /** A path element is its own base. */
  lemma BaseIdempotent(path: string)
    ensures Base(Base(path)) == Base(path)
  {
    var b := Base(path);
    if '/' !in b {
      assert TrimSlashes(b) == b;
      NoSlashOf(b);
      AfterLastSlashAppend([], b);
      assert [] + b == b;
    }
  }

  /** The archive's file name (`CreateRmDoc`): a trailing ".rm" is replaced by
      ".rmdoc", any other name gets ".rmdoc" appended. */
  function ZipName(rmName: string): (z: string)
    ensures HasSuffix(z, ".rmdoc")
    ensures z == Stem(rmName) + ".rmdoc"
  {
    if HasSuffix(rmName, ".rm") then rmName[..|rmName| - |".rm"|] + ".rmdoc"
    else rmName + ".rmdoc"
  }

  /** `rmName` without a trailing ".rm". */
  function Stem(rmName: string): (s: string)
    ensures HasSuffix(rmName, ".rm") ==> rmName == s + ".rm"
    ensures !HasSuffix(rmName, ".rm") ==> s == rmName
  {
    if HasSuffix(rmName, ".rm") then rmName[..|rmName| - 3] else rmName
  }

  /** "out-" is removed only from a name that has more after it. */
  function StripOut(name: string): (v: string)
    ensures HasPrefix(name, "out-") && |name| > 4 ==> name == "out-" + v && v != []
    ensures !(HasPrefix(name, "out-") && |name| > 4) ==> v == name
  {
    if HasPrefix(name, "out-") && |name| > 4 then name[|"out-"|..] else name
  }

  /** The notebook's display name (`process`): the base of the archive name
      without ".rmdoc", then without an "out-" prefix. */
  function VisibleName(zipfile: string): string
  {
    var base := Base(zipfile);
    var trimmed := if HasSuffix(base, ".rmdoc") then base[..|base| - |".rmdoc"|] else base;
    StripOut(trimmed)
  }

  /** Appending a nonempty name without separators to a path extends its last
      element. */
  lemma BaseAppend(p: string, t: string)
    requires t != [] && NoSlash(t)
    ensures Base(p + t) == AfterLastSlash(p) + t
  {
    var pt := p + t;
    assert pt[|pt| - 1] == t[|t| - 1] != '/';
    assert TrimSlashes(pt) == pt;
    AfterLastSlashAppend(p, t);
  }

  lemma NoSlashInExtension()
    ensures NoSlash(".rmdoc")
  {
    var e := ".rmdoc";
    assert e == ['.', 'r', 'm', 'd', 'o', 'c'];
  }

  /** An archive whose last element is `name` + ".rmdoc" is displayed as `name`
      without an "out-" prefix. */
  lemma VisibleNameOfBase(zipfile: string, name: string)
    requires Base(zipfile) == name + ".rmdoc"
    ensures VisibleName(zipfile) == StripOut(name)
  {
    var last := name + ".rmdoc";
    assert HasSuffix(last, ".rmdoc");
    assert last[..|last| - |".rmdoc"|] == name;
  }

  /** The display name of a packaged page is the last element of the page's
      name without ".rm" and without an "out-" prefix. */
  lemma VisibleNameOfZipName(rmName: string)
    ensures VisibleName(ZipName(rmName)) == StripOut(AfterLastSlash(Stem(rmName)))
  {
    NoSlashInExtension();
    BaseAppend(Stem(rmName), ".rmdoc");
    VisibleNameOfBase(ZipName(rmName), AfterLastSlash(Stem(rmName)));
  }

  // ---------------------------------------------------------------------------
  // Decimal numerals (`fmt.Sprint`, `%d`)
  // ---------------------------------------------------------------------------

  function Digit(d: nat): (c: char)
    requires d < 10
    ensures '0' <= c <= '9'
  {
    "0123456789"[d]
  }

  function DigitValue(c: char): (d: nat)
    ensures '0' <= c <= '9' ==> d < 10 && Digit(d) == c
  {
    if '0' <= c <= '9' then c as int - '0' as int else 0
  }

  /** The decimal numeral of `n`, without leading zeros. */
  function Decimal(n: nat): (s: string)
    ensures s != []
    ensures forall k :: 0 <= k < |s| ==> '0' <= s[k] <= '9'
    ensures s[0] == '0' ==> n == 0
    decreases n
  {
    if n < 10 then [Digit(n)] else Decimal(n / 10) + [Digit(n % 10)]
  }

  /** The value of a numeral. */
  function ParseDecimal(s: string): nat
  {
    if s == [] then 0 else 10 * ParseDecimal(s[..|s| - 1]) + DigitValue(s[|s| - 1])
  }

  lemma {:induction false} DecimalRoundTrip(n: nat)
    ensures ParseDecimal(Decimal(n)) == n
    decreases n
  {
    var s := Decimal(n);
    if n < 10 {
      assert s[..0] == [];
      assert DigitValue(Digit(n)) == n;
    } else {
      DecimalRoundTrip(n / 10);
      assert s[..|s| - 1] == Decimal(n / 10);
      assert DigitValue(Digit(n % 10)) == n % 10;
    }
  }

  // ---------------------------------------------------------------------------
  // The JSON records
  // ---------------------------------------------------------------------------

  datatype Stamped<T> = Stamped(timestamp: string, value: T)

  datatype PageRecord = PageRecord(id: string, idx: Stamped<string>, template: Stamped<string>)

  datatype CPages = CPages(
    lastOpened: Stamped<string>,
    original: Stamped<int>,
    pages: seq<PageRecord>,
    uuids: seq<(string, int)>)

  datatype ExtraMetadata = ExtraMetadata(
    lastBallpointv2Color: string, lastBallpointv2Size: string,
    lastEraserColor: string, lastEraserSize: string, lastEraserTool: string,
    lastPen: string, lastTool: string)

  /** The `.content` document. Its always-empty members (`documentMetadata`,
      `pageTags`, `tags`) carry no information and are not fields here. */
  datatype ContentRecord = ContentRecord(
    cPages: CPages,
    coverPageNumber: int,
    customZoomCenterX: int, customZoomCenterY: int,
    customZoomOrientation: string,
    customZoomPageHeight: int, customZoomPageWidth: int, customZoomScale: int,
    extraMetadata: ExtraMetadata,
    fileType: string, fontName: string,
    formatVersion: int, lineHeight: int, margins: int,
    orientation: string,
    pageCount: int,
    sizeInBytes: string,
    textAlignment: string, textScale: int, zoomMode: string)

  /** The `.metadata` document. */
  datatype MetadataRecord = MetadataRecord(
    createdTime: int, lastModified: int, lastOpened: int,
    lastOpenedPage: int, parent: string, pinned: bool,
    docType: string, visibleName: string)

  /** The zero value of a page slot before it is filled. */
  const NoPage := PageRecord("", Stamped("", ""), Stamped("", ""))

  /** Page `i` of the content document. */
  function PageOf(id: string, i: nat): PageRecord
  {
    PageRecord(id, Stamped("1:2", "ba-" + Decimal(i)), Stamped("1:2", "Blank"))
  }

  /** The total length of the blobs. */
  function TotalSize(data: seq<seq<Byte>>): nat
  {
    if data == [] then 0 else TotalSize(data[..|data| - 1]) + |data[|data| - 1]|
  }

  lemma {:induction false} TotalSizeBounds(data: seq<seq<Byte>>, i: nat)
    requires i < |data|
    ensures |data[i]| <= TotalSize(data)
    decreases |data|
  {
    if i < |data| - 1 {
      TotalSizeBounds(data[..|data| - 1], i);
    }
  }

  /** The members of every content document that do not depend on the pages;
      the page-dependent ones are blank here. */
  const ContentTemplate := ContentRecord(
    CPages(Stamped("1:1", ""), Stamped("1:1", -1), [],
           [("25248a5b-7602-5a83-b6b8-885ee4e4f813", 1)]),
    -1, 0, 936, "portrait", 1872, 1404, 1,
    ExtraMetadata("Black", "2", "Black", "2", "Eraser", "Ballpointv2", "Ballpointv2"),
    "notebook", "", 2, -1, 125, "portrait",
    0, "", "justify", 1, "bestFit")

  /** The content document describing the pages `pageIDs` whose blobs are `data`.
      It names `pageIDs[0]` as the last opened page, so it exists only for at
      least one page. */
  function ContentOf(pageIDs: seq<string>, data: seq<seq<Byte>>): (c: ContentRecord)
    requires |pageIDs| > 0
    ensures c.pageCount == |c.cPages.pages| == |pageIDs|
    ensures c.cPages.lastOpened.value == pageIDs[0]
    ensures forall i :: 0 <= i < |pageIDs| ==> c.cPages.pages[i].id == pageIDs[i]
  {
    var pages := seq(|pageIDs|, (i: int) requires 0 <= i < |pageIDs| => PageOf(pageIDs[i], i));
    ContentTemplate.(
      cPages := ContentTemplate.cPages.(lastOpened := Stamped("1:1", pageIDs[0]), pages := pages),
      pageCount := |pageIDs|,
      sizeInBytes := Decimal(TotalSize(data)))
  }

  /** The metadata document of a notebook made at `time`: created, modified and
      opened then, open at its first page, pinned, at the top level, and shown
      under `visibleName`. */
  function MetadataOf(time: int, visibleName: string): (m: MetadataRecord)
    ensures m.createdTime == m.lastModified == m.lastOpened == time
    ensures m.lastOpenedPage == 0 && m.parent == "" && m.pinned
    ensures m.docType == "DocumentType" && m.visibleName == visibleName
  {
    MetadataRecord(time, time, time, 0, "", true, "DocumentType", visibleName)
  }

  const IndexOutOfRange := "runtime error: index out of range [0] with length 0"
  const ContentJsonError := "Error marshaling content JSON"
  const MetadataJsonError := "Error marshaling notebook metadata JSON"

  /** The text of the content document, or the reason there is none. */
  function ContentText(pageIDs: seq<string>, data: seq<seq<Byte>>, env: Env): Result<seq<Byte>, string>
  {
    if |pageIDs| == 0 then Err(IndexOutOfRange)
    else match env.marshalContent(ContentOf(pageIDs, data))
      case None => Err(ContentJsonError)
      case Some(text) => Ok(text)
  }

  /** The text of the metadata document, or the reason there is none. */
  function MetadataText(time: int, visibleName: string, env: Env): Result<seq<Byte>, string>
  {
    match env.marshalMetadata(MetadataOf(time, visibleName))
    case None => Err(MetadataJsonError)
    case Some(text) => Ok(text)
  }

  /** The content document lists exactly the given pages, in order, and the
      total size it records is the total length of the blobs. */
  lemma ContentDescribesPages(pageIDs: seq<string>, data: seq<seq<Byte>>)
    requires |pageIDs| > 0
    ensures var c := ContentOf(pageIDs, data);
      && c.pageCount == |c.cPages.pages| == |pageIDs|
      && c.cPages.lastOpened.value == pageIDs[0]
      && (forall i :: 0 <= i < |pageIDs| ==>
            c.cPages.pages[i].id == pageIDs[i] &&
            |c.cPages.pages[i].idx.value| > 3 && c.cPages.pages[i].idx.value[..3] == "ba-" &&
            ParseDecimal(c.cPages.pages[i].idx.value[3..]) == i &&
            c.cPages.pages[i].idx.timestamp == "1:2" &&
            c.cPages.pages[i].template == Stamped("1:2", "Blank"))
      && ParseDecimal(c.sizeInBytes) == TotalSize(data)
  {
    var c := ContentOf(pageIDs, data);
    forall i | 0 <= i < |pageIDs|
      ensures ParseDecimal(c.cPages.pages[i].idx.value[3..]) == i
    {
      assert c.cPages.pages[i].idx.value[3..] == Decimal(i);
      DecimalRoundTrip(i);
    }
    DecimalRoundTrip(TotalSize(data));
  }

  /** The metadata document stamps all three times with `time`, opens the
      first page, is pinned and carries the display name. */
  lemma MetadataDescribesNotebook(time: int, zipfile: string)
    ensures var m := MetadataOf(time, VisibleName(zipfile));
      && m.createdTime == m.lastModified == m.lastOpened == time
      && m.lastOpenedPage == 0 && m.pinned
      && m.visibleName == VisibleName(zipfile)
  {
  }

  // ---------------------------------------------------------------------------
  // The archive
  // ---------------------------------------------------------------------------

  /** The identifiers of `n` pages: the calls of the generator after the one
      that named the notebook. */
  function PageIDs(uuid: nat -> string, n: nat): (ids: seq<string>)
    ensures |ids| == n
    ensures forall i :: 0 <= i < n ==> ids[i] == uuid(i + 1)
  {
    seq(n, (i: int) requires 0 <= i => uuid(i + 1))
  }

  /** The page entries, one per blob, named `<id>/<pageID>.rm`. */
  function PageEntries(notebookID: string, pageIDs: seq<string>, data: seq<seq<Byte>>): (es: seq<Entry>)
    requires |pageIDs| == |data|
    ensures |es| == |data|
    ensures forall i :: 0 <= i < |es| ==> es[i] == Entry(notebookID + "/" + pageIDs[i] + ".rm", data[i])
  {
    seq(|data|, (i: int) requires 0 <= i < |data| => Entry(notebookID + "/" + pageIDs[i] + ".rm", data[i]))
  }

  /** The archive of a successful `writeZip`: content, metadata, then the pages. */
  function Entries(notebookID: string, pageIDs: seq<string>, content: seq<Byte>,
                   metadata: seq<Byte>, data: seq<seq<Byte>>): seq<Entry>
    requires |pageIDs| == |data|
  {
    [Entry(notebookID + ".content", content), Entry(notebookID + ".metadata", metadata)]
      + PageEntries(notebookID, pageIDs, data)
  }

  function CreateError(k: nat): string
  {
    if k == 0 then "Error creating zip entry for content"
    else if k == 1 then "Error creating zip entry for metadata"
    else "Error creating zip entry for .rm file"
  }

  function WriteError(k: nat): string
  {
    if k == 0 then "Error writing content to zip entry"
    else if k == 1 then "Error writing metadata to zip entry"
    else "Error writing .rm file to zip entry"
  }

  /** The first failing zip call among entries `k` to `n - 1`, in the order the
      source makes them: create entry k, write it, then entry k + 1. */
  function FirstFault(env: Env, k: nat, n: nat): (f: Option<string>)
    ensures f.None? <==> forall j :: k <= j < n ==> env.created(j) && env.written(j)
    ensures f.Some? ==> Logged(f.value)
    decreases n - k
  {
    if k >= n then None
    else if !env.created(k) then Some(CreateError(k))
    else if !env.written(k) then Some(WriteError(k))
    else FirstFault(env, k + 1, n)
  }

  /** The messages the packager logs before the process ends. */
  predicate Logged(e: string)
  {
    e in {IndexOutOfRange, ContentJsonError, MetadataJsonError,
          CreateError(0), CreateError(1), CreateError(2), WriteError(0), WriteError(1), WriteError(2)}
  }

  /** What `process` leaves in a document object: the two texts and the archive. */
  datatype Document = Document(content: seq<Byte>, metadata: seq<Byte>, entries: seq<Entry>)

  /** The outcome of `process` on archive name `zipfile` and blobs `data`. */
  function Processed(zipfile: string, data: seq<seq<Byte>>, time: int,
                     uuid: nat -> string, env: Env): (r: Result<Document, string>)
    ensures r.Ok? <==>
      && |data| > 0
      && env.marshalContent(ContentOf(PageIDs(uuid, |data|), data)).Some?
      && env.marshalMetadata(MetadataOf(time, VisibleName(zipfile))).Some?
      && forall k :: 0 <= k < |data| + 2 ==> env.created(k) && env.written(k)
    ensures r.Ok? ==> |r.value.entries| == |data| + 2
    ensures r.Err? ==> Logged(r.error)
  {
    var notebookID := uuid(0);
    var pageIDs := PageIDs(uuid, |data|);
    match ContentText(pageIDs, data, env)
    case Err(e) => Err(e)
    case Ok(content) =>
      match MetadataText(time, VisibleName(zipfile), env)
      case Err(e) => Err(e)
      case Ok(metadata) =>
        match FirstFault(env, 0, |data| + 2)
        case Some(e) => Err(e)
        case None => Ok(Document(content, metadata, Entries(notebookID, pageIDs, content, metadata, data)))
  }

  /** The outcome of `CreateRmDoc`: the archive and its file name. */
  function Package(rmName: string, data: seq<seq<Byte>>, time: int,
                   uuid: nat -> string, env: Env): (r: Result<(seq<Entry>, string), string>)
    ensures r.Ok? ==> r.value.1 == ZipName(rmName) && |r.value.0| == |data| + 2
    ensures r.Err? ==> Logged(r.error)
  {
    match Processed(ZipName(rmName), data, time, uuid, env)
    case Err(e) => Err(e)
    case Ok(doc) => Ok((doc.entries, ZipName(rmName)))
  }

  /** Packaging succeeds exactly when there is a page, both documents encode
      and every zip call succeeds. */
  lemma PackageSucceeds(rmName: string, data: seq<seq<Byte>>, time: int,
                        uuid: nat -> string, env: Env)
    ensures Package(rmName, data, time, uuid, env).Ok? <==>
      && |data| > 0
      && env.marshalContent(ContentOf(PageIDs(uuid, |data|), data)).Some?
      && env.marshalMetadata(MetadataOf(time, VisibleName(ZipName(rmName)))).Some?
      && forall k :: 0 <= k < |data| + 2 ==> env.created(k) && env.written(k)
  {
    var ids := PageIDs(uuid, |data|);
    assert |ids| == |data|;
    assert ContentText(ids, data, env).Ok? <==>
      |data| > 0 && env.marshalContent(ContentOf(ids, data)).Some?;
    assert Package(rmName, data, time, uuid, env).Ok? <==>
      && ContentText(ids, data, env).Ok?
      && MetadataText(time, VisibleName(ZipName(rmName)), env).Ok?
      && FirstFault(env, 0, |data| + 2).None?;
  }

  /** A successful package is the archive `writeZip` builds from the two
      document texts, under the archive name of `rmName`. */
  lemma PackageOk(rmName: string, data: seq<seq<Byte>>, time: int,
                  uuid: nat -> string, env: Env, es: seq<Entry>, zipName: string)
    requires Package(rmName, data, time, uuid, env) == Ok((es, zipName))
    ensures zipName == ZipName(rmName) && |data| > 0
    ensures ContentText(PageIDs(uuid, |data|), data, env).Ok?
    ensures MetadataText(time, VisibleName(zipName), env).Ok?
    ensures es == Entries(uuid(0), PageIDs(uuid, |data|), ContentText(PageIDs(uuid, |data|), data, env).value,
                          MetadataText(time, VisibleName(zipName), env).value, data)
  {
  }

  /** A successful package holds `K + 2` entries: the content document, the
      metadata document, then blob i under the name of page i. */
  lemma PackageEntries(rmName: string, data: seq<seq<Byte>>, time: int,
                       uuid: nat -> string, env: Env, es: seq<Entry>, zipName: string)
    requires Package(rmName, data, time, uuid, env) == Ok((es, zipName))
    ensures |es| == |data| + 2
    ensures es[0].name == uuid(0) + ".content" && es[1].name == uuid(0) + ".metadata"
    ensures forall i :: 0 <= i < |data| ==> es[i + 2] == Entry(uuid(0) + "/" + uuid(i + 1) + ".rm", data[i])
  {
    PackageOk(rmName, data, time, uuid, env, es, zipName);
    var pes := PageEntries(uuid(0), PageIDs(uuid, |data|), data);
    assert es[2..] == pes;
    forall i | 0 <= i < |data|
      ensures es[i + 2] == Entry(uuid(0) + "/" + uuid(i + 1) + ".rm", data[i])
    {
      assert es[i + 2] == pes[i];
    }
  }

  /** The first two entries hold the encoded content and metadata documents;
      the content document counts the pages of the archive, and the archive
      name ends in ".rmdoc". */
  lemma PackageDocuments(rmName: string, data: seq<seq<Byte>>, time: int,
                         uuid: nat -> string, env: Env, es: seq<Entry>, zipName: string)
    requires Package(rmName, data, time, uuid, env) == Ok((es, zipName))
    ensures |data| > 0 && |es| == |data| + 2
    ensures env.marshalContent(ContentOf(PageIDs(uuid, |data|), data)) == Some(es[0].data)
    ensures ContentOf(PageIDs(uuid, |data|), data).pageCount == |es| - 2
    ensures env.marshalMetadata(MetadataOf(time, VisibleName(zipName))) == Some(es[1].data)
    ensures HasSuffix(zipName, ".rmdoc")
  {
    PackageOk(rmName, data, time, uuid, env, es, zipName);
  }

  /** The page-identifier loop of `process`: one fresh identifier per page,
      drawn after the notebook's. */
  method NewPageIDs(n: nat, uuid: nat -> string) returns (pageIDs: seq<string>)
    ensures pageIDs == PageIDs(uuid, n)
  {
    pageIDs := [];
    var i := 0;
    while i < n
      invariant 0 <= i <= n
      invariant |pageIDs| == i
      invariant forall k :: 0 <= k < i ==> pageIDs[k] == uuid(k + 1)
    {
      pageIDs := pageIDs + [uuid(i + 1)];
      i := i + 1;
    }
  }

  // ---------------------------------------------------------------------------
  // The document object
  // ---------------------------------------------------------------------------

  /** `ReMarkableAPIrmdoc`. */
  class RmDocument {
    var content: seq<Byte>
    var notebookMetadata: seq<Byte>
    var metadata0rm: seq<Byte>
    var rmdata: seq<seq<Byte>>
    var time: int
    var internalBuffer: Option<seq<Entry>>

    /** The fields `NewReMarkableAPIrmdoc` sets before `process`. */
    constructor (rmdata: seq<seq<Byte>>, time: int)
      ensures this.rmdata == rmdata && this.time == time
      ensures content == [] && notebookMetadata == [] && metadata0rm == []
      ensures internalBuffer == None
    {
      this.rmdata := rmdata;
      this.time := time;
      content := [];
      notebookMetadata := [];
      metadata0rm := [];
      internalBuffer := None;
    }

    /** `createContent`: sums the blob lengths and fills the page slots, then
        encodes the record. */
    method CreateContent(pageIDs: seq<string>, env: Env) returns (r: Result<seq<Byte>, string>)
      ensures r == ContentText(pageIDs, rmdata, env)
    {
      if |pageIDs| == 0 {
        return Err(IndexOutOfRange);
      }
      var size := 0;
      var j := 0;
      while j < |rmdata|
        invariant 0 <= j <= |rmdata|
        invariant size == TotalSize(rmdata[..j])
      {
        assert rmdata[..j + 1][..j] == rmdata[..j];
        size := size + |rmdata[j]|;
        j := j + 1;
      }
      assert rmdata[..j] == rmdata;
      var pages := seq(|pageIDs|, (_: int) => NoPage);
      var i := 0;
      while i < |pageIDs|
        invariant 0 <= i <= |pageIDs| == |pages|
        invariant forall k :: 0 <= k < i ==> pages[k] == PageOf(pageIDs[k], k)
      {
        pages := pages[i := PageOf(pageIDs[i], i)];
        i := i + 1;
      }
      var record := ContentTemplate.(
        cPages := ContentTemplate.cPages.(lastOpened := Stamped("1:1", pageIDs[0]), pages := pages),
        pageCount := |pageIDs|,
        sizeInBytes := Decimal(size));
      assert record == ContentOf(pageIDs, rmdata);
      var text := env.marshalContent(record);
      if text.None? {
        return Err(ContentJsonError);
      }
      return Ok(text.value);
    }

    /** `createNotebookMetadata`: the encoded metadata document of a notebook
        made at the document's time, or the logged error when encoding fails. */
    function CreateNotebookMetadata(visibleName: string, env: Env): (r: Result<seq<Byte>, string>)
      reads this
      ensures r.Ok? <==> env.marshalMetadata(MetadataOf(time, visibleName)).Some?
      ensures r.Ok? ==> Some(r.value) == env.marshalMetadata(MetadataOf(time, visibleName))
      ensures r.Err? ==> r.error == MetadataJsonError
    {
      match env.marshalMetadata(MetadataRecord(time, time, time, 0, "", true, "DocumentType", visibleName))
      case None => Err(MetadataJsonError)
      case Some(text) => Ok(text)
    }

    /** `writeZip`: the content entry, the metadata entry, then one entry per
        page; the first failing zip call ends the run. */
    method WriteZip(notebookID: string, pageIDs: seq<string>, env: Env) returns (fault: Option<string>)
      requires |pageIDs| == |rmdata|
      modifies this
      ensures content == old(content) && notebookMetadata == old(notebookMetadata)
      ensures metadata0rm == old(metadata0rm) && rmdata == old(rmdata) && time == old(time)
      ensures fault == FirstFault(env, 0, |pageIDs| + 2)
      ensures fault.None? ==>
        internalBuffer == Some(Entries(notebookID, pageIDs, content, notebookMetadata, rmdata))
      ensures fault.Some? ==> internalBuffer == old(internalBuffer)
    {
      var f: seq<Entry> := [];
      if !env.created(0) { return Some(CreateError(0)); }
      if !env.written(0) { return Some(WriteError(0)); }
      f := f + [Entry(notebookID + ".content", content)];
      if !env.created(1) { return Some(CreateError(1)); }
      if !env.written(1) { return Some(WriteError(1)); }
      f := f + [Entry(notebookID + ".metadata", notebookMetadata)];
      ghost var pes := PageEntries(notebookID, pageIDs, rmdata);
      var i := 0;
      while i < |pageIDs|
        invariant 0 <= i <= |pageIDs|
        invariant FirstFault(env, 0, |pageIDs| + 2) == FirstFault(env, i + 2, |pageIDs| + 2)
        invariant f == [Entry(notebookID + ".content", content),
                        Entry(notebookID + ".metadata", notebookMetadata)] + pes[..i]
      {
        if !env.created(i + 2) { return Some(CreateError(i + 2)); }
        if !env.written(i + 2) { return Some(WriteError(i + 2)); }
        assert pes[..i + 1] == pes[..i] + [pes[i]];
        f := f + [Entry(notebookID + "/" + pageIDs[i] + ".rm", rmdata[i])];
        i := i + 1;
      }
      assert pes[..i] == pes;
      internalBuffer := Some(f);
      return None;
    }

    /** `process`: names the notebook and its pages, builds both documents and
        writes the archive. After a failure the process has ended, so only the
        archive buffer is described then. */
    method Process(zipfile: string, uuid: nat -> string, env: Env) returns (r: Result<(), string>)
      modifies this
      ensures rmdata == old(rmdata) && time == old(time) && metadata0rm == old(metadata0rm)
      ensures match Processed(zipfile, rmdata, time, uuid, env)
        case Err(e) => r == Err(e) && internalBuffer == old(internalBuffer)
        case Ok(doc) => (r == Ok(()) && content == doc.content &&
                         notebookMetadata == doc.metadata && internalBuffer == Some(doc.entries))
    {
      var notebookID := uuid(0);
      var visibleName := VisibleName(zipfile);
      var pageIDs := NewPageIDs(|rmdata|, uuid);
      var c := CreateContent(pageIDs, env);
      if c.Err? {
        return Err(c.error);
      }
      content := c.value;
      var m := CreateNotebookMetadata(visibleName, env);
      if m.Err? {
        return Err(m.error);
      }
      notebookMetadata := m.value;
      var fault := WriteZip(notebookID, pageIDs, env);
      if fault.Some? {
        return Err(fault.value);
      }
      return Ok(());
    }

    /** The clean-up at the end of `CreateRmDoc`: every field but the archive
        buffer and the time is emptied. */
    method Clear()
      modifies this
      ensures rmdata == [] && content == [] && metadata0rm == [] && notebookMetadata == []
      ensures internalBuffer == old(internalBuffer) && time == old(time)
    {
      rmdata := [];
      content := [];
      metadata0rm := [];
      notebookMetadata := [];
    }
  }

  /** `NewReMarkableAPIrmdoc`: a document for the blobs, processed at once. */
  method NewRmDocument(zipfile: string, rmdata: seq<seq<Byte>>, time: int,
                       uuid: nat -> string, env: Env) returns (doc: RmDocument, r: Result<(), string>)
    ensures fresh(doc) && doc.rmdata == rmdata && doc.time == time && doc.metadata0rm == []
    ensures match Processed(zipfile, rmdata, time, uuid, env)
      case Err(e) => r == Err(e) && doc.internalBuffer == None
      case Ok(d) => (r == Ok(()) && doc.content == d.content &&
                     doc.notebookMetadata == d.metadata && doc.internalBuffer == Some(d.entries))
  {
    doc := new RmDocument(rmdata, time);
    r := doc.Process(zipfile, uuid, env);
  }

  /** `CreateRmDoc`: packages the blobs under the archive name derived from
      `rmName`, then clears the document's data fields. */
  method CreateRmDoc(rmName: string, rmData: seq<seq<Byte>>, time: int,
                     uuid: nat -> string, env: Env)
    returns (r: Result<(seq<Entry>, string), string>, ghost doc: RmDocument)
    ensures r == Package(rmName, rmData, time, uuid, env)
    ensures fresh(doc)
    ensures r.Ok? ==> (doc.rmdata == [] && doc.content == [] && doc.metadata0rm == [] &&
                       doc.notebookMetadata == [] && doc.internalBuffer == Some(r.value.0))
  {
    var zipName := ZipName(rmName);
    var d, res := NewRmDocument(zipName, rmData, time, uuid, env);
    doc := d;
    if res.Err? {
      return Err(res.error), doc;
    }
    d.Clear();
    r := Ok((d.internalBuffer.value, zipName));
  }
}
