/**
 * The courseware endpoints (backend/app/routes/courseware_routes.py): the
 * upload checks, the deletion right, usage recording, the preview's MIME
 * choice and the batch operation. Each route is specified by a pure
 * function over the items by id (`Catalog`); the methods of `Library`
 * perform the writes and are proved to agree with it. The file system,
 * `secure_filename`, the random stored name and `mimetypes.guess_type` are
 * inputs.
 */
module CoursewareRoutes {
  import opened Wrappers
  import Text
  import Batch
  import opened ResultEnvelope
  import opened Content
  import opened Coursewares
  import Schema
  import CoursewareUsages
  import OperationLogs

  /** The items of the `courseware` table, by id. */
  type Catalog = map<nat, Item>

  // ---------------------------------------------------------------------
  // os.path.splitext and allowed_file
  // ---------------------------------------------------------------------

  /** `str.rfind`: the last index of `c` in `s`, or -1. */
  function LastIndex(s: string, c: char): (r: int)
    ensures -1 <= r < |s|
    ensures r >= 0 ==> s[r] == c
    ensures forall k :: r < k < |s| ==> s[k] != c
  {
    if s == [] then -1
    else if s[|s| - 1] == c then |s| - 1
    else LastIndex(s[..|s| - 1], c)
  }

  /** The last index of a character is the one position holding it with none after. */
  lemma LastIndexIs(s: string, c: char, i: int)
    requires -1 <= i < |s| && (i >= 0 ==> s[i] == c)
    requires forall k :: i < k < |s| ==> s[k] != c
    ensures LastIndex(s, c) == i
  {
  }

  /**
   * `os.path.splitext` on a POSIX path: the extension runs from the last
   * '.' of the last path component to the end, unless only dots precede
   * that '.' in the component (so '.bashrc' and '..' have none).
   */
  function SplitExt(p: string): (r: (string, string))
    ensures r.0 + r.1 == p
    ensures r.1 != "" ==> r.1[0] == '.' && '.' !in r.1[1..] && '/' !in r.1
    ensures r.1 != "" ==> exists k :: 0 <= k < |r.0| && r.0[k] != '.' && '/' !in r.0[k..]
  {
    var sep := LastIndex(p, '/');
    var dot := LastIndex(p, '.');
    if dot > sep && exists k :: sep + 1 <= k < dot && p[k] != '.' then
      assert p[..dot] + p[dot..] == p;
      (p[..dot], p[dot..])
    else
      (p, "")
  }

  /** Splitting a name made of a stem, a '.' and an extension gives the two parts back. */
  lemma SplitExtJoin(stem: string, ext: string)
    requires stem != [] && stem[|stem| - 1] != '.' && stem[|stem| - 1] != '/'
    requires '.' !in ext && '/' !in ext
    ensures SplitExt(stem + "." + ext) == (stem, "." + ext)
  {
    var p := stem + "." + ext;
    forall k | |stem| < k < |p|
      ensures p[k] != '.' && p[k] != '/'
    {
      assert p[k] == ext[k - |stem| - 1];
    }
    LastIndexIs(p, '.', |stem|);
    var sep := LastIndex(p, '/');
    assert sep < |stem| - 1;
    assert sep + 1 <= |stem| - 1 < |stem| && p[|stem| - 1] != '.';
    assert p[..|stem|] == stem && p[|stem|..] == "." + ext;
  }

  /** A name whose only '.' leads its last component has no extension. */
  lemma SplitExtHidden(ext: string)
    requires '.' !in ext && '/' !in ext
    ensures SplitExt("." + ext) == ("." + ext, "")
  {
    var p := "." + ext;
    LastIndexIs(p, '.', 0);
    LastIndexIs(p, '/', -1);
  }

  /** Lower-casing keeps the positions of '.' and '/'. */
  lemma LastIndexLower(p: string, c: char)
    requires c == '.' || c == '/'
    ensures LastIndex(Text.Lower(p), c) == LastIndex(p, c)
  {
    var lp := Text.Lower(p);
    var i := LastIndex(p, c);
    forall k | 0 <= k < |p|
      ensures lp[k] == c <==> p[k] == c
    {
    }
    LastIndexIs(lp, c, i);
  }

  /** Lower-casing keeps whether a stretch holds a character other than '.'. */
  lemma LowerKeepsNonDot(p: string, lp: string, lo: int, hi: int)
    requires |lp| == |p| && forall k :: 0 <= k < |p| ==> lp[k] == Text.LowerChar(p[k])
    requires 0 <= lo && hi <= |p|
    ensures (exists k :: lo <= k < hi && p[k] != '.') <==> (exists k :: lo <= k < hi && lp[k] != '.')
  {
    if exists k :: lo <= k < hi && p[k] != '.' {
      var k :| lo <= k < hi && p[k] != '.';
      assert lp[k] != '.';
    }
    if exists k :: lo <= k < hi && lp[k] != '.' {
      var k :| lo <= k < hi && lp[k] != '.';
      assert p[k] != '.';
    }
  }

  /** Splitting the lower-cased path is lower-casing the split. */
  lemma SplitExtLower(p: string)
    ensures SplitExt(Text.Lower(p)) == (Text.Lower(SplitExt(p).0), Text.Lower(SplitExt(p).1))
  {
    var lp := Text.Lower(p);
    LastIndexLower(p, '.');
    LastIndexLower(p, '/');
    var sep := LastIndex(p, '/');
    var dot := LastIndex(p, '.');
    LowerKeepsNonDot(p, lp, sep + 1, dot);
    if dot > sep && exists k :: sep + 1 <= k < dot && p[k] != '.' {
      assert SplitExt(p) == (p[..dot], p[dot..]);
      assert SplitExt(lp) == (lp[..dot], lp[dot..]);
      Text.LowerCut(p, dot);
    } else {
      assert SplitExt(p) == (p, "");
      assert SplitExt(lp) == (lp, "");
      assert Text.Lower("") == "";
    }
  }

  /** `ALLOWED_EXTENSIONS`. */
  const AllowedExtensions: seq<string> := [".pdf", ".ppt", ".pptx", ".doc", ".docx", ".mp4", ".mp3",
                                           ".jpg", ".png", ".jpeg", ".gif", ".zip", ".rar"]

  /**
   * `allowed_file`: the name holds a '.' and its lower-cased extension is
   * allowed. The '.' test adds nothing, and an allowed name always has a
   * stem.
   */
  function AllowedFile(filename: string): (r: bool)
    ensures r <==> Text.Lower(SplitExt(filename).1) in AllowedExtensions
    ensures r ==> SplitExt(filename).0 != ""
  {
    SplitExtLower(filename);
    if Text.Lower(SplitExt(filename).1) in AllowedExtensions then
      DotOfExtension(filename);
      true
    else
      '.' in filename && SplitExt(Text.Lower(filename)).1 in AllowedExtensions
  }

  /** An allowed extension is non-empty, so the name holds its '.'. */
  lemma DotOfExtension(filename: string)
    requires Text.Lower(SplitExt(filename).1) in AllowedExtensions
    ensures '.' in filename
  {
    var ext := SplitExt(filename).1;
    assert ext != [] && ext[0] == '.';
    assert filename[|SplitExt(filename).0|] == '.';
  }

  /** A stem followed by an allowed extension, in any letter case, is accepted. */
  lemma AllowedByExtension(stem: string, ext: string)
    requires stem != [] && stem[|stem| - 1] != '.' && stem[|stem| - 1] != '/'
    requires '.' !in ext && '/' !in ext
    requires "." + Text.Lower(ext) in AllowedExtensions
    ensures AllowedFile(stem + "." + ext)
  {
    SplitExtJoin(stem, ext);
    assert Text.Lower("." + ext) == "." + Text.Lower(ext);
  }

  /** A name made only of a leading '.' and an extension, such as '.pdf', is refused. */
  lemma HiddenNameRefused(ext: string)
    requires '.' !in ext && '/' !in ext
    ensures !AllowedFile("." + ext)
  {
    SplitExtHidden(ext);
  }

  // ---------------------------------------------------------------------
  // upload_courseware
  // ---------------------------------------------------------------------

  /** `MAX_FILE_SIZE`: 100 MiB. */
  const MaxFileSize: nat := 100 * 1024 * 1024

  /**
   * An upload request: whether the form has a file part, its name, its
   * size, what `secure_filename` makes of the name, the path the file is
   * saved under (a random name), and the optional form fields.
   */
  datatype UploadForm = UploadForm(
    hasFile: bool,
    filename: string,
    size: nat,
    secureName: string,
    storedPath: string,
    title: Option<string>,
    description: Option<string>,
    categoryId: Option<string>,
    tags: Option<string>)

  /** What an upload ends in. */
  datatype UploadResult =
    | Refused(status: Status)   // a 400 reply
    | Crashed                   // `int(category_id)` raised: the handler's error reply
    | Uploaded(item: Item)      // the new row

  /** The title: the form's when truthy, else the file name without its extension. */
  function UploadTitle(form: UploadForm): string
  {
    if Truthy(form.title) then form.title.value else SplitExt(form.filename).0
  }

  /** Some item already has this title (`get_by_title`). */
  predicate TitleTaken(cat: Catalog, title: string)
  {
    exists k :: k in cat && cat[k].title == title
  }

  /** `file_type`: the lower-cased extension of the safe name, without its dot. */
  function FileType(secureName: string): (t: string)
    ensures '.' !in t && '/' !in t
  {
    var ext := Text.Lower(SplitExt(secureName).1);
    if ext == "" then ""
    else
      assert Text.Lower(SplitExt(secureName).1)[1..] == Text.Lower(SplitExt(secureName).1[1..]);
      ext[1..]
  }

  /** The 400 reply for a file that is too large. */
  const TooLarge: Status := Status(400, "文件大小超出限制（最大100MB）")

  /**
   * `upload_courseware`: the checks in order (a file part with a name, an
   * allowed extension, at most `MaxFileSize` bytes, a free title, an
   * existing category when one is given), then a published row owned by
   * the uploader with zero counters.
   */
  function Upload(cat: Catalog, categories: set<nat>, form: UploadForm, user: nat): (r: UploadResult)
    ensures r.Uploaded? <==>
              form.hasFile && form.filename != "" && AllowedFile(form.filename) && form.size <= MaxFileSize
              && !TitleTaken(cat, UploadTitle(form))
              && (Truthy(form.categoryId) ==>
                    Text.ParseInt(form.categoryId.value).Some? && Text.ParseInt(form.categoryId.value).value in categories)
    ensures r.Crashed? <==>
              form.hasFile && form.filename != "" && AllowedFile(form.filename) && form.size <= MaxFileSize
              && !TitleTaken(cat, UploadTitle(form))
              && Truthy(form.categoryId) && Text.ParseInt(form.categoryId.value).None?
    ensures r.Refused? ==> r.status.code == 400
    ensures form.hasFile && form.filename != "" && AllowedFile(form.filename) && form.size > MaxFileSize ==>
              r == Refused(TooLarge)
    ensures r.Uploaded? ==>
              r.item.title == UploadTitle(form) && r.item.title != ""
              && (!Truthy(form.title) ==> r.item.title + SplitExt(form.filename).1 == form.filename)
              && r.item.status == Published && r.item.uploadedBy == Some(user)
              && r.item.viewCount == 0 && r.item.downloadCount == 0
              && r.item.description == Some(form.description.UnwrapOr(""))
              && r.item.tags == Some(form.tags.UnwrapOr(""))
              && r.item.filePath == form.storedPath && r.item.fileType == FileType(form.secureName)
              && (r.item.categoryId.Some? <==> Truthy(form.categoryId))
              && (r.item.categoryId.Some? ==> r.item.categoryId.value in categories)
  {
    if !form.hasFile || form.filename == "" then Refused(Status(400, "请选择要上传的文件"))
    else if !AllowedFile(form.filename) then Refused(Status(400, "不支持的文件类型"))
    else if form.size > MaxFileSize then Refused(TooLarge)
    else
      var title := UploadTitle(form);
      if TitleTaken(cat, title) then Refused(Status(400, "课件标题已存在"))
      else if Truthy(form.categoryId) && Text.ParseInt(form.categoryId.value).None? then Crashed
      else if Truthy(form.categoryId) && Text.ParseInt(form.categoryId.value).value !in categories then
        Refused(Status(400, "课件分类不存在"))
      else
        var category: Option<nat> :=
          if Truthy(form.categoryId) then Some(Text.ParseInt(form.categoryId.value).value as nat) else None;
        Uploaded(Item(title, form.storedPath, FileType(form.secureName), Some(form.description.UnwrapOr("")),
                      Some(form.tags.UnwrapOr("")), None, None, 0, 0, Published, Some(user), category))
  }

  /** The size limit is inclusive: exactly 100 MiB passes, one byte more is refused. */
  lemma SizeLimitInclusive(cat: Catalog, categories: set<nat>, form: UploadForm, user: nat)
    requires Upload(cat, categories, form, user).Uploaded?
    ensures Upload(cat, categories, form.(size := MaxFileSize), user).Uploaded?
    ensures Upload(cat, categories, form.(size := MaxFileSize + 1), user) == Refused(TooLarge)
  {
  }

  /** No two items share a title. */
  predicate UniqueTitles(cat: Catalog)
  {
    forall j, k :: j in cat && k in cat && j != k ==> cat[j].title != cat[k].title
  }

  /** An upload under a fresh id keeps titles unique. */
  lemma UploadKeepsTitlesUnique(cat: Catalog, categories: set<nat>, form: UploadForm, user: nat, id: nat)
    requires UniqueTitles(cat) && id !in cat
    requires Upload(cat, categories, form, user).Uploaded?
    ensures UniqueTitles(cat[id := Upload(cat, categories, form, user).item])
  {
  }

  /** An upload with the same title as an existing item is refused whatever the file. */
  lemma SecondUploadRefused(cat: Catalog, categories: set<nat>, form: UploadForm, user: nat, id: nat,
                            again: UploadForm, other: nat)
    requires Upload(cat, categories, form, user).Uploaded?
    requires UploadTitle(again) == UploadTitle(form)
    ensures !Upload(cat[id := Upload(cat, categories, form, user).item], categories, again, other).Uploaded?
  {
    var cat' := cat[id := Upload(cat, categories, form, user).item];
    assert id in cat' && cat'[id].title == UploadTitle(again);
  }

  // ---------------------------------------------------------------------
  // delete_courseware
  // ---------------------------------------------------------------------

  /** A route's reply and the items after it. */
  datatype Reply = Reply(status: Status, catalog: Catalog)

  /** Only an administrator or the item's uploader may delete it (an unknown uploader matches nobody). */
  predicate MayDelete(user: Schema.User, c: Item)
  {
    user.role == Schema.Admin || c.uploadedBy == Some(user.id)
  }

  /** `delete_courseware`: 404 for an unknown id, 403 without the right, else the item is removed. */
  function Delete(cat: Catalog, user: Schema.User, id: nat): (r: Reply)
    ensures r.status.code == 200 <==> id in cat && MayDelete(user, cat[id])
    ensures r.status.code == 200 ==> r.catalog == cat - {id}
    ensures r.status.code != 200 ==> r.catalog == cat
    ensures id !in cat ==> r.status == Status(404, "课件不存在")
    ensures id in cat && !MayDelete(user, cat[id]) ==> r.status == Status(403, "没有权限删除此课件")
  {
    if id !in cat then Reply(Status(404, "课件不存在"), cat)
    else if user.role != Schema.Admin && cat[id].uploadedBy != Some(user.id) then
      Reply(Status(403, "没有权限删除此课件"), cat)
    else Reply(Status(200, "课件删除成功"), cat - {id})
  }

  /** A non-administrator cannot delete an item whose uploader is unknown. */
  lemma OrphanOnlyByAdmin(cat: Catalog, user: Schema.User, id: nat)
    requires id in cat && cat[id].uploadedBy.None? && user.role != Schema.Admin
    ensures Delete(cat, user, id).status.code == 403
  {
  }

  /** Deleting twice: the second request finds nothing. */
  lemma DeleteTwice(cat: Catalog, user: Schema.User, other: Schema.User, id: nat)
    requires Delete(cat, user, id).status.code == 200
    ensures Delete(Delete(cat, user, id).catalog, other, id).status == Status(404, "课件不存在")
  {
  }

  // ---------------------------------------------------------------------
  // record_courseware_usage
  // ---------------------------------------------------------------------

  /** The JSON body of a usage record; `None` is a key left out. */
  datatype UsageBody = UsageBody(equipmentId: Option<string>, action: Option<string>, duration: Option<int>)

  /** The record saved: 'WEB-CLIENT', 'view' and 0 seconds when left out. */
  function NewUsage(id: nat, user: nat, body: UsageBody, now: int): (u: CoursewareUsages.Usage)
    ensures u.coursewareId == id && u.userId == Some(user) && u.createdAt == now
    ensures u.equipmentId == (if body.equipmentId.Some? then body.equipmentId.value else "WEB-CLIENT")
    ensures u.action == (if body.action.Some? then body.action.value else "view")
    ensures u.duration == Some(if body.duration.Some? then body.duration.value else 0)
  {
    CoursewareUsages.Usage(id, body.equipmentId.UnwrapOr("WEB-CLIENT"), Some(user),
                           body.action.UnwrapOr("view"), Some(body.duration.UnwrapOr(0)), now)
  }

  /** The counters after one record: every action is a view, and a download is also a download. */
  function Recorded(c: Item, action: string): (r: Item)
    ensures r.viewCount == c.viewCount + 1
    ensures r.downloadCount == c.downloadCount + (if action == "download" then 1 else 0)
    ensures r == c.(viewCount := r.viewCount, downloadCount := r.downloadCount)
  {
    c.(viewCount := c.viewCount + 1,
       downloadCount := if action == "download" then c.downloadCount + 1 else c.downloadCount)
  }

  /** The item after a run of records, in order. */
  function RecordedAll(c: Item, rs: seq<CoursewareUsages.Usage>): Item
  {
    if rs == [] then c else Recorded(RecordedAll(c, rs[..|rs| - 1]), rs[|rs| - 1].action)
  }

  /**
   * The counters agree with the usage log: after a run of records the item
   * has one more view per record and one more download per 'download'
   * record, which is what the courseware statistics count.
   */
  lemma {:induction false} CountersMatchLog(c: Item, rs: seq<CoursewareUsages.Usage>)
    ensures RecordedAll(c, rs).viewCount == c.viewCount + |rs|
    ensures RecordedAll(c, rs).downloadCount == c.downloadCount + CoursewareUsages.CountAction(rs, "download")
    ensures RecordedAll(c, rs) == c.(viewCount := RecordedAll(c, rs).viewCount,
                                     downloadCount := RecordedAll(c, rs).downloadCount)
  {
    if rs != [] {
      CountersMatchLog(c, rs[..|rs| - 1]);
    }
  }

  /** `record_courseware_usage`: 404 for an unknown id, else the counters are bumped. */
  function RecordUsage(cat: Catalog, id: nat, action: string): (r: Reply)
    ensures id !in cat ==> r == Reply(Status(404, "课件不存在"), cat)
    ensures id in cat ==> r == Reply(Status(200, "使用记录已保存"), cat[id := Recorded(cat[id], action)])
  {
    if id !in cat then Reply(Status(404, "课件不存在"), cat)
    else Reply(Status(200, "使用记录已保存"), cat[id := Recorded(cat[id], action)])
  }

  // ---------------------------------------------------------------------
  // preview_courseware
  // ---------------------------------------------------------------------

  /** The fallback table, by lower-cased extension. */
  const MimeTypesMap: map<string, string> := map[
    ".pdf" := "application/pdf",
    ".jpg" := "image/jpeg",
    ".jpeg" := "image/jpeg",
    ".png" := "image/png",
    ".gif" := "image/gif",
    ".mp4" := "video/mp4",
    ".mp3" := "audio/mpeg",
    ".ppt" := "application/vnd.ms-powerpoint",
    ".pptx" := "application/vnd.openxmlformats-officedocument.presentationml.presentation",
    ".doc" := "application/msword",
    ".docx" := "application/vnd.openxmlformats-officedocument.wordprocessingml.document"
  ]

  const OctetStream: string := "application/octet-stream"

  /** The types a browser shows inline. */
  const PreviewableTypes: seq<string> := ["application/pdf", "image/jpeg", "image/png", "image/gif",
                                          "video/mp4", "audio/mpeg"]

  /**
   * The preview's MIME type: the guess from the path when it is truthy;
   * otherwise the table entry of the lower-cased extension, or
   * 'application/octet-stream'.
   */
  function PreviewMime(guess: Option<string>, filePath: string): (m: string)
    ensures Truthy(guess) ==> m == guess.value
    ensures !Truthy(guess) ==> (m == OctetStream <==> Text.Lower(SplitExt(filePath).1) !in MimeTypesMap)
    ensures !Truthy(guess) ==> m == OctetStream || m in MimeTypesMap.Values
  {
    if Truthy(guess) then guess.value
    else
      var ext := Text.Lower(SplitExt(filePath).1);
      if ext in MimeTypesMap then MimeTypesMap[ext] else OctetStream
  }

  /** The file is sent for inline display exactly when its type is previewable. */
  predicate Inline(mime: string)
  {
    mime in PreviewableTypes
  }

  /**
   * Without a guess, a file is shown inline exactly when its extension is
   * one of seven media and PDF extensions; office documents and archives
   * get the information reply.
   */
  lemma FallbackInline(filePath: string)
    ensures Inline(PreviewMime(None, filePath)) <==>
              Text.Lower(SplitExt(filePath).1) in {".pdf", ".jpg", ".jpeg", ".png", ".gif", ".mp4", ".mp3"}
  {
  }

  /** Every allowed extension but the two archive formats has an entry in the fallback table. */
  lemma AllowedHaveMime(ext: string)
    requires ext in AllowedExtensions
    ensures ext in MimeTypesMap <==> ext != ".zip" && ext != ".rar"
  {
  }

  /** The preview's reply. */
  datatype PreviewReply =
    | PreviewMissing(status: Status)                     // no such item, or no such file
    | InlineFile(mime: string, downloadName: string)     // `send_file` for inline display
    | PreviewInfo(mime: string, fileName: string, fileType: string)   // the information reply

  /** The reply for an existing item whose file exists. */
  function PreviewOf(c: Item, guess: Option<string>): (r: PreviewReply)
    ensures r.InlineFile? <==> Inline(PreviewMime(guess, c.filePath))
    ensures r.InlineFile? ==> r.downloadName == c.title + "." + c.fileType
    ensures !r.PreviewMissing?
    ensures r.PreviewInfo? ==> r.fileName == c.title && r.fileType == c.fileType
  {
    var mime := PreviewMime(guess, c.filePath);
    if Inline(mime) then InlineFile(mime, c.title + "." + c.fileType)
    else PreviewInfo(mime, c.title, c.fileType)
  }

  // ---------------------------------------------------------------------
  // batch_courseware_operation
  // ---------------------------------------------------------------------

  /** The operations the batch endpoint knows. */
  predicate KnownBatchOp(op: string)
  {
    op in {"delete", "activate", "deactivate", "change_category"}
  }

  /** A JSON category id that is truthy (given and not 0). */
  predicate CategoryGiven(categoryId: Option<int>)
  {
    categoryId.Some? && categoryId.value != 0
  }

  datatype BatchState = BatchState(catalog: Catalog, entries: seq<Batch.Item>)

  /**
   * One id of the batch: a missing item, an unknown operation or an
   * unknown category fails; 'change_category' without a category succeeds
   * and changes nothing.
   */
  function BatchStep(cat: Catalog, categories: set<nat>, id: nat, op: string, categoryId: Option<int>)
    : (r: BatchState)
    ensures |r.entries| == 1 && r.entries[0].id == id
    ensures r.entries[0].ok <==>
              id in cat && KnownBatchOp(op)
              && (op == "change_category" && CategoryGiven(categoryId) ==> categoryId.value in categories)
    ensures !r.entries[0].ok ==> r.catalog == cat
    ensures r.catalog.Keys == if op == "delete" && r.entries[0].ok then cat.Keys - {id} else cat.Keys
    ensures forall k :: k in r.catalog && k != id ==> r.catalog[k] == cat[k]
  {
    if id !in cat then BatchState(cat, [Batch.Item(id, false, "课件不存在")])
    else if op == "delete" then BatchState(cat - {id}, [Batch.Item(id, true, "操作成功")])
    else if op == "activate" then
      BatchState(cat[id := cat[id].(status := Published)], [Batch.Item(id, true, "操作成功")])
    else if op == "deactivate" then
      BatchState(cat[id := cat[id].(status := Archived)], [Batch.Item(id, true, "操作成功")])
    else if op == "change_category" then
      if CategoryGiven(categoryId) then
        if categoryId.value !in categories then BatchState(cat, [Batch.Item(id, false, "分类不存在")])
        else
          BatchState(cat[id := cat[id].(categoryId := Some(categoryId.value as nat))],
                     [Batch.Item(id, true, "操作成功")])
      else BatchState(cat, [Batch.Item(id, true, "操作成功")])
    else BatchState(cat, [Batch.Item(id, false, "不支持的操作")])
  }

  /** The ids in order, each handled by `BatchStep` on the items the earlier ones left. */
  function BatchRun(cat: Catalog, categories: set<nat>, ids: seq<nat>, op: string, categoryId: Option<int>)
    : (r: BatchState)
    ensures |r.entries| == |ids|
    ensures forall j :: 0 <= j < |ids| ==> r.entries[j].id == ids[j]
  {
    if ids == [] then BatchState(cat, [])
    else
      var prev := BatchRun(cat, categories, ids[..|ids| - 1], op, categoryId);
      var s := BatchStep(prev.catalog, categories, ids[|ids| - 1], op, categoryId);
      BatchState(s.catalog, prev.entries + s.entries)
  }

  /** Items whose ids are not listed are neither removed nor changed. */
  lemma {:induction false} BatchKeepsOthers(cat: Catalog, categories: set<nat>, ids: seq<nat>, op: string,
                                            categoryId: Option<int>)
    ensures BatchRun(cat, categories, ids, op, categoryId).catalog.Keys <= cat.Keys
    ensures forall k :: k in cat && k !in ids ==>
              k in BatchRun(cat, categories, ids, op, categoryId).catalog
              && BatchRun(cat, categories, ids, op, categoryId).catalog[k] == cat[k]
  {
    if ids != [] {
      var front := ids[..|ids| - 1];
      BatchKeepsOthers(cat, categories, front, op, categoryId);
      assert forall k :: k in front ==> k in ids;
    }
  }

  /** An unknown operation changes nothing and fails every id. */
  lemma {:induction false} UnknownBatchOp(cat: Catalog, categories: set<nat>, ids: seq<nat>, op: string,
                                          categoryId: Option<int>)
    requires !KnownBatchOp(op)
    ensures BatchRun(cat, categories, ids, op, categoryId).catalog == cat
    ensures Batch.CountOk(BatchRun(cat, categories, ids, op, categoryId).entries) == 0
  {
    if ids != [] {
      UnknownBatchOp(cat, categories, ids[..|ids| - 1], op, categoryId);
      var prev := BatchRun(cat, categories, ids[..|ids| - 1], op, categoryId);
      Batch.CountOkAppend(prev.entries, BatchStep(cat, categories, ids[|ids| - 1], op, categoryId).entries[0]);
    }
  }

  /**
   * 'change_category' without a category changes nothing, yet reports
   * every existing item as a success.
   */
  lemma {:induction false} ChangeCategoryWithoutCategory(cat: Catalog, categories: set<nat>, ids: seq<nat>,
                                                         categoryId: Option<int>)
    requires !CategoryGiven(categoryId)
    ensures BatchRun(cat, categories, ids, "change_category", categoryId).catalog == cat
    ensures forall j :: 0 <= j < |ids| ==>
              (BatchRun(cat, categories, ids, "change_category", categoryId).entries[j].ok <==> ids[j] in cat)
  {
    if ids != [] {
      ChangeCategoryWithoutCategory(cat, categories, ids[..|ids| - 1], categoryId);
    }
  }

  /** After a batch 'deactivate' every listed item that exists is archived. */
  lemma {:induction false} BatchDeactivateArchives(cat: Catalog, categories: set<nat>, ids: seq<nat>,
                                                   categoryId: Option<int>)
    ensures var r := BatchRun(cat, categories, ids, "deactivate", categoryId).catalog;
            forall k :: k in ids && k in r ==> r[k].status == Archived
  {
    if ids != [] {
      var front := ids[..|ids| - 1];
      BatchDeactivateArchives(cat, categories, front, categoryId);
      assert forall k :: k in ids ==> k in front || k == ids[|ids| - 1];
    }
  }

  /** The run over one more id is the run so far followed by that id's step. */
  lemma BatchRunNext(cat: Catalog, categories: set<nat>, ids: seq<nat>, i: nat, op: string, categoryId: Option<int>)
    requires i < |ids|
    ensures var prev := BatchRun(cat, categories, ids[..i], op, categoryId);
            var s := BatchStep(prev.catalog, categories, ids[i], op, categoryId);
            BatchRun(cat, categories, ids[..i + 1], op, categoryId) == BatchState(s.catalog, prev.entries + s.entries)
  {
    var pre := ids[..i + 1];
    assert pre[..|pre| - 1] == ids[..i] && pre[|pre| - 1] == ids[i];
  }

  /** The batch loop's invariant: the first `i` ids handled as `BatchRun` says and counted. */
  ghost predicate BatchSoFar(cat0: Catalog, categories: set<nat>, ids: seq<nat>, op: string, categoryId: Option<int>,
                             i: nat, cat: Catalog, entries: seq<Batch.Item>, success: nat, failed: nat)
  {
    i <= |ids| && BatchRun(cat0, categories, ids[..i], op, categoryId) == BatchState(cat, entries)
    && success == Batch.CountOk(entries) && success + failed == i
  }

  lemma BatchSoFarStep(cat0: Catalog, categories: set<nat>, ids: seq<nat>, op: string, categoryId: Option<int>,
                       i: nat, cat: Catalog, entries: seq<Batch.Item>, success: nat, failed: nat)
    requires i < |ids| && BatchSoFar(cat0, categories, ids, op, categoryId, i, cat, entries, success, failed)
    ensures var s := BatchStep(cat, categories, ids[i], op, categoryId);
            BatchSoFar(cat0, categories, ids, op, categoryId, i + 1, s.catalog, entries + s.entries,
                       success + Batch.Tally(s.entries[0].ok), failed + 1 - Batch.Tally(s.entries[0].ok))
  {
    BatchRunNext(cat0, categories, ids, i, op, categoryId);
    var s := BatchStep(cat, categories, ids[i], op, categoryId);
    assert s.entries == [s.entries[0]];
    Batch.CountOkAppend(entries, s.entries[0]);
  }

  // ---------------------------------------------------------------------
  // The courseware table
  // ---------------------------------------------------------------------

  /** The message prefix of the upload's error reply; the exception's text that follows is not modelled. */
  const UploadFailed: string := "课件上传失败: "

  /** The record the preview saves: a 'view' without a duration. */
  function PreviewUsage(id: nat, user: nat, equipmentId: Option<string>, now: int): (u: CoursewareUsages.Usage)
    ensures u.coursewareId == id && u.userId == Some(user) && u.action == "view" && u.duration.None?
    ensures u.equipmentId == (if equipmentId.Some? then equipmentId.value else "WEB-CLIENT")
  {
    CoursewareUsages.Usage(id, equipmentId.UnwrapOr("WEB-CLIENT"), Some(user), "view", None, now)
  }

  /** The `courseware` table, its next primary key, and the usage records the routes add. */
  class Library {
    var items: map<nat, Courseware>
    var nextId: nat
    var usages: seq<CoursewareUsages.Usage>

    /** Each item is filed under its own id, and every id in use is below the next key. */
    predicate Valid()
      reads this
    {
      forall k :: k in items ==> items[k].id == k && k < nextId
    }

    /** The items' columns, by id. */
    function Snapshot(): Catalog
      reads this`items, items.Values
    {
      map k | k in items :: items[k].Info()
    }

    /** An empty table whose first key is 1. */
    constructor ()
      ensures Valid() && items == map[] && nextId == 1 && usages == []
    {
      items, nextId, usages := map[], 1, [];
    }

    /** `upload_courseware`: the new row takes the next key. */
    method UploadCourseware(categories: set<nat>, form: UploadForm, user: nat) returns (st: Status)
      requires Valid()
      modifies this
      ensures Valid() && usages == old(usages)
      ensures var r := Upload(old(Snapshot()), categories, form, user);
              (r.Refused? ==> st == r.status && Snapshot() == old(Snapshot()))
              && (r.Crashed? ==> st == Status(DefaultErrorCode, UploadFailed) && Snapshot() == old(Snapshot()))
              && (r.Uploaded? ==> st == Status(200, "课件上传成功") && old(nextId) !in old(Snapshot())
                                   && Snapshot() == old(Snapshot())[old(nextId) := r.item])
    {
      if !form.hasFile || form.filename == "" {
        return Status(400, "请选择要上传的文件");
      }
      if !AllowedFile(form.filename) {
        return Status(400, "不支持的文件类型");
      }
      if form.size > MaxFileSize {
        return TooLarge;
      }
      var title := form.title.UnwrapOr("");
      if title == "" {
        title := SplitExt(form.filename).0;
      }
      if TitleTaken(Snapshot(), title) {
        return Status(400, "课件标题已存在");
      }
      var category: Option<nat> := None;
      if Truthy(form.categoryId) {
        var parsed := Text.ParseInt(form.categoryId.value);
        if parsed.None? {
          return Status(DefaultErrorCode, UploadFailed);
        }
        if parsed.value !in categories {
          return Status(400, "课件分类不存在");
        }
        category := Some(parsed.value as nat);
      }
      var item := Item(title, form.storedPath, FileType(form.secureName), Some(form.description.UnwrapOr("")),
                       Some(form.tags.UnwrapOr("")), None, None, 0, 0, Published, Some(user), category);
      AddItem(item);
      st := Status(200, "课件上传成功");
    }

    /** Saves a new row under the next key. */
    method AddItem(item: Item)
      requires Valid()
      modifies this
      ensures Valid() && usages == old(usages) && nextId == old(nextId) + 1
      ensures old(nextId) !in old(items)
      ensures Snapshot() == old(Snapshot())[old(nextId) := item]
    {
      var c := new Courseware(nextId, item);
      items := items[nextId := c];
      nextId := nextId + 1;
      assert Snapshot() == old(Snapshot())[old(nextId) := item];
    }

    /** `delete_courseware`. */
    method DeleteCourseware(user: Schema.User, id: nat) returns (st: Status)
      requires Valid()
      modifies this
      ensures Valid() && nextId == old(nextId) && usages == old(usages)
      ensures Delete(old(Snapshot()), user, id) == Reply(st, Snapshot())
    {
      if id !in items {
        return Status(404, "课件不存在");
      }
      var c := items[id];
      if user.role != Schema.Admin && c.uploadedBy != Some(user.id) {
        return Status(403, "没有权限删除此课件");
      }
      items := items - {id};
      st := Status(200, "课件删除成功");
      assert Snapshot() == old(Snapshot()) - {id};
    }

    /** `record_courseware_usage`: the record is saved, then the counters move. */
    method RecordCoursewareUsage(id: nat, user: nat, body: UsageBody, now: int) returns (st: Status)
      requires Valid()
      modifies this, if id in items then {items[id]} else {}
      ensures Valid() && items == old(items) && nextId == old(nextId)
      ensures RecordUsage(old(Snapshot()), id, body.action.UnwrapOr("view")) == Reply(st, Snapshot())
      ensures usages == if id in old(items) then old(usages) + [NewUsage(id, user, body, now)] else old(usages)
    {
      if id !in items {
        return Status(404, "课件不存在");
      }
      var usage := NewUsage(id, user, body, now);
      usages := usages + [usage];
      CountUse(id, usage.action);
      st := Status(200, "使用记录已保存");
    }

    /** The counter update after a usage record: one more view, and one more download for 'download'. */
    method CountUse(id: nat, action: string)
      requires Valid() && id in items
      modifies items[id]
      ensures Valid() && items == old(items) && nextId == old(nextId) && usages == old(usages)
      ensures Snapshot() == old(Snapshot())[id := Recorded(old(Snapshot())[id], action)]
    {
      ghost var before := Snapshot();
      var c := items[id];
      c.viewCount, c.downloadCount := c.viewCount + 1, c.downloadCount + (if action == "download" then 1 else 0);
      ghost var after := before[id := Recorded(before[id], action)];
      forall k | k in items
        ensures Snapshot()[k] == after[k]
      {
        if k != id {
          assert items[k].id != c.id;
          assert items[k].Info() == old(items[k].Info());
        }
      }
      assert Snapshot().Keys == after.Keys;
    }

    /**
     * `preview_courseware` once the caller is known: a missing item or file
     * is a 404; otherwise a view is recorded and counted, and the file is
     * sent inline or described, after its MIME type.
     */
    method PreviewCourseware(id: nat, user: nat, fileExists: bool, equipmentId: Option<string>,
                             guess: Option<string>, now: int) returns (reply: PreviewReply)
      requires Valid()
      modifies this, if id in items then {items[id]} else {}
      ensures Valid() && items == old(items) && nextId == old(nextId)
      ensures id !in old(items) ==>
                reply == PreviewMissing(Status(404, "课件不存在")) && Snapshot() == old(Snapshot()) && usages == old(usages)
      ensures id in old(items) && !fileExists ==>
                reply == PreviewMissing(Status(404, "文件不存在")) && Snapshot() == old(Snapshot()) && usages == old(usages)
      ensures id in old(items) && fileExists ==>
                Snapshot() == old(Snapshot())[id := Recorded(old(Snapshot())[id], "view")]
                && usages == old(usages) + [PreviewUsage(id, user, equipmentId, now)]
                && reply == PreviewOf(old(Snapshot())[id], guess)
    {
      if id !in items {
        return PreviewMissing(Status(404, "课件不存在"));
      }
      var c := items[id];
      if !fileExists {
        return PreviewMissing(Status(404, "文件不存在"));
      }
      var item := c.Info();
      usages := usages + [PreviewUsage(id, user, equipmentId, now)];
      CountUse(id, "view");
      reply := PreviewOf(item, guess);
    }

    /** The body of the batch loop for one id. */
    method BatchOne(categories: set<nat>, id: nat, op: string, categoryId: Option<int>) returns (e: Batch.Item)
      requires Valid()
      modifies this, items.Values
      ensures Valid() && nextId == old(nextId) && usages == old(usages)
      ensures forall k :: k in items ==> k in old(items) && items[k] == old(items[k])
      ensures BatchStep(old(Snapshot()), categories, id, op, categoryId) == BatchState(Snapshot(), [e])
    {
      if id !in items {
        return Batch.Item(id, false, "课件不存在");
      }
      var c := items[id];
      if op == "delete" {
        items := items - {id};
        assert Snapshot() == old(Snapshot()) - {id};
      } else if op == "activate" {
        c.status := Published;
        assert forall k :: k in items && k != id ==> items[k] != c;
        assert Snapshot() == old(Snapshot())[id := c.Info()];
      } else if op == "deactivate" {
        c.status := Archived;
        assert forall k :: k in items && k != id ==> items[k] != c;
        assert Snapshot() == old(Snapshot())[id := c.Info()];
      } else if op == "change_category" {
        if CategoryGiven(categoryId) {
          if categoryId.value !in categories {
            return Batch.Item(id, false, "分类不存在");
          }
          c.categoryId := Some(categoryId.value as nat);
          assert forall k :: k in items && k != id ==> items[k] != c;
          assert Snapshot() == old(Snapshot())[id := c.Info()];
        }
      } else {
        return Batch.Item(id, false, "不支持的操作");
      }
      e := Batch.Item(id, true, "操作成功");
    }

    /** The batch loop: the ids in order, each handled by `BatchOne` and counted once. */
    method BatchAll(categories: set<nat>, ids: seq<nat>, op: string, categoryId: Option<int>)
      returns (entries: seq<Batch.Item>, success: nat, failed: nat)
      requires Valid()
      modifies this, items.Values
      ensures Valid() && nextId == old(nextId) && usages == old(usages)
      ensures BatchRun(old(Snapshot()), categories, ids, op, categoryId) == BatchState(Snapshot(), entries)
      ensures success == Batch.CountOk(entries) && success + failed == |ids|
    {
      entries, success, failed := [], 0, 0;
      ghost var cat0 := Snapshot();
      var i := 0;
      assert ids[..0] == [];
      while i < |ids|
        invariant 0 <= i <= |ids| && Valid() && nextId == old(nextId) && usages == old(usages)
        invariant forall k :: k in items ==> k in old(items) && items[k] == old(items[k])
        invariant BatchSoFar(cat0, categories, ids, op, categoryId, i, Snapshot(), entries, success, failed)
      {
        entries, success, failed := BatchNext(cat0, categories, ids, op, categoryId, i, entries, success, failed);
        i := i + 1;
      }
      assert ids[..i] == ids;
    }

    /** One turn of the batch loop: the next id handled, its entry counted. */
    method BatchNext(ghost cat0: Catalog, categories: set<nat>, ids: seq<nat>, op: string, categoryId: Option<int>,
                     i: nat, entries0: seq<Batch.Item>, success0: nat, failed0: nat)
      returns (entries: seq<Batch.Item>, success: nat, failed: nat)
      requires Valid() && i < |ids|
      requires BatchSoFar(cat0, categories, ids, op, categoryId, i, Snapshot(), entries0, success0, failed0)
      modifies this, items.Values
      ensures Valid() && nextId == old(nextId) && usages == old(usages)
      ensures forall k :: k in items ==> k in old(items) && items[k] == old(items[k])
      ensures BatchSoFar(cat0, categories, ids, op, categoryId, i + 1, Snapshot(), entries, success, failed)
    {
      BatchSoFarStep(cat0, categories, ids, op, categoryId, i, Snapshot(), entries0, success0, failed0);
      var e := BatchOne(categories, ids[i], op, categoryId);
      entries, success, failed := entries0 + [e], success0 + Batch.Tally(e.ok), failed0 + 1 - Batch.Tally(e.ok);
    }

    /**
     * `batch_courseware_operation`: an empty id list or operation is a 400
     * that changes nothing; otherwise the ids are handled in order as
     * `BatchRun` says, each counted once.
     */
    method BatchCoursewareOperation(categories: set<nat>, ids: seq<nat>, op: string, categoryId: Option<int>)
      returns (st: Status, entries: seq<Batch.Item>, success: nat, failed: nat)
      requires Valid()
      modifies this, items.Values
      ensures Valid() && nextId == old(nextId) && usages == old(usages)
      ensures ids == [] || op == "" ==>
                st == Status(400, "课件ID列表和操作类型不能为空") && entries == [] && Snapshot() == old(Snapshot())
      ensures ids != [] && op != "" ==>
                BatchRun(old(Snapshot()), categories, ids, op, categoryId) == BatchState(Snapshot(), entries)
                && success == Batch.CountOk(entries) && success + failed == |ids|
                && st == Status(200, Batch.Summary(success, failed))
    {
      if ids == [] || op == "" {
        return Status(400, "课件ID列表和操作类型不能为空"), [], 0, 0;
      }
      entries, success, failed := BatchAll(categories, ids, op, categoryId);
      st := Status(200, Batch.Summary(success, failed));
    }

    /**
     * `batch_courseware_operation` as written: its log call passes
     * `action_type`, which `create_log` does not declare, so once the ids
     * are handled the reply is a 500 without the per-id results.
     */
    method BatchCoursewareOperationAsWritten(categories: set<nat>, ids: seq<nat>, op: string, categoryId: Option<int>)
      returns (st: Status)
      requires Valid()
      modifies this, items.Values
      ensures Valid() && nextId == old(nextId) && usages == old(usages)
      ensures ids == [] || op == "" ==>
                st == Status(400, "课件ID列表和操作类型不能为空") && Snapshot() == old(Snapshot())
      ensures ids != [] && op != "" ==>
                Snapshot() == BatchRun(old(Snapshot()), categories, ids, op, categoryId).catalog
                && st == Status(500, "批量操作失败: " + OperationLogs.Refusal)
    {
      var entries, success, failed;
      st, entries, success, failed := BatchCoursewareOperation(categories, ids, op, categoryId);
      if st.code == 200 {
        OperationLogs.RouteCallsRefused(st, "批量操作失败: ");
        st := OperationLogs.AfterLog(st, OperationLogs.BatchKeywords, "批量操作失败: ");
      }
    }
  }
}
