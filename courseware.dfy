/**
 * A courseware item (backend/app/models/courseware.py): its tag list, view
 * and download counters, publishing state and partial update. Saving is
 * the caller's commit and is not modelled.
 */
module Coursewares {
  import opened Wrappers
  import opened Content
  import Text

  /** The columns of a courseware row that its methods and handlers read or change. */
  datatype Item = Item(
    title: string,
    filePath: string,
    fileType: string,
    description: Option<string>,
    tags: Option<string>,
    subject: Option<string>,
    gradeLevel: Option<string>,
    viewCount: nat,
    downloadCount: nat,
    status: PublishStatus,
    uploadedBy: Option<nat>,
    categoryId: Option<nat>)

  /** The arguments of `update_info`; `None` is an argument left out. */
  datatype ItemEdit = ItemEdit(
    title: Option<string>,
    description: Option<string>,
    tags: Option<seq<string>>,
    subject: Option<string>,
    gradeLevel: Option<string>)

  /**
   * `update_info`: title, subject and grade level change only when truthy;
   * description and tags only when given. Counters, status, uploader and
   * category never change.
   */
  function ItemUpdated(c: Item, u: ItemEdit): (r: Item)
    ensures Truthy(u.title) ==> r.title == u.title.value
    ensures !Truthy(u.title) ==> r.title == c.title
    ensures r.description == (if u.description.Some? then u.description else c.description)
    ensures u.tags.None? ==> r.tags == c.tags
    ensures u.tags.Some? ==> r.tags == JoinTags(u.tags.value)
    ensures Truthy(u.subject) ==> r.subject == u.subject
    ensures !Truthy(u.subject) ==> r.subject == c.subject
    ensures Truthy(u.gradeLevel) ==> r.gradeLevel == u.gradeLevel
    ensures !Truthy(u.gradeLevel) ==> r.gradeLevel == c.gradeLevel
    ensures r.viewCount == c.viewCount && r.downloadCount == c.downloadCount && r.status == c.status
    ensures r.uploadedBy == c.uploadedBy && r.categoryId == c.categoryId
    ensures r.filePath == c.filePath && r.fileType == c.fileType
  {
    c.(title := IfTruthy(u.title, c.title),
       description := if u.description.Some? then u.description else c.description,
       tags := if u.tags.Some? then JoinTags(u.tags.value) else c.tags,
       subject := IfTruthyNullable(u.subject, c.subject),
       gradeLevel := IfTruthyNullable(u.gradeLevel, c.gradeLevel))
  }

  /** An edit whose texts are all falsy and whose optional fields are all left out changes nothing. */
  lemma ItemNoopEdit(c: Item, u: ItemEdit)
    requires !Truthy(u.title) && !Truthy(u.subject) && !Truthy(u.gradeLevel)
    requires u.description.None? && u.tags.None?
    ensures ItemUpdated(c, u) == c
  {
  }

  /** Applying the same edit twice is applying it once. */
  lemma ItemEditIdempotent(c: Item, u: ItemEdit)
    ensures ItemUpdated(ItemUpdated(c, u), u) == ItemUpdated(c, u)
  {
  }

  /** Tags given to `update_info` read back as given (clean, and not the lone empty tag). */
  lemma ItemEditTags(c: Item, u: ItemEdit)
    requires u.tags.Some? && CleanTags(u.tags.value) && u.tags.value != [""]
    ensures TagsList(ItemUpdated(c, u).tags) == u.tags.value
  {
    TagsRoundTrip(u.tags.value);
  }

  class Courseware {
    const id: nat
    var title: string
    var filePath: string
    var fileType: string
    var description: Option<string>
    var tags: Option<string>
    var subject: Option<string>
    var gradeLevel: Option<string>
    var viewCount: nat
    var downloadCount: nat
    var status: PublishStatus
    var uploadedBy: Option<nat>
    var categoryId: Option<nat>

    /** The changeable columns as a value. */
    function Info(): Item
      reads this
    {
      Item(title, filePath, fileType, description, tags, subject, gradeLevel, viewCount, downloadCount, status, uploadedBy, categoryId)
    }

    /** A new row with the given columns. */
    constructor (id: nat, init: Item)
      ensures this.id == id && Info() == init
    {
      this.id := id;
      title := init.title;
      filePath := init.filePath;
      fileType := init.fileType;
      description := init.description;
      tags := init.tags;
      subject := init.subject;
      gradeLevel := init.gradeLevel;
      viewCount := init.viewCount;
      downloadCount := init.downloadCount;
      status := init.status;
      uploadedBy := init.uploadedBy;
      categoryId := init.categoryId;
    }

    /** `get_tags_list`. */
    function GetTagsList(): (r: seq<string>)
      reads this
      ensures CleanTags(r)
      ensures tags.None? ==> r == []
    {
      TagsList(tags)
    }

    /** `set_tags`: clean tags other than the lone empty tag read back as given. */
    method SetTags(l: seq<string>)
      modifies this
      ensures Info() == old(Info()).(tags := JoinTags(l))
      ensures CleanTags(l) && l != [""] ==> GetTagsList() == l
    {
      tags := if l != [] then Some(Text.Join(l, ',')) else None;
      if CleanTags(l) && l != [""] {
        TagsRoundTrip(l);
      }
    }

    /** `increment_view_count`: exactly one more view. */
    method IncrementViewCount()
      modifies this
      ensures Info() == old(Info()).(viewCount := old(viewCount) + 1)
    {
      viewCount := viewCount + 1;
    }

    /** `increment_download_count`: exactly one more download. */
    method IncrementDownloadCount()
      modifies this
      ensures Info() == old(Info()).(downloadCount := old(downloadCount) + 1)
    {
      downloadCount := downloadCount + 1;
    }

    /** `publish`. */
    method Publish()
      modifies this
      ensures Info() == old(Info()).(status := Published)
    {
      status := Published;
    }

    /** `archive`. */
    method Archive()
      modifies this
      ensures Info() == old(Info()).(status := Archived)
    {
      status := Archived;
    }

    /** `update_info`. */
    method UpdateInfo(u: ItemEdit)
      modifies this
      ensures Info() == ItemUpdated(old(Info()), u)
    {
      if Truthy(u.title) {
        title := u.title.value;
      }
      if u.description.Some? {
        description := u.description;
      }
      if u.tags.Some? {
        SetTags(u.tags.value);
      }
      if Truthy(u.subject) {
        subject := u.subject;
      }
      if Truthy(u.gradeLevel) {
        gradeLevel := u.gradeLevel;
      }
    }
  }
}
