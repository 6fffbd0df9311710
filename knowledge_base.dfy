/**
 * A knowledge base entry (backend/app/models/knowledge_base.py): its tag
 * list, view and usage counters, publishing state and partial update.
 * Saving is the caller's commit and is not modelled.
 */
module KnowledgeBases {
  import opened Wrappers
  import opened Content
  import Text

  class KnowledgeBase {
    const id: nat
    var title: string
    var content: string
    var description: Option<string>
    var category: Option<string>
    var tags: Option<string>
    var viewCount: nat
    var usageCount: nat
    var status: PublishStatus
    var updatedBy: Option<nat>

    /** The changeable columns as a value. */
    function Info(): Entry
      reads this
    {
      Entry(title, content, description, category, tags, viewCount, usageCount, status, updatedBy)
    }

    /** A new row with the given columns. */
    constructor (id: nat, init: Entry)
      ensures this.id == id && Info() == init
    {
      this.id := id;
      title := init.title;
      content := init.content;
      description := init.description;
      category := init.category;
      tags := init.tags;
      viewCount := init.viewCount;
      usageCount := init.usageCount;
      status := init.status;
      updatedBy := init.updatedBy;
    }

    /** `get_tags_list`. */
    function GetTagsList(): (r: seq<string>)
      reads this
      ensures CleanTags(r)
      ensures tags.None? ==> r == []
    {
      TagsList(tags)
    }

    /** `set_tags`: clean tags other than the lone empty tag read back as given. */
    method SetTags(l: seq<string>)
      modifies this
      ensures Info() == old(Info()).(tags := JoinTags(l))
      ensures CleanTags(l) && l != [""] ==> GetTagsList() == l
    {
      tags := if l != [] then Some(Text.Join(l, ',')) else None;
      if CleanTags(l) && l != [""] {
        TagsRoundTrip(l);
      }
    }

    /** `increment_view_count`: exactly one more view. */
    method IncrementViewCount()
      modifies this
      ensures Info() == old(Info()).(viewCount := old(viewCount) + 1)
    {
      viewCount := viewCount + 1;
    }

    /** `increment_usage_count`: exactly one more use. */
    method IncrementUsageCount()
      modifies this
      ensures Info() == old(Info()).(usageCount := old(usageCount) + 1)
    {
      usageCount := usageCount + 1;
    }

    /** `publish`. */
    method Publish()
      modifies this
      ensures Info() == old(Info()).(status := Published)
    {
      status := Published;
    }

    /** `archive`. */
    method Archive()
      modifies this
      ensures Info() == old(Info()).(status := Archived)
    {
      status := Archived;
    }

    /** `update_info`. */
    method UpdateInfo(u: EntryEdit)
      modifies this
      ensures Info() == EntryUpdated(old(Info()), u)
    {
      if Truthy(u.title) {
        title := u.title.value;
      }
      if Truthy(u.content) {
        content := u.content.value;
      }
      if u.description.Some? {
        description := u.description;
      }
      if Truthy(u.category) {
        category := u.category;
      }
      if u.tags.Some? {
        SetTags(u.tags.value);
      }
      if u.updatedBy.Some? && u.updatedBy.value != 0 {
        updatedBy := u.updatedBy;
      }
    }
  }
}
