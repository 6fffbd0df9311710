/**
 * What the three content models (courseware, prompt templates, knowledge
 * base entries) share: the comma-separated tag column with its
 * `get_tags_list` / `set_tags` pair, the draft/published/archived status,
 * and the partial-update rules of `update_info` (a text is applied when
 * truthy, an optional field when not None).
 */
module Content {
  import opened Wrappers
  import Text

  /** The `status` enum of the three tables. */
  datatype PublishStatus = Draft | Published | Archived

  function StatusName(s: PublishStatus): string
  {
    match s
    case Draft => "draft"
    case Published => "published"
    case Archived => "archived"
  }

  /** Python truthiness of an optional text: present and not empty. */
  predicate Truthy(v: Option<string>)
  {
    v.Some? && v.value != ""
  }

  /** `if v: field = v` on a text column. */
  function IfTruthy(v: Option<string>, current: string): (r: string)
    ensures Truthy(v) ==> r == v.value
    ensures !Truthy(v) ==> r == current
  {
    if Truthy(v) then v.value else current
  }

  /** `if v: field = v` on a nullable text column. */
  function IfTruthyNullable(v: Option<string>, current: Option<string>): (r: Option<string>)
    ensures Truthy(v) ==> r == v
    ensures !Truthy(v) ==> r == current
  {
    if Truthy(v) then v else current
  }

  /** `if v: field = v` on a user id column: id 0 is falsy too. */
  function IfTruthyId(v: Option<nat>, current: Option<nat>): (r: Option<nat>)
    ensures v.Some? && v.value != 0 ==> r == v
    ensures v.None? || v.value == 0 ==> r == current
  {
    if v.Some? && v.value != 0 then v else current
  }

  /** Tags that survive storage unchanged: no comma, no surrounding whitespace. */
  predicate CleanTags(l: seq<string>)
  {
    forall i :: 0 <= i < |l| ==> ',' !in l[i] && Text.IsStripped(l[i])
  }

  /**
   * `get_tags_list`: nothing for NULL or '', else one stripped tag per
   * comma-separated piece. The result is always clean.
   */
  function TagsList(tags: Option<string>): (r: seq<string>)
    ensures tags.None? || tags == Some("") ==> r == []
    ensures tags.Some? && tags.value != "" ==> |r| == |Text.Split(tags.value, ',')| >= 1
    ensures CleanTags(r)
  {
    if tags.None? || tags.value == "" then []
    else
      var parts := Text.Split(tags.value, ',');
      forall i | 0 <= i < |parts|
        ensures ',' !in Text.Strip(parts[i])
      {
        Text.StripKeepsAbsent(parts[i], ',');
      }
      seq(|parts|, i requires 0 <= i < |parts| => Text.Strip(parts[i]))
  }

  /** `set_tags`: the comma-joined list, or NULL for an empty list. */
  function JoinTags(l: seq<string>): (r: Option<string>)
    ensures r.None? <==> l == []
    ensures r.Some? ==> r.value == Text.Join(l, ',')
  {
    if l == [] then None else Some(Text.Join(l, ','))
  }

  /** Only the single empty tag joins to the empty text. */
  lemma JoinEmpty(l: seq<string>)
    requires l != []
    ensures Text.Join(l, ',') == "" <==> l == [""]
  {
    if |l| > 1 {
      var s := Text.Join(l, ',');
      assert s == l[0] + [','] + Text.Join(l[1..], ',');
      assert s[|l[0]|] == ',';
    }
  }

  /**
   * Clean tags other than the lone empty tag read back exactly as they
   * were stored, and the empty list reads back as empty through NULL.
   */
  lemma TagsRoundTrip(l: seq<string>)
    requires CleanTags(l) && l != [""]
    ensures TagsList(JoinTags(l)) == l
  {
    if l != [] {
      JoinEmpty(l);
      Text.SplitJoin(l, ',');
      var r := TagsList(JoinTags(l));
      forall i | 0 <= i < |l|
        ensures r[i] == l[i]
      {
        Text.StripStripped(l[i]);
      }
    }
  }

  /** The lone empty tag is stored as '' and reads back as no tags at all. */
  lemma EmptyTagLost()
    ensures JoinTags([""]) == Some("")
    ensures TagsList(JoinTags([""])) == []
  {
  }

  /** Storing what was read back changes nothing, unless the reading is the lone empty tag. */
  lemma TagsListStable(tags: Option<string>)
    requires TagsList(tags) != [""]
    ensures TagsList(JoinTags(TagsList(tags))) == TagsList(tags)
  {
    TagsRoundTrip(TagsList(tags));
  }

  /**
   * The columns of a prompt template or a knowledge base entry that their
   * methods change (the two tables share these columns and methods).
   */
  datatype Entry = Entry(
    title: string,
    content: string,
    description: Option<string>,
    category: Option<string>,
    tags: Option<string>,
    viewCount: nat,
    usageCount: nat,
    status: PublishStatus,
    updatedBy: Option<nat>)

  /** The arguments of their `update_info`; `None` is an argument left out. */
  datatype EntryEdit = EntryEdit(
    title: Option<string>,
    content: Option<string>,
    description: Option<string>,
    category: Option<string>,
    tags: Option<seq<string>>,
    updatedBy: Option<nat>)

  /**
   * `update_info`: title, content, category and updated_by change only when
   * truthy; description and tags only when given. The counters and the
   * status never change.
   */
  function EntryUpdated(e: Entry, u: EntryEdit): (r: Entry)
    ensures Truthy(u.title) ==> r.title == u.title.value
    ensures !Truthy(u.title) ==> r.title == e.title
    ensures Truthy(u.content) ==> r.content == u.content.value
    ensures !Truthy(u.content) ==> r.content == e.content
    ensures r.description == (if u.description.Some? then u.description else e.description)
    ensures Truthy(u.category) ==> r.category == u.category
    ensures !Truthy(u.category) ==> r.category == e.category
    ensures u.tags.None? ==> r.tags == e.tags
    ensures u.tags.Some? ==> r.tags == JoinTags(u.tags.value)
    ensures u.updatedBy.Some? && u.updatedBy.value != 0 ==> r.updatedBy == u.updatedBy
    ensures u.updatedBy.None? || u.updatedBy.value == 0 ==> r.updatedBy == e.updatedBy
    ensures r.viewCount == e.viewCount && r.usageCount == e.usageCount && r.status == e.status
  {
    e.(title := IfTruthy(u.title, e.title),
       content := IfTruthy(u.content, e.content),
       description := if u.description.Some? then u.description else e.description,
       category := IfTruthyNullable(u.category, e.category),
       tags := if u.tags.Some? then JoinTags(u.tags.value) else e.tags,
       updatedBy := IfTruthyId(u.updatedBy, e.updatedBy))
  }

  /** An edit whose texts are all falsy and whose optional fields are all left out changes nothing. */
  lemma EntryNoopEdit(e: Entry, u: EntryEdit)
    requires !Truthy(u.title) && !Truthy(u.content) && !Truthy(u.category)
    requires u.description.None? && u.tags.None? && (u.updatedBy.None? || u.updatedBy.value == 0)
    ensures EntryUpdated(e, u) == e
  {
  }

  /** Applying the same edit twice is applying it once. */
  lemma EntryEditIdempotent(e: Entry, u: EntryEdit)
    ensures EntryUpdated(EntryUpdated(e, u), u) == EntryUpdated(e, u)
  {
  }

  /** Tags given to `update_info` read back as given (clean, and not the lone empty tag). */
  lemma EntryEditTags(e: Entry, u: EntryEdit)
    requires u.tags.Some? && CleanTags(u.tags.value) && u.tags.value != [""]
    ensures TagsList(EntryUpdated(e, u).tags) == u.tags.value
  {
    TagsRoundTrip(u.tags.value);
  }
}
