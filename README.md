# Robot management backend: a verified model of its rules

Robot-Management is a Flask and SQLAlchemy service for running teaching and
guide robots. It has a Vue front end. This project is a Dafny model of the
service's decision logic, with proofs of what that logic promises.

The model covers:

- **Access control.** Users, roles, permissions and their join table. The
  two-tier permission lookup of `User.get_permissions`. The self-referential
  menu tree and the per-user menu filter.
- **Guarded routes.** The menu, role, permission and user routes that refuse
  to change system rows or rows that are still referenced.
- **Sessions.** The session registry: creation with a lifetime, liveness,
  invalidation, cleanup, and the JSON data field.
- **The request gate.** The three authorisation decorators and the token
  check. The login, logout, registration and session routes.
- **Front-end rules.** The browser-side copies of the permission rules and
  the router guard.
- **Seeding.** The script that seeds roles, permissions and menus, and that
  seeding it twice changes nothing.
- **Smaller rules:**
  - navigation points kept in a dense order 1..n;
  - the unique-name loop for imported education settings;
  - courseware upload validation and usage counters;
  - the equipment state machine, health score and batch import;
  - dashboard counters and rates;
  - the usage-statistics folds;
  - tag strings;
  - typed system settings;
  - dotted-path configuration lookup;
  - the `Result` reply envelope.

How the model is built:

- Database tables are sequences of rows in query order, and lookups scan
  for the first match.
- The RBAC tables share one mutable `Schema.Db` object. A route that writes
  to them is a method that `modifies` it.
- A model object whose methods update its own fields becomes a class: the
  device, the courseware item, the prompt template, the knowledge-base
  entry, the category, the dashboard row and the settings table.
- The navigation, education, courseware and equipment routes each keep
  their tables in a store class.
- A pure rule is a function. Every loop of the source is a method with
  invariants, proved against a function that specifies it.

The clock, password hashing, JWT signing and decoding, and the file system
are never called. Wherever the source asks one of them, the answer is a
parameter: the current time `now`, the outcome of a password check or of a
token decode, a file's size and MIME type, a new id.

Each module is named after the source file it models:

- `Users`, `Roles`, `Permissions`, `Menus`, `Sessions`;
- `Gate` for `auth.py`;
- `AuthRoutes`, `UserRoutes`, `MenuRoutes`, `RoleRoutes`, `PermissionRoutes`;
- `Seed` for `init_rbac.py`;
- `FrontMenu`, `FrontPermission`, `RouterGuard`;
- `NavigationRoutes`, `EducationRoutes`, `CoursewareRoutes`, `EquipmentRoutes`;
- `Devices` for `equipment.py`;
- `Dashboard`, `CoursewareUsages`, `Coursewares`, `PromptTemplates`, `KnowledgeBases`, `Categories`;
- `Settings`, `Config`, `ResultEnvelope`.

Shared helpers live in `Wrappers`, `Seqs`, `Text`, `Forest`, `Batch`, `Counts`,
`Schema`, `Json`, `Content` and `SettingsTarget`.

## Model

| member | source | states |
|---|---|---|
| ResultEnvelope.Make | backend/app/models/result.py:4-13 | the reply carries the given code and message; a missing payload becomes `{}`, any other is kept |
| ResultEnvelope.Success | backend/app/models/result.py:25-30 | code 200 with the given message; payload `{}` when none is given |
| ResultEnvelope.Error | backend/app/models/result.py:32-37 | the given code and message; payload `{}` when none is given |
| ResultEnvelope.Unauthorized | backend/app/models/result.py:39-44 | code 401 with the given message |
| ResultEnvelope.Forbidden | backend/app/models/result.py:46-51 | code 403 with the given message |
| ResultEnvelope.NotFound | backend/app/models/result.py:53-58 | code 404 with the given message |
| ResultEnvelope.ToDict | backend/app/models/result.py:15-23 | the dict has exactly the keys code, message and data |
| ResultEnvelope.ToDictRoundTrip | backend/app/models/result.py:15-23 | the dict form loses nothing: reading it back gives the same envelope |
| ResultEnvelope.ErrorDefaults | backend/app/models/result.py:32-37 | `Result.error()` with its defaults is code 500, message "error", payload `{}` |
| Config.GetByPath | backend/app/utils/config.py:15-25 | the loop over the dotted keys returns what the recursive walk `Walk` over those keys returns |
| Config.WalkFoundOrDefault | backend/app/utils/config.py:15-25 | the walk gives the target value when every key is found, and the default as soon as a key is missing or a value on the way is not a dict |
| Config.DefaultIrrelevantWhenFound | backend/app/utils/config.py:15-25 | when the whole path is found, the default never changes the result |
| Config.SingleKey | backend/app/utils/config.py:15-25 | a dot-free key present in a dict reads that entry |
| Config.SingleKeyMissing | backend/app/utils/config.py:15-25 | a dot-free key absent from the dict, or a non-dict, gives the default |
| Config.Descend | backend/app/utils/config.py:15-25 | the path `a.rest` reads `rest` inside `d['a']` when `a` is present |
| Content.IfTruthy | backend/app/models/courseware.py:145-146 | `if v: field = v`: the new text when truthy, else the old one |
| Content.IfTruthyNullable | backend/app/models/courseware.py:151-154 | the same rule on a nullable column |
| Content.IfTruthyId | backend/app/models/prompt_template.py:162-176 | the same rule on a user id, where id 0 is falsy |
| Content.TagsList | backend/app/models/courseware.py:115-117 | NULL and '' read as no tags; otherwise one stripped tag per comma-separated piece, and every tag is clean (no comma, no outer whitespace) |
| Content.JoinTags | backend/app/models/courseware.py:119-121 | an empty list stores NULL; otherwise the comma-joined text |
| Content.JoinEmpty | backend/app/models/courseware.py:119-121 | a non-empty list joins to '' exactly when it is the single empty tag |
| Content.TagsRoundTrip | backend/app/models/courseware.py:115-121 | clean tags other than the lone empty tag read back exactly as stored |
| Content.EmptyTagLost | backend/app/models/courseware.py:115-121 | the lone empty tag is stored as '' and reads back as no tags |
| Content.TagsListStable | backend/app/models/courseware.py:115-121 | storing what was read back and reading again gives the same tags, unless the reading is the lone empty tag |
| Content.EntryUpdated | backend/app/models/prompt_template.py:162-176 | title, content, category and updated_by change only when truthy; description and tags change only when given; counters and status never change |
| Content.EntryNoopEdit | backend/app/models/prompt_template.py:162-176 | an edit with only falsy texts and absent optional fields changes nothing |
| Content.EntryEditIdempotent | backend/app/models/prompt_template.py:162-176 | applying the same edit twice is applying it once |
| Content.EntryEditTags | backend/app/models/prompt_template.py:162-176 | tags given to the edit read back as given |
| Coursewares.ItemUpdated | backend/app/models/courseware.py:143-155 | title, subject and grade level change only when truthy; description and tags change only when given; counters, status, uploader, category and file never change |
| Coursewares.ItemNoopEdit | backend/app/models/courseware.py:143-155 | an edit with only falsy texts and absent optional fields changes nothing |
| Coursewares.ItemEditIdempotent | backend/app/models/courseware.py:143-155 | applying the same edit twice is applying it once |
| Coursewares.ItemEditTags | backend/app/models/courseware.py:143-155 | tags given to `update_info` read back as given |
| Coursewares.Courseware.GetTagsList | backend/app/models/courseware.py:115-117 | the tags read are clean, and NULL reads as no tags |
| Coursewares.Courseware.SetTags | backend/app/models/courseware.py:119-121 | only the tags column changes; clean tags other than the lone empty tag read back as given |
| Coursewares.Courseware.IncrementViewCount | backend/app/models/courseware.py:123-126 | exactly one more view, nothing else changes |
| Coursewares.Courseware.IncrementDownloadCount | backend/app/models/courseware.py:128-131 | exactly one more download, nothing else changes |
| Coursewares.Courseware.Publish | backend/app/models/courseware.py:133-136 | the status becomes published, nothing else changes |
| Coursewares.Courseware.Archive | backend/app/models/courseware.py:138-141 | the status becomes archived, nothing else changes |
| Coursewares.Courseware.UpdateInfo | backend/app/models/courseware.py:143-155 | the row becomes `ItemUpdated` of the old row |
| PromptTemplates.PromptTemplate.GetTagsList | backend/app/models/prompt_template.py:134-136 | the tags read are clean, and NULL reads as no tags |
| PromptTemplates.PromptTemplate.SetTags | backend/app/models/prompt_template.py:138-140 | only the tags column changes; clean tags other than the lone empty tag read back as given |
| PromptTemplates.PromptTemplate.IncrementViewCount | backend/app/models/prompt_template.py:142-145 | exactly one more view, nothing else changes |
| PromptTemplates.PromptTemplate.IncrementUsageCount | backend/app/models/prompt_template.py:147-150 | exactly one more use, nothing else changes |
| PromptTemplates.PromptTemplate.Publish | backend/app/models/prompt_template.py:152-155 | the status becomes published, nothing else changes |
| PromptTemplates.PromptTemplate.Archive | backend/app/models/prompt_template.py:157-160 | the status becomes archived, nothing else changes |
| PromptTemplates.PromptTemplate.UpdateInfo | backend/app/models/prompt_template.py:162-176 | the row becomes `EntryUpdated` of the old row |
| KnowledgeBases.KnowledgeBase.GetTagsList | backend/app/models/knowledge_base.py:121-123 | the tags read are clean, and NULL reads as no tags |
| KnowledgeBases.KnowledgeBase.SetTags | backend/app/models/knowledge_base.py:125-127 | only the tags column changes; clean tags other than the lone empty tag read back as given |
| KnowledgeBases.KnowledgeBase.IncrementViewCount | backend/app/models/knowledge_base.py:129-132 | exactly one more view, nothing else changes |
| KnowledgeBases.KnowledgeBase.IncrementUsageCount | backend/app/models/knowledge_base.py:134-137 | exactly one more use, nothing else changes |
| KnowledgeBases.KnowledgeBase.Publish | backend/app/models/knowledge_base.py:139-142 | the status becomes published, nothing else changes |
| KnowledgeBases.KnowledgeBase.Archive | backend/app/models/knowledge_base.py:144-147 | the status becomes archived, nothing else changes |
| KnowledgeBases.KnowledgeBase.UpdateInfo | backend/app/models/knowledge_base.py:149-163 | the row becomes `EntryUpdated` of the old row |
| Forest.IndexOf | backend/app/models/menu.py:28 | the row found has the asked id, and nothing is found exactly when no row has that id |
| Forest.Up | backend/app/models/menu.py:159-165 | a walk up the parent links that finishes lists no more ids than the steps it was allowed |
| Forest.UpMono | backend/app/models/menu.py:159-165 | once a walk up finishes, more steps never change what it lists |
| Forest.UpNoDup | backend/app/models/menu.py:159-165 | a finished walk up never repeats an id and visits only existing rows |
| Forest.Finish | backend/app/models/menu.py:159-165 | a walk up that finishes at all finishes within as many steps as the table has rows |
| Forest.AcyclicAll | backend/app/models/menu.py:159-165 | on an acyclic table every walk up finishes |
| Forest.Ancestors | backend/app/models/menu.py:159-165 | the ancestor chain is never longer than the table |
| Forest.AncestorsEnd | backend/app/models/menu.py:160-161 | a row without parent, or with a parent id naming no row, has an empty chain |
| Forest.AncestorsStep | backend/app/models/menu.py:162-164 | the chain from a parent is the parent followed by the parent's own chain |
| Forest.AncestorsSuffix | backend/app/models/menu.py:159-165 | the chain above any ancestor is a suffix of the chain |
| Forest.NotOwnAncestor | backend/app/models/menu.py:159-165 | on an acyclic table with a unique key no row is on its own parent path |
| Forest.Depth | backend/app/models/menu.py:137-144 | the level of a row is at most the number of rows |
| Forest.ChildDepth | backend/app/models/menu.py:137-144 | a row with an existing parent sits one level below it |
| Forest.Children | backend/app/models/menu.py:28 | `children` holds exactly the ids of the rows whose parent is the given row |
| Forest.ChildrenEmpty | backend/app/models/menu.py:167-169 | a row has no children exactly when no row names it as parent |
| Forest.DescendantsOfMember | backend/app/models/menu.py:151-157 | an id is in the walk over a list of children exactly when it is one of them or below one |
| Forest.DescendantsSound | backend/app/models/menu.py:151-157 | everything `get_all_children` returns has the row on its parent path |
| Forest.DescendantsComplete | backend/app/models/menu.py:151-157 | every row that has the row on its parent path is returned by `get_all_children` |
| Forest.DescendantsNoDup | backend/app/models/menu.py:151-157 | `get_all_children` lists each descendant once and never the row itself |
| Forest.ChildrenNoDup | backend/app/models/menu.py:28 | a row's children list no id twice when the key is unique |
| Forest.ChildNotAbove | backend/app/models/menu.py:159-165 | a child is never on its parent's parent path |
| Forest.BelowChild | backend/app/models/menu.py:151-157 | what lies below a child of a row lies below the row |
| Forest.ChildOfDescendant | backend/app/models/menu.py:151-157 | a child of a descendant is a descendant |
| Forest.ChildOnChain | backend/app/models/menu.py:159-165 | a row at or below a child of `id` has that child on its parent path just above where the path of `id` begins |
| Forest.SiblingsDisjoint | backend/app/models/courseware_category.py:89-95 | the subtrees below two distinct children of one row share no row |
| Forest.NotOwnDescendant | backend/app/models/courseware_category.py:89-95 | a row is never among its own descendants |
| Forest.DescendantsOfNoDup | backend/app/models/courseware_category.py:89-95 | the walk over distinct children of a row lists no row twice |
| Forest.IdSet | backend/app/models/menu.py:28 | the set of ids holds exactly the ids that can be looked up |
| Forest.UpExact | backend/app/models/menu.py:159-165 | a finished walk takes exactly as many steps as ancestors it lists |
| Forest.UpTail | backend/app/models/menu.py:159-165 | every tail of a finished walk is the walk from its first id |
| Forest.OnChain | backend/app/models/menu.py:159-165 | every id on a chain is its start or some row's parent |
| Forest.UpAgree | backend/app/models/menu.py:159-165 | two tables agreeing on every parent but one walk alike from any start whose chain avoids that row |
| Forest.SameIds | backend/app/models/menu.py:28 | tables with the same ids position by position look ids up alike and keep the key unique |
| Forest.Reparent | backend/app/routes/menu_routes.py:186-205 | setting one row's `parent_id` changes that row's parent and no other row |
| Forest.ReparentAtRow | backend/app/routes/menu_routes.py:186-205 | after the move the walk from the moved row finishes: one step to the new parent, then its old chain |
| Forest.ReparentWalk | backend/app/routes/menu_routes.py:186-205 | after a move the route allows, every walk up still finishes |
| Forest.ReparentAcyclic | backend/app/routes/menu_routes.py:186-205 | moving a row under a parent whose chain does not contain it, or making it a root, keeps the table acyclic with a unique key |
| Forest.IndexOfAppend | backend/app/routes/menu_routes.py:112-131 | after an insert the new id is found at the end and every other lookup is unchanged |
| Forest.AppendWalk | backend/app/routes/menu_routes.py:112-131 | after an insert, walks that do not start at the new row are unchanged |
| Forest.AppendAcyclic | backend/app/routes/menu_routes.py:112-131 | inserting a row with a fresh id keeps the table acyclic with a unique key |
| Forest.Without | backend/app/routes/menu_routes.py:253-279 | deleting a row keeps every other row in order |
| Forest.WithoutLookup | backend/app/routes/menu_routes.py:253-279 | after a delete every other row keeps its parent and the key stays unique |
| Forest.WithoutLeafAcyclic | backend/app/routes/menu_routes.py:253-279 | deleting a row that no row names as parent keeps the table acyclic |
| Batch.CountOk | backend/app/routes/menu_routes.py:351-391 | `success_count` never exceeds the number of ids, equals it exactly when every entry succeeded, and is 0 exactly when every entry failed |
| Batch.CountOkAppend | backend/app/routes/menu_routes.py:351-391 | each recorded entry raises exactly one of `success_count` and `failed_count` by one |
| Text.Split | backend/app/models/courseware.py:117 | `split(',')` gives at least one piece and no piece holds the separator |
| Text.JoinSplit | backend/app/models/courseware.py:115-121 | joining the pieces of a split with the separator gives the text back |
| Text.SplitJoin | backend/app/models/courseware.py:115-121 | splitting a join of separator-free pieces gives the pieces back |
| Text.Strip | backend/app/models/courseware.py:117 | `strip()` leaves no whitespace at either end and never lengthens the text |
| Text.StripKeepsAbsent | backend/app/models/courseware.py:117 | stripping never brings in a character the text did not hold |
| Text.StripStripped | backend/app/models/courseware.py:117 | stripping a stripped text changes nothing |
| Text.LowerCut | backend/app/models/system_settings.py:47 | lower-casing commutes with cutting a text in two |
| Text.LowerIdempotent | backend/app/models/system_settings.py:47 | lower-casing twice is lower-casing once |
| Text.UpperIdempotent | backend/app/models/permission.py:133 | upper-casing twice is upper-casing once, and upper-casing a lower-cased text is upper-casing the text |
| Text.NatToStringInjective | backend/app/routes/education_routes.py:567-570 | distinct counters give distinct texts, so the candidate names of the import loop are all distinct |
| Text.DigitsValueOfNat | backend/app/models/system_settings.py:43 | reading back the decimal digits of a number gives the number |
| Text.ParseNatToString | backend/app/models/system_settings.py:43 | reading unsigned digits undoes `str(n)` |
| Text.ParseInt | backend/app/models/system_settings.py:43 | `int()` on text that has no surrounding whitespace is the signed-digits reading |
| Text.StripIdempotentOn | backend/app/models/system_settings.py:43 | stripping text without surrounding whitespace changes nothing |
| Text.ParseSigned | backend/app/models/system_settings.py:43 | a value is read exactly when the text is digits, or a sign followed by digits; a negative value needs a leading minus |
| Text.ParseIntToString | backend/app/models/system_settings.py:43-60 | `int(str(i)) == i` for every integer, so an integer setting stored by `set_value` reads back unchanged |
| Text.NegativeParses | backend/app/models/system_settings.py:43 | a minus sign before the digits of a positive number reads as its negation |
| Text.DigitsBeforeSep | backend/app/models/courseware_usage.py:62-76 | digits followed by a non-digit separator determine both halves, so duration texts of distinct minute and second values differ |
| Counts.Bump | backend/app/models/courseware_usage.py:178-182 | counting one more record of a day adds the day if new and raises its count by one, leaving every other day alone |
| Counts.TallyBy | backend/app/models/courseware_usage.py:178-182 | every day in `daily_usage` has at least one record |
| Counts.FirstSeen | backend/app/models/courseware_usage.py:178-182 | keys listed in order of first occurrence are all distinct |
| Counts.BumpSum | backend/app/models/courseware_usage.py:178-182 | counting one record adds one to the sum of the counts |
| Counts.TallySum | backend/app/models/courseware_usage.py:145-182 | the daily counts add up to `total_usage`, the number of records |
| Counts.TallyHas | backend/app/models/courseware_usage.py:178-182 | a day appears in `daily_usage` exactly when some record falls on it |
| Counts.TallySize | backend/app/models/courseware_usage.py:178-182 | there are never more days than records |
| Counts.FirstSeenHas | backend/app/models/courseware_usage.py:178-182 | a key is listed in first-seen order exactly when it has been counted |
| Counts.FirstSeenSize | backend/app/models/courseware_usage.py:178-182 | there are as many first-seen keys as counted keys |
| Schema.MenuNodes | backend/app/models/menu.py:28 | the parent skeleton has one node per menu, with its id and `parent_id` |
| Schema.Db.constructor | backend/app/models/user.py:5-22 | a fresh database has every table empty and is well formed |
| Schema.FindUser | backend/app/models/user.py:79-81 | `User.query.get(id)` finds a row with that id, and finds none exactly when no row has it |
| Schema.FindUsername | backend/app/models/user.py:74-76 | `get_by_username` finds the first row with that name, and none exactly when no row has it |
| Schema.FindRole | backend/app/models/role.py:56-58 | `Role.get_by_id` finds a row with that id, and none exactly when no row has it |
| Schema.FindPermission | backend/app/models/permission.py:62-64 | `Permission.get_by_id` finds a row with that id, and none exactly when no row has it |
| Schema.FindMenu | backend/app/models/menu.py:103-105 | `Menu.get_by_id` finds a row with that id, and none exactly when no row has it |
| Schema.FindSession | backend/app/models/user_session.py:99-101 | `UserSession.get_by_id` finds a row with that id, and none exactly when no row has it |
| Schema.FindMenuNode | backend/app/models/menu.py:28 | looking a menu up by id agrees with looking its node up in the parent skeleton |
| SettingsTarget.ResolveEquipment | backend/app/routes/navigation_routes.py:98-112 | a missing id or "default" becomes the first equipment (refused when there is none); any other id is kept when it exists and refused otherwise; an accepted target always exists |
| Menus.GetLevel | backend/app/models/menu.py:137-144 | the loop's level is one plus the number of ancestors of the row |
| Menus.Reversed | backend/app/models/menu.py:159-165 | the reversal has the same length, with the positions mirrored |
| Menus.ParentPath | backend/app/models/menu.py:159-165 | the recursive `get_parent_path` is the ancestor chain reversed, root first |
| Menus.ParentPathShape | backend/app/models/menu.py:159-165 | the parent path has one entry per level above the row, is empty for a root and ends with the direct parent |
| Menus.AllChildren | backend/app/models/menu.py:151-157 | `get_all_children` lists no row twice and never the menu itself |
| Menus.DescendantFacts | backend/app/models/menu.py:151-157 | on a well-formed menu table the walk below a menu is repetition-free and excludes the menu |
| Menus.AllChildrenExact | backend/app/models/menu.py:151-157 | a row is returned by `get_all_children` exactly when the menu is on its ancestor chain |
| Menus.ChildMenus | backend/app/models/menu.py:28 | `children` holds exactly the rows whose parent is the menu |
| Menus.CanDelete | backend/app/models/menu.py:167-169 | `can_delete` holds exactly when no row names the menu as its parent |
| Menus.CanDeleteIffLeaf | backend/app/models/menu.py:167-169 | a menu can be deleted exactly when it has no descendants at all |
| Menus.Insert | backend/app/models/menu.py:146-149 | inserting into a list sorted by (sort_order, created_at) keeps it sorted and adds exactly that row |
| Menus.Sort | backend/app/models/menu.py:146-149 | `sorted` with key (sort_order, created_at) returns a sorted permutation of its input |
| Menus.SortedChildren | backend/app/models/menu.py:146-149 | `get_sorted_children` is sorted by the key, is a permutation of the enabled children, and holds exactly the enabled rows whose parent is the menu |
| Menus.GetRootMenus | backend/app/models/menu.py:118-123 | the root menus are exactly the rows without a parent, of the asked status when one is given |
| Menus.IfSet | backend/app/models/menu.py:72-97 | an optional route key is present exactly when its column is a non-empty text, and then holds it |
| Menus.RowOf | backend/app/models/menu.py:103-105 | a menu in a table with unique ids is found by its id |
| Menus.TreeUnique | backend/app/models/menu.py:4-30 | a well-formed menu table has unique ids |
| Menus.ToRouteDict | backend/app/models/menu.py:72-97 | `to_route_dict` carries name, path, title and permission; component and redirect only when set; and one child route per enabled child, in sorted order |
| Menus.ChildRow | backend/app/models/menu.py:137-144 | a child row sits one level below its parent, which bounds the recursion of `to_route_dict` |
| Menus.ChildRoutes | backend/app/models/menu.py:92-95 | the child routes match the sorted children one to one |
| Menus.Accessible | backend/app/models/menu.py:174-182 | `accessible_menus` holds exactly the enabled rows whose permission code is empty or held by the user |
| Menus.KeptIds | backend/app/models/menu.py:185 | `menu_dict` has exactly the ids of the kept menus |
| Menus.FilteredChildren | backend/app/models/menu.py:188-195 | a kept menu's `_filtered_children` are exactly the kept menus whose parent it is |
| Menus.Roots | backend/app/models/menu.py:188-190 | the returned roots are exactly the kept menus without a parent |
| Menus.GetUserMenus | backend/app/models/menu.py:172-197 | the loops return the kept roots in order and, for each kept parent, its kept children in order; a kept menu whose parent was not kept is placed nowhere |
| Menus.KeepStep | backend/app/models/menu.py:179-182 | the permission loop grows the kept list by the next enabled row exactly when the user may see it |
| Menus.PlacedStart | backend/app/models/menu.py:185-186 | before the tree loop nothing is placed |
| Menus.StepFacts | backend/app/models/menu.py:188-195 | one more kept menu adds to the roots when it has no parent, and otherwise only to its own parent's children |
| Menus.PlaceRoot | backend/app/models/menu.py:189-190 | placing a kept root keeps the tree loop's invariant |
| Menus.PlaceSkip | backend/app/models/menu.py:192-195 | skipping a kept menu whose parent was not kept keeps the tree loop's invariant |
| Menus.PlaceChild | backend/app/models/menu.py:192-195 | appending a kept menu to its kept parent's children keeps the tree loop's invariant |
| Menus.OrphansDropped | backend/app/models/menu.py:192-195 | a kept menu whose parent was not kept is neither a root nor any menu's child |
| Menus.PlacedOnce | backend/app/models/menu.py:188-195 | a kept menu whose parent was kept appears exactly once, among its parent's children, and nowhere else |
| Coursewares.Courseware.constructor | backend/app/models/courseware.py:4-28 | a new row carries the given id and exactly the given column values |
| KnowledgeBases.KnowledgeBase.constructor | backend/app/models/knowledge_base.py:4-25 | a new row carries the given id and exactly the given column values |
| PromptTemplates.PromptTemplate.constructor | backend/app/models/prompt_template.py:4-29 | a new row carries the given id and exactly the given column values |
| MenuRoutes.FindName | backend/app/models/menu.py:113-115 | `get_by_name` finds a row with that name, and none exactly when no row has it |
| MenuRoutes.FindPath | backend/app/models/menu.py:108-110 | `get_by_path` finds a row with that path, and none exactly when no row has it |
| MenuRoutes.MenuNodesUpdate | backend/app/routes/menu_routes.py:186-205 | replacing a row by one with the same id only moves that row in the parent skeleton |
| MenuRoutes.MenuNodesRemove | backend/app/routes/menu_routes.py:253-279 | deleting a row deletes its node from the parent skeleton |
| MenuRoutes.AppendTree | backend/app/routes/menu_routes.py:104-129 | inserting a row with a fresh id and an existing (or no) parent keeps the menu table a forest |
| MenuRoutes.UpdateTree | backend/app/routes/menu_routes.py:186-205 | a row whose new parent exists (or is none) and does not have the row on its chain keeps the table a forest |
| MenuRoutes.UpdateNoDangling | backend/app/routes/menu_routes.py:186-205 | the checked parent keeps every parent id naming an existing row |
| MenuRoutes.DropRow | backend/app/routes/menu_routes.py:253-279 | deleting a row keeps every other row, in order |
| MenuRoutes.RemoveTree | backend/app/routes/menu_routes.py:253-279 | deleting a menu no row names as parent keeps the table a forest |
| MenuRoutes.RemoveNoDangling | backend/app/routes/menu_routes.py:253-279 | deleting a childless menu leaves no parent id dangling |
| MenuRoutes.AppendKeys | backend/app/routes/menu_routes.py:96-102 | inserting a row whose name is new and whose path is empty or new keeps names and paths unique |
| MenuRoutes.UpdateKeys | backend/app/routes/menu_routes.py:163-183 | a changed name and non-empty path held by no other row keep names and paths unique |
| MenuRoutes.RemoveKeys | backend/app/routes/menu_routes.py:253-279 | deleting a row keeps names and paths unique |
| MenuRoutes.MaxId | backend/app/routes/menu_routes.py:112-129 | the largest id is at least every id in the table |
| MenuRoutes.NextId | backend/app/routes/menu_routes.py:112-129 | the auto-increment id is positive and names no existing row |
| MenuRoutes.NewMenu | backend/app/routes/menu_routes.py:112-128 | the inserted row takes name, title, path and parent from the body, and sort order 0, type "menu", shown, kept alive, not affixed and enabled when the body omits them |
| MenuRoutes.CreateMenu | backend/app/routes/menu_routes.py:85-146 | name and title are required in that order, a taken name or non-empty path is a 400, a truthy parent must exist; success appends exactly the new row; every failure leaves the table unchanged; the table stays a forest with unique names and paths |
| MenuRoutes.Patched | backend/app/routes/menu_routes.py:162-233 | every key present in the body replaces its column, every absent key keeps it, and a body of absent keys changes nothing |
| MenuRoutes.ChainMeets | backend/app/routes/menu_routes.py:198-203 | the cycle-guard loop meets the menu exactly when the menu is on the new parent's ancestor chain |
| MenuRoutes.RowIndex | backend/app/models/menu.py:103-105 | on a well-formed table a row is found at its own position |
| MenuRoutes.CheckUpdate | backend/app/routes/menu_routes.py:150-205 | the checks pass exactly when the update is allowed; an unknown menu is 404, an empty body 400, a taken name 400, and the menu as its own parent always fails |
| MenuRoutes.CheckParent | backend/app/routes/menu_routes.py:186-203 | a truthy parent passes exactly when it exists, is not the menu and does not have the menu above it |
| MenuRoutes.UpdateMenu | backend/app/routes/menu_routes.py:150-249 | success happens exactly when every check passes and replaces only the menu's row by the patched row; failure changes nothing; the table stays a forest with unique names and paths |
| MenuRoutes.ParentChecks | backend/app/routes/menu_routes.py:186-205 | the parent checks leave the patched row a valid forest member |
| MenuRoutes.KeyChecks | backend/app/routes/menu_routes.py:163-183 | the name and path checks leave no other row with the new name or non-empty path |
| MenuRoutes.DeleteMenu | backend/app/routes/menu_routes.py:253-279 | an unknown menu is 404 and a menu with children 400, both changing nothing; otherwise exactly its row goes and the table stays a forest |
| MenuRoutes.RemovedGone | backend/app/routes/menu_routes.py:253-279 | after the delete the id is no longer found |
| MenuRoutes.Flag | backend/app/routes/menu_routes.py:370-381 | enable and disable set the status, show and hide the hidden flag; id, parent, name and path stay |
| MenuRoutes.Flagged | backend/app/routes/menu_routes.py:355-391 | after the loop every listed row is flagged and every other row is unchanged |
| MenuRoutes.FlaggedNodes | backend/app/routes/menu_routes.py:370-381 | flagging touches neither ids nor parents |
| MenuRoutes.FlaggedKeeps | backend/app/routes/menu_routes.py:370-381 | flagging keeps the table a forest with unique names and paths |
| MenuRoutes.FlaggedNoDangling | backend/app/routes/menu_routes.py:370-381 | flagging leaves no parent id dangling |
| MenuRoutes.FlagOneStep | backend/app/routes/menu_routes.py:355-391 | one more pass of the loop is the flag operation over one more id |
| MenuRoutes.FlagTwice | backend/app/routes/menu_routes.py:370-381 | flagging twice is flagging once |
| MenuRoutes.FindFlagged | backend/app/routes/menu_routes.py:370-381 | flagging keeps every id at its row |
| MenuRoutes.BatchFlag | backend/app/routes/menu_routes.py:355-391 | the enable, disable, show and hide loop flags exactly the listed rows, records one result per id in order and counts the successes |
| MenuRoutes.FlagNext | backend/app/routes/menu_routes.py:355-391 | one pass of the loop keeps its invariant |
| MenuRoutes.FlagShape | backend/app/routes/menu_routes.py:355-391 | recording every id gives one result per id, in order, with counters that add up |
| MenuRoutes.DeleteLoopStep | backend/app/routes/menu_routes.py:355-369 | one more delete keeps the delete loop's invariant |
| MenuRoutes.DeleteStep | backend/app/routes/menu_routes.py:357-369 | one result for the id, successful exactly when the menu exists and has no child; then only its row is dropped, otherwise the table is unchanged |
| MenuRoutes.DeleteRun | backend/app/routes/menu_routes.py:355-391 | one result per listed id, in list order |
| MenuRoutes.DeleteRunNext | backend/app/routes/menu_routes.py:355-391 | the run over one more id is one more `DeleteStep` on the table the earlier ids left |
| MenuRoutes.DeleteRunKeepsTree | backend/app/routes/menu_routes.py:355-391 | a batch delete keeps the table a forest, only removes rows, one per success, and every menu reported deleted is gone |
| MenuRoutes.DeleteRunPair | backend/app/routes/menu_routes.py:355-391 | deleting two ids runs the second check on the table the first deletion left |
| MenuRoutes.NotOwnParent | backend/app/models/menu.py:14 | in a forest no menu is its own parent |
| MenuRoutes.ChildThenParent | backend/app/routes/menu_routes.py:355-391 | listing a leaf child before its parent, when it is the parent's only child, deletes both |
| MenuRoutes.ParentThenChild | backend/app/routes/menu_routes.py:355-391 | listing the parent before its leaf child refuses the parent and deletes only the child |
| MenuRoutes.DeleteStepAgrees | backend/app/routes/menu_routes.py:357-369 | a reply and table with the checks of `delete_menu` are what `DeleteStep` gives |
| MenuRoutes.DeleteRunStep | backend/app/routes/menu_routes.py:355-391 | one more checked deletion extends the run by one id |
| MenuRoutes.DeleteNext | backend/app/routes/menu_routes.py:355-391 | one pass of the delete loop keeps it equal to `DeleteRun` over the ids seen |
| MenuRoutes.BatchDelete | backend/app/routes/menu_routes.py:355-391 | the new table and the results are exactly those of `DeleteRun` on the old table; the table stays a forest with unique keys, only loses rows, and gets one counted result per id |
| MenuRoutes.DropKeepsAbsent | backend/app/routes/menu_routes.py:253-279 | deleting a row loses no absence and adds no row |
| MenuRoutes.BatchUnsupported | backend/app/routes/menu_routes.py:382-385 | an unknown operation fails every id, with no success |
| MenuRoutes.BatchMenuOperation | backend/app/routes/menu_routes.py:341-412 | an empty id list or operation is a 400 that changes nothing; an unknown operation changes nothing and fails every id; a flag operation flags exactly the listed rows with each result that of `FlagResult` on the old table; a delete gives exactly the table and results of `DeleteRun`; the table stays a forest with unique keys |
| MenuRoutes.RouteOf | backend/app/models/menu.py:72-97 | a menu's route carries its name, path and permission, and one child route per enabled child |
| MenuRoutes.RoutesOf | backend/app/routes/menu_routes.py:55 | the child routes are the route dicts of the children, one to one and in order |
| MenuRoutes.RootRoute | backend/app/routes/menu_routes.py:53-56 | a root with kept children lists exactly their routes; a root without kept children keeps its own unfiltered route dict |
| MenuRoutes.GetMenuRoutes | backend/app/routes/menu_routes.py:41-64 | one route per kept root of the user's menu tree, in order, each as the handler builds it |
| MenuRoutes.KidsLookup | backend/app/models/menu.py:188-195 | a kept menu has `_filtered_children` exactly when some kept menu names it as parent |
| MenuRoutes.RoutesLeakChild | backend/app/routes/menu_routes.py:52-56 | with an open root whose only child needs "menu:secret", a user without that code still receives the child's route |
| MenuRoutes.LeakRootKeepsNoChild | backend/app/models/menu.py:179-195 | a user without "menu:secret" keeps no child of that root |
| MenuRoutes.LeakTableIsTree | backend/app/models/menu.py:28 | the two-row table of the leak is a well-formed forest |
| MenuRoutes.PermittedRoute | backend/app/routes/menu_routes.py:41-64 | a route built from kept menus at every level needs no permission the user lacks |
| MenuRoutes.PermittedRoutes | backend/app/routes/menu_routes.py:41-64 | the routes of kept children are named after them, in order, and all permitted |
| MenuRoutes.GetPermittedMenuRoutes | backend/app/routes/menu_routes.py:41-64 | one route per kept root, in order, and no route at any depth needs a permission the user lacks |
| MenuRoutes.Indent | backend/app/routes/menu_routes.py:332 | `'　' * n` is n ideographic spaces |
| MenuRoutes.OptionFor | backend/app/routes/menu_routes.py:330-337 | a child's option keeps its id, prefixes its title with the level's indent and `├─ `, and sits one level deeper, as do its own children |
| MenuRoutes.OptionsOf | backend/app/routes/menu_routes.py:326-337 | the options of the children match them one to one, in order, all drawn from the queried menus |
| MenuRoutes.BuildMenuOptions | backend/app/routes/menu_routes.py:326-337 | the loop builds one option per queried menu whose parent is the option's menu, in query order, each with its own subtree |
| MenuRoutes.ChildDeeper | backend/app/routes/menu_routes.py:326-337 | a child sits one level below its parent, which bounds the recursion |
| MenuRoutes.ChildrenStep | backend/app/routes/menu_routes.py:328-329 | one more queried menu adds to a parent's children exactly when it names that parent |
| MenuRoutes.OptionsSnoc | backend/app/routes/menu_routes.py:337 | the options of one more child are the options so far and the child's own |
| MenuRoutes.Excluded | backend/app/routes/menu_routes.py:295-301 | an unset or 0 `exclude_id`, or one naming no menu, excludes nothing; otherwise the menu and all its descendants are excluded |
| MenuRoutes.Candidates | backend/app/routes/menu_routes.py:288-301 | the query returns exactly the enabled directories and menus outside the excluded set |
| MenuRoutes.RootOption | backend/app/routes/menu_routes.py:308-315 | a root option has the menu's id and title at level 1, its children at level 2 and drawn from the candidates |
| MenuRoutes.RootOptions | backend/app/routes/menu_routes.py:305-317 | one root option per candidate root, in order |
| MenuRoutes.ParentCandidates | backend/app/routes/menu_routes.py:288-303 | the candidates are exactly the enabled directories and menus outside the excluded subtree |
| MenuRoutes.GetParentMenuOptions | backend/app/routes/menu_routes.py:283-324 | with the helper called as the module-level function it is: success, with one option per candidate root in order, each holding its subtree of candidates |
| MenuRoutes.RootsStep | backend/app/routes/menu_routes.py:306-307 | one more candidate adds a root option exactly when it has no parent |
| MenuRoutes.RootOptionsAppend | backend/app/routes/menu_routes.py:317 | the options for one more root are the old ones and the new root's |
| MenuRoutes.ExcludedNeverOffered | backend/app/routes/menu_routes.py:295-301 | no option at any depth is the excluded menu or one of its descendants, so a menu is never offered as a parent of itself or its subtree |
| MenuRoutes.ParentOptionsAsWritten | backend/app/routes/menu_routes.py:314 | as written, `self` is undefined in the route: every request with a candidate root ends in the error reply, and only one without any succeeds, with no options |
| MenuRoutes.ParentOptionsFail | backend/app/routes/menu_routes.py:314 | with one enabled root menu the route as written fails where one option is intended |
| Roles.HasLink | backend/app/models/role.py:97-102 | a `RolePermission` row is found exactly when the pair is in the link table |
| Roles.RolePermissions | backend/app/models/role.py:80-85 | a role's permissions are exactly the permission rows linked to it |
| Roles.RoleHasPermission | backend/app/models/role.py:87-95 | a role has a code exactly when some permission linked to it carries that code |
| Roles.Assigned | backend/app/models/role.py:97-109 | after `assign_permission` the pair is linked and the other links are the old ones |
| Roles.Removed | backend/app/models/role.py:111-119 | `remove_permission` deletes one occurrence of the pair when present and nothing else |
| Roles.UniqueCount | backend/app/models/role.py:121-131 | in a link table without duplicates each pair occurs at most once |
| Roles.UniqueByCount | backend/app/models/role.py:121-131 | a link table in which no pair occurs twice has no duplicates |
| Roles.AssignExactlyOne | backend/app/models/role.py:97-109 | assigning keeps the link table duplicate-free, leaves exactly one row for the pair, and assigning again changes nothing |
| Roles.RemoveDeletes | backend/app/models/role.py:111-119 | removing leaves the pair unlinked and every other pair as it was; removing an absent pair changes nothing |
| Roles.RemovedKeepsOthers | backend/app/models/role.py:111-119 | removing one pair keeps every other pair exactly |
| Roles.RemovedUnique | backend/app/models/role.py:111-119 | removing keeps the link table duplicate-free |
| Roles.RemovedAbsent | backend/app/models/role.py:111-119 | removing an unlinked pair changes nothing |
| Roles.AssignPermission | backend/app/models/role.py:97-109 | only the link table changes, to the assigned table |
| Roles.RemovePermission | backend/app/models/role.py:111-119 | only the link table changes, to the table without the pair |
| Users.LegacyPermissions | backend/app/models/user.py:189-196 | admin holds read, write, delete and manage; operator read and write; viewer read |
| Users.ActiveRolePermissions | backend/app/models/user.py:183-186 | exactly the enabled permissions linked to the role |
| Users.GetPermissions | backend/app/models/user.py:175-196 | a set role id naming a role gives exactly the codes of its enabled linked permissions; otherwise the legacy list of the user's role |
| Users.ResolvedEmpty | backend/app/models/user.py:175-196 | a resolved role without enabled permissions yields no codes: the legacy list is not consulted |
| Users.HasPermission | backend/app/models/user.py:198-201 | a user has a code exactly when `get_permissions` lists it, by the RBAC role or else by the legacy role |
| Users.CanEditUser | backend/app/models/user.py:133-140 | only an admin edits, and never another admin |
| Users.CanDeleteUser | backend/app/models/user.py:142-152 | a user may delete exactly when an admin deleting a non-admin other than itself |
| Users.DeleteImpliesEdit | backend/app/models/user.py:133-152 | whoever may delete a user may edit it; an admin may edit but not delete itself |
| Users.LoggedIn | backend/app/models/user.py:47-51 | a login raises the count by one, records the time and changes nothing else |
| Users.UpdateLoginInfo | backend/app/models/user.py:47-51 | only that user's row changes, to its logged-in form |
| Users.Authenticate | backend/app/models/user.py:113-119 | a user is returned exactly when the username is found, the account is enabled and the password matches; then only its login is recorded, otherwise nothing changes |
| Users.WithoutUserSessions | backend/app/models/user.py:29-37 | exactly the sessions of other users remain |
| Users.DeleteUser | backend/app/models/user.py:29-37 | the user's sessions are deleted first, then the user's row, and nothing else changes |
| Users.DeleteUserRemovesAll | backend/app/models/user.py:29-37 | afterwards no session of the user remains and the user is no longer found |
| Users.FindEmail | backend/app/models/user.py:94-96 | `get_by_email` finds a row with that address, and none exactly when no row has it |
| Users.MaxUserId | backend/app/models/user.py:99-110 | the largest id is at least every user id |
| Users.NextUserId | backend/app/models/user.py:99-110 | a new user's id is positive and names no existing user |
| Users.FilterUniqueIds | backend/app/models/user.py:29-37 | filtering keeps user ids unique |
| Users.RemoveIsFilter | backend/app/models/user.py:29-37 | deleting the row of one id is filtering out that id |
| Permissions.ModuleKey | backend/app/models/permission.py:120 | a permission groups under its module, or under "其他" when the module is empty |
| Permissions.Group | backend/app/models/permission.py:119-124 | a group holds exactly the permissions of its module key |
| Permissions.Keys | backend/app/models/permission.py:119-124 | the group keys are exactly the module keys of the permissions |
| Permissions.Active | backend/app/models/permission.py:112-113 | exactly the permissions of the asked status, or all of them when none is asked |
| Permissions.GroupedByModule | backend/app/models/permission.py:109-126 | the loop gives one group per module key of the selected permissions, each holding exactly that module's permissions in query order |
| Permissions.GroupedEmpty | backend/app/models/permission.py:119 | before the loop there are no groups |
| Permissions.GroupStep | backend/app/models/permission.py:120-124 | adding one permission to its group keeps the loop's invariant |
| Permissions.KeysAppend | backend/app/models/permission.py:120-124 | one more permission adds only its module key |
| Permissions.GroupAt | backend/app/models/permission.py:120-124 | after one more permission every group is that module's permissions so far |
| Permissions.GroupAbsent | backend/app/models/permission.py:119-124 | a module none of whose permissions has been seen has an empty group |
| Permissions.ExactlyOneGroup | backend/app/models/permission.py:119-124 | each permission lands in exactly one group, that of its module key |
| Permissions.GroupsPartition | backend/app/models/permission.py:119-124 | a permission occurs in its group as often as in the input |
| Permissions.IsAssignedToRole | backend/app/models/permission.py:144-150 | assigned exactly when the (role, permission) link exists |
| Permissions.AssignedAfterUpdate | backend/app/models/role.py:97-119 | after assigning a pair it is assigned; after removing it, it is not; no other pair changes |
| Permissions.CheckResourcePermission | backend/app/models/permission.py:129-135 | the first enabled permission with that path and the upper-cased method; none exactly when no permission matches |
| Permissions.MethodCaseInsensitive | backend/app/models/permission.py:128-135 | any request method finds the same permission as its upper-cased and its lower-cased spellings |
| Permissions.SameUpperSameCheck | backend/app/models/permission.py:128-135 | two request methods with the same upper-cased spelling find the same permission |
| RoleRoutes.FindRoleName | backend/app/models/role.py:66-68 | `get_by_name` finds the first role with that name, and none exactly when no role has it |
| RoleRoutes.FindRoleCode | backend/app/models/role.py:61-63 | `get_by_code` finds the first role with that code, and none exactly when no role has it |
| RoleRoutes.UserCount | backend/app/routes/role_routes.py:230-231 | the count of users holding the role is 0 exactly when no user holds it |
| RoleRoutes.MaxRoleId | backend/app/routes/role_routes.py:113-121 | the largest id is at least every role id |
| RoleRoutes.NextRoleId | backend/app/routes/role_routes.py:113-121 | a new role's id is positive and names no existing role |
| RoleRoutes.WithoutRole | backend/app/routes/role_routes.py:190 | deleting a role's join rows keeps exactly the links of other roles |
| RoleRoutes.WithoutRoleUnique | backend/app/routes/role_routes.py:190 | deleting a role's join rows keeps the link table duplicate-free |
| RoleRoutes.AssignAll | backend/app/routes/role_routes.py:124-126 | after assigning each listed id, the links are the old ones plus the role paired with every listed id |
| RoleRoutes.AssignAllUnique | backend/app/routes/role_routes.py:124-126 | assigning a list keeps the link table duplicate-free, even when the list repeats an id |
| RoleRoutes.AssignAllSnoc | backend/app/routes/role_routes.py:125-126 | one more listed id is one more `assign_permission` |
| RoleRoutes.ReplacedExactly | backend/app/routes/role_routes.py:188-197 | after replacing, the role is linked to exactly the listed ids, other roles' links are untouched and there are no duplicates |
| RoleRoutes.ExistingOnly | backend/app/routes/role_routes.py:307-310 | the ids kept are exactly the listed ids naming an existing permission |
| RoleRoutes.AssignEach | backend/app/routes/role_routes.py:124-126 | the loop leaves only the link table changed, to the assigned table |
| RoleRoutes.ExistingStep | backend/app/routes/role_routes.py:307-310 | one more listed id keeps the invariant of the existence-checking loop |
| RoleRoutes.ExistingSnoc | backend/app/routes/role_routes.py:307-310 | one more listed id is kept exactly when it names a permission |
| RoleRoutes.AssignExisting | backend/app/routes/role_routes.py:307-310 | the loop assigns exactly the listed ids that name a permission and changes nothing else |
| RoleRoutes.NewRole | backend/app/routes/role_routes.py:113-121 | the new role has a fresh id, the given name and code, is not a system role, and is enabled with sort order 0 unless the body says otherwise |
| RoleRoutes.CreateCheck | backend/app/routes/role_routes.py:99-110 | the checks pass exactly when name and code are given and both are new; a missing name is reported first; every failure is a 400 |
| RoleRoutes.CreateRole | backend/app/routes/role_routes.py:93-143 | a failed check changes nothing; otherwise the new role is appended and linked to every listed permission id; names and codes stay unique |
| RoleRoutes.NewRoleKeeps | backend/app/routes/role_routes.py:104-121 | a role with a fresh id, name and code keeps ids, names and codes unique |
| RoleRoutes.CreateRejectsDuplicate | backend/app/routes/role_routes.py:104-110 | after a role is created, a second one with the same name or code is refused |
| RoleRoutes.PatchedRole | backend/app/routes/role_routes.py:162-186 | every key present replaces its column and every absent key keeps it; id and system flag never change; an empty patch changes nothing |
| RoleRoutes.UpdateCheck | backend/app/routes/role_routes.py:147-176 | an unknown role is 404 and a system role 403; a passing check means the role exists, is not a system role, the body is not empty and its name and code are free |
| RoleRoutes.PatchKeeps | backend/app/routes/role_routes.py:162-186 | a patch whose name and code are free keeps ids, names and codes unique |
| RoleRoutes.UpdateRole | backend/app/routes/role_routes.py:147-214 | a failed check changes nothing; success patches only the role's row and, when `permission_ids` is given, replaces the role's links by exactly those ids |
| RoleRoutes.SystemRoleNotUpdated | backend/app/routes/role_routes.py:155-156 | a system role is always refused with 403, whatever the body |
| RoleRoutes.DropRole | backend/app/routes/role_routes.py:234-235 | deleting a role keeps every other role, in order |
| RoleRoutes.DropKeeps | backend/app/routes/role_routes.py:234-235 | after the delete the role is gone, the rest keep unique ids, names and codes, and no row is added |
| RoleRoutes.DeleteRole | backend/app/routes/role_routes.py:218-249 | unknown is 404, a system role 403, a role still held by users 400 with their count; success happens exactly otherwise and removes the role and its join rows; failures change nothing |
| RoleRoutes.DeletedLeavesNoReference | backend/app/routes/role_routes.py:229-235 | once deleted, no user and no link still names the role |
| RoleRoutes.AssignRolePermissions | backend/app/routes/role_routes.py:289-324 | unknown is 404, a system role 403; success replaces the role's links by exactly the listed ids that name a permission; failures change nothing |
| RoleRoutes.AssignedExactly | backend/app/routes/role_routes.py:303-310 | after the assignment the role is linked to a permission exactly when it was listed and exists |
| RoleRoutes.BatchStep | backend/app/routes/role_routes.py:343-378 | the result names the id; an unknown role fails with "角色不存在" and an unknown operation fails without changing anything |
| RoleRoutes.BatchRun | backend/app/routes/role_routes.py:342-378 | one result per id |
| RoleRoutes.BatchRunIds | backend/app/routes/role_routes.py:342-378 | the results follow the ids in order |
| RoleRoutes.StepKeeps | backend/app/routes/role_routes.py:343-378 | one step keeps the tables well formed and names and codes unique, and never removes a system role |
| RoleRoutes.BatchKeeps | backend/app/routes/role_routes.py:342-378 | the whole batch keeps the tables well formed and names and codes unique, and never removes a system role |
| RoleRoutes.UnknownOpChangesNothing | backend/app/routes/role_routes.py:369-372 | an unknown operation changes nothing and fails every id |
| RoleRoutes.DeleteStep | backend/app/routes/role_routes.py:355-362 | a delete step only removes rows; a reported deletion leaves neither the role nor its links; system roles and held roles stay |
| RoleRoutes.DeleteBatch | backend/app/routes/role_routes.py:342-378 | a delete batch only removes rows, every role it reports deleted is gone with its links, and system and held roles are kept |
| RoleRoutes.FlagStep | backend/app/routes/role_routes.py:363-368 | an enable or disable step keeps every reported role at the wanted status |
| RoleRoutes.FlagBatch | backend/app/routes/role_routes.py:342-378 | after an enable or disable batch every role reported successful has the wanted status, and the links are untouched |
| RoleRoutes.BatchOne | backend/app/routes/role_routes.py:343-378 | one pass of the loop does exactly the step |
| RoleRoutes.BatchRoleOperation | backend/app/routes/role_routes.py:328-400 | an empty id list or operation is a 400 that changes nothing; otherwise the tables and results are those of the step-by-step run, with counters that add up to the ids |
| PermissionRoutes.FindPermissionName | backend/app/models/permission.py:72-74 | `get_by_name` finds the first permission with that name, and none exactly when none has it |
| PermissionRoutes.FindPermissionCode | backend/app/models/permission.py:67-69 | `get_by_code` finds the first permission with that code, and none exactly when none has it |
| PermissionRoutes.RoleCount | backend/app/routes/permission_routes.py:263-265 | the number of roles using the permission is 0 exactly when no link names it |
| PermissionRoutes.MaxPermissionId | backend/app/routes/permission_routes.py:144-157 | the largest id is at least every permission id |
| PermissionRoutes.NextPermissionId | backend/app/routes/permission_routes.py:144-157 | a new permission's id is positive and names no existing permission |
| PermissionRoutes.NewPermission | backend/app/routes/permission_routes.py:144-157 | the new permission has a fresh id, the given name and code, is not a system permission, is of type "button", enabled and of sort order 0 unless the body says otherwise |
| PermissionRoutes.CreateCheck | backend/app/routes/permission_routes.py:131-142 | the checks pass exactly when name and code are given and both are new; a taken name is reported; every failure is a 400 |
| PermissionRoutes.CreatePermission | backend/app/routes/permission_routes.py:125-174 | a failed check changes nothing; otherwise exactly the new permission is appended; codes stay unique and every link still names a permission |
| PermissionRoutes.AppendKeeps | backend/app/routes/permission_routes.py:144-157 | a permission with a fresh id and code keeps ids and codes unique and links resolving |
| PermissionRoutes.Patched | backend/app/routes/permission_routes.py:193-228 | every key present replaces its column and every absent key keeps it; id and system flag never change; an empty patch changes nothing |
| PermissionRoutes.UpdateCheck | backend/app/routes/permission_routes.py:178-205 | unknown is 404 and a system permission 403; a taken code is a 400; a passing check means the permission exists, is not a system one, the body is not empty and the code is free |
| PermissionRoutes.PatchKeeps | backend/app/routes/permission_routes.py:193-228 | a patch with a free code keeps ids and codes unique and links resolving |
| PermissionRoutes.UpdatePermission | backend/app/routes/permission_routes.py:178-247 | a failed check changes nothing; success patches only that row; codes stay unique and links resolving |
| PermissionRoutes.SystemPermissionNotUpdated | backend/app/routes/permission_routes.py:186-187 | a system permission is always refused with 403, whatever the body |
| PermissionRoutes.DropPermission | backend/app/routes/permission_routes.py:267-268 | deleting a permission keeps every other permission, in order |
| PermissionRoutes.DropKeeps | backend/app/routes/permission_routes.py:267-268 | after the delete the permission is gone, the rest keep unique ids and codes, and an unused permission leaves every link resolving |
| PermissionRoutes.DropResolves | backend/app/routes/permission_routes.py:263-268 | deleting a permission no role uses leaves every link naming a permission |
| PermissionRoutes.DeletePermission | backend/app/routes/permission_routes.py:251-282 | unknown is 404, a system permission 403, one still used by roles 400 with their count; success happens exactly otherwise and removes only that row; failures change nothing |
| PermissionRoutes.BatchStep | backend/app/routes/permission_routes.py:345-380 | the result names the id; an unknown permission fails with "权限不存在" and an unknown operation fails without changing anything |
| PermissionRoutes.BatchRun | backend/app/routes/permission_routes.py:344-380 | one result per id |
| PermissionRoutes.StepKeeps | backend/app/routes/permission_routes.py:345-380 | one step keeps the table well formed and never removes a system permission or one in use |
| PermissionRoutes.BatchKeeps | backend/app/routes/permission_routes.py:344-380 | the batch keeps the table well formed, never removes a system permission, and a delete batch never removes one a role uses |
| PermissionRoutes.UnknownOpChangesNothing | backend/app/routes/permission_routes.py:371-374 | an unknown operation changes nothing and fails every id |
| PermissionRoutes.FlagStep | backend/app/routes/permission_routes.py:365-370 | an enable or disable step keeps every reported permission at the wanted status |
| PermissionRoutes.FlagBatch | backend/app/routes/permission_routes.py:344-380 | after an enable or disable batch every permission reported successful has the wanted status |
| PermissionRoutes.BatchOne | backend/app/routes/permission_routes.py:345-380 | one pass of the loop does exactly the step |
| PermissionRoutes.BatchRunNext | backend/app/routes/permission_routes.py:344-380 | the run over one more id is the run so far followed by one step |
| PermissionRoutes.RunBatch | backend/app/routes/permission_routes.py:344-380 | the loop ends with the table and results of the step-by-step run, counters adding up to the ids |
| PermissionRoutes.BatchPermissionOperation | backend/app/routes/permission_routes.py:330-402 | an empty id list or operation is a 400 that changes nothing; otherwise the table and results are those of the step-by-step run |
| Sessions.NewSession | backend/app/models/user_session.py:23-29 | a new session carries the given id and user, expires the given hours after now, is active, starts its login and activity at now and holds an empty store |
| Sessions.NewSessionLive | backend/app/models/user_session.py:70-72 | a fresh session with a non-negative lifetime is live exactly up to its expiry time |
| Sessions.CreateSession | backend/app/models/user_session.py:145-149 | exactly the new session is appended and no other table changes |
| Sessions.GetActiveSession | backend/app/models/user_session.py:104-109 | a session is returned exactly when it exists, is active and is not expired |
| Sessions.Invalidate | backend/app/models/user_session.py:74-77 | only that session's active flag changes, to false |
| Sessions.InvalidatedNeverActive | backend/app/models/user_session.py:74-77 | an invalidated session is never returned as active again, whatever the clock |
| Sessions.FindSessionSameIds | backend/app/models/user_session.py:99-101 | tables with the same ids position by position find the same row |
| Sessions.UpdateActivity | backend/app/models/user_session.py:41-44 | only that session's last activity changes, to now |
| Sessions.ExtendSession | backend/app/models/user_session.py:46-49 | only that session's expiry changes, to the given hours after now |
| Sessions.ExtendEffect | backend/app/models/user_session.py:46-49 | extending never revives an invalidated session and keeps an active one live for the whole new period, even one already expired |
| Sessions.GetAllData | backend/app/models/user_session.py:63-68 | the decoded store when it decodes; empty, NULL and undecodable text all read as `{}` |
| Sessions.GetData | backend/app/models/user_session.py:58-61 | the stored value of a present key, the default for an absent one |
| Sessions.SetData | backend/app/models/user_session.py:51-56 | the stored keys are the old ones plus the new key |
| Sessions.SetThenGet | backend/app/models/user_session.py:51-61 | reading a key just set gives the value set; every other key reads as before |
| Sessions.SetOnUndecodable | backend/app/models/user_session.py:51-68 | setting a key on an undecodable store keeps only that key |
| Sessions.SetDataOn | backend/app/models/user_session.py:51-56 | only that session's store changes |
| Sessions.GetUserSessions | backend/app/models/user_session.py:112-117 | exactly the user's sessions, only the active ones when asked |
| Sessions.ListingIgnoresExpiry | backend/app/models/user_session.py:112-117 | the active-only listing keeps an active session that has expired |
| Sessions.Deactivated | backend/app/models/user_session.py:132-142 | a selected session is deactivated; any other stays as it was |
| Sessions.InvalidateUserSessions | backend/app/models/user_session.py:132-142 | the loop deactivates exactly the user's active sessions other than the excluded one and returns their number; nothing else changes |
| Sessions.InvalidateEffect | backend/app/models/user_session.py:132-142 | afterwards none of the user's sessions but the excluded one is active; other users' sessions and the excluded one are untouched |
| Sessions.Unexpired | backend/app/models/user_session.py:120-129 | the sweep keeps exactly the sessions not expired |
| Sessions.CleanupExpiredSessions | backend/app/models/user_session.py:120-129 | the loop deletes every expired session, active or not, keeps the rest and returns the number deleted |
| Sessions.CleanupCount | backend/app/models/user_session.py:120-129 | the count and the rows kept add up to the table swept |
| Sessions.CleanupIdempotent | backend/app/models/user_session.py:120-129 | no expired row is left, and a second sweep at the same time deletes nothing |
| Gate.BearerToken | backend/app/auth.py:16-24 | the token is space-free; a missing header or one not starting with "Bearer " gives no token; a token is taken from after the prefix |
| Gate.BearerTokenIsSecondPiece | backend/app/auth.py:20 | the token is the second piece of the header split at spaces |
| Gate.BearerRoundTrip | backend/app/auth.py:16-24 | a header carrying a non-empty space-free token yields that token back |
| Gate.ClaimedUser | backend/app/auth.py:30-33 | a user is named exactly when the `user_id` claim is a non-negative integer, and it is that integer |
| Gate.Authenticate | backend/app/auth.py:8-46 | every refusal is a 401; no token is "缺少Token"; an expired token is refused; a request is admitted exactly when the token decodes and names an existing user, and then as that user |
| Gate.Check | backend/app/auth.py:48-146 | the shared checks decide first; `require_auth` admits whoever they admit; the role and permission guards also refuse a disabled user and a missing role or code with 403 |
| Gate.DisabledUser | backend/app/auth.py:78-81 | a disabled user passes `require_auth` but is refused with "账户已被禁用" by the role and permission guards |
| Gate.WithSessionClaim | backend/app/auth.py:8-146 | the claims with `session_id` replaced and nothing else changed |
| Gate.SessionClaimIgnored | backend/app/auth.py:8-146 | no guard reads the `session_id` claim, so a token whose session has ended is still admitted |
| Gate.VerifyToken | backend/app/auth.py:148-165 | a user is returned exactly when the token decodes to an existing enabled user |
| Gate.VerifyTokenAgrees | backend/app/auth.py:8-165 | `verify_token` accepts exactly the bearer tokens the shared checks admit, minus those of disabled users |
| AuthRoutes.RoleText | backend/app/routes/auth_routes.py:65 | the role claim is one of the three legacy role texts |
| AuthRoutes.ClaimsMap | backend/app/routes/auth_routes.py:61-71 | the signed payload has exactly the claims user_id, username, role, session_id and exp; its user and session claims name the user and the new session |
| AuthRoutes.LoginCheck | backend/app/routes/auth_routes.py:21-36 | each failure reply (400 missing field, 404 unknown user, 403 disabled, 401 wrong password) is given exactly when its check is the first to fail |
| AuthRoutes.LoginAgreesWithAuthenticate | backend/app/routes/auth_routes.py:21-36 | with both fields given, the route lets a login through exactly when `User.authenticate` would |
| AuthRoutes.Login | backend/app/routes/auth_routes.py:15-84 | a failed check changes nothing; success records the login on the user's row and appends exactly one session with the new id |
| AuthRoutes.LoginCounts | backend/app/routes/auth_routes.py:40-52 | a successful login raises the user's login count by exactly one and adds exactly one session |
| AuthRoutes.Logout | backend/app/routes/auth_routes.py:88-98 | logout answers success and changes no table: no session is ended |
| AuthRoutes.ChangePassword | backend/app/routes/auth_routes.py:118-147 | a missing old or new password is a 400; a matching old password replaces only the user's hash; a wrong one is a 401 that changes nothing |
| AuthRoutes.RemoveAll | backend/app/routes/auth_routes.py:209 | removing every occurrence of the prefix never lengthens the header |
| AuthRoutes.RemoveAllSpaceFree | backend/app/routes/auth_routes.py:209 | a space-free text holds no "Bearer ", so nothing is removed from it |
| AuthRoutes.HeaderTokenRoundTrip | backend/app/routes/auth_routes.py:209 | a bearer header with a space-free token gives back that token |
| AuthRoutes.ClaimedSession | backend/app/routes/auth_routes.py:222-224 | a session is claimed exactly when `session_id` is present and is text, and it is that text |
| AuthRoutes.VerifyCheck | backend/app/routes/auth_routes.py:206-244 | every refusal is a 401; an empty token is "Token不能为空"; a token passes exactly when it decodes to an existing enabled user and any claimed session is live |
| AuthRoutes.VerifyTokenRoute | backend/app/routes/auth_routes.py:206-244 | a refused token changes nothing; an accepted one refreshes the claimed session's activity time and nothing else |
| AuthRoutes.VerifyImpliesGate | backend/app/routes/auth_routes.py:206-244 | a token this route accepts is admitted by `require_auth` and by `verify_token` |
| AuthRoutes.SessionCheckOnlyHere | backend/app/routes/auth_routes.py:221-226 | after a token's session is ended this route refuses the token while `require_auth` still admits it |
| AuthRoutes.LoginThenVerify | backend/app/routes/auth_routes.py:47-57 | a token built from a successful login passes this route throughout the 24 hours of its new session |
| AuthRoutes.FindSessionAppended | backend/app/routes/auth_routes.py:48-52 | a session appended under a fresh id is found at the end |
| AuthRoutes.TerminateSession | backend/app/routes/auth_routes.py:167-188 | a session that exists and belongs to the caller is deactivated; any other request is a 404 that changes nothing |
| AuthRoutes.TerminateOnlyOwn | backend/app/routes/auth_routes.py:167-188 | whatever the caller asks, other users' sessions keep their state |
| AuthRoutes.CleanupRoute | backend/app/routes/auth_routes.py:192-203 | the sweep deletes exactly the expired sessions and reports their number |
| AuthRoutes.RegisterCheck | backend/app/routes/auth_routes.py:247-268 | every failure is a 400; a registration passes exactly when every required field is given and the username and address are new; a taken username is refused |
| AuthRoutes.Registered | backend/app/routes/auth_routes.py:270-280 | the new user is an enabled viewer without RBAC role or login, with a fresh id, the given name and address, and the hash of the password |
| AuthRoutes.Register | backend/app/routes/auth_routes.py:247-295 | a failed check changes nothing; success appends exactly the registered user; user ids stay unique |
| AuthRoutes.RegisteredReadsOnly | backend/app/routes/auth_routes.py:270-280 | a registered user holds only "read", whatever roles and permissions exist |
| AuthRoutes.RegisterRejectsDuplicate | backend/app/routes/auth_routes.py:256-268 | registering the same username or address twice is refused the second time |
| UserRoutes.CreateCheck | backend/app/routes/user_routes.py:103-111 | every failure is a 400; a creation passes exactly when username, password, real name and role are all given and the username is new |
| UserRoutes.NewUser | backend/app/routes/user_routes.py:113-122 | the new row has a fresh id, the given username and role, status defaulting to enabled, no RBAC role, no logins, and the hash of the password |
| UserRoutes.CreateUser | backend/app/routes/user_routes.py:98-140 | a failed check changes nothing; success appends exactly the new user; user ids stay unique |
| UserRoutes.CreateRejectsDuplicate | backend/app/routes/user_routes.py:109-111 | creating a second user with a taken username is refused |
| UserRoutes.Patched | backend/app/routes/user_routes.py:155-167 | each of the six editable fields takes the body's value when the key is present and keeps the old one otherwise; id, username, password hash and login data never change |
| UserRoutes.PatchOnlyPresent | backend/app/routes/user_routes.py:155-167 | a body naming none of the editable keys leaves the user as it was |
| UserRoutes.UpdateUser | backend/app/routes/user_routes.py:144-186 | an unknown id is a 404 and an empty body a 400, both changing nothing; otherwise exactly the target row is replaced by its patched form |
| UserRoutes.UpdateIgnoresCanEdit | backend/app/routes/user_routes.py:142-169 | the route lets one admin edit another even though `can_edit_user` forbids it; the target keeps its id |
| UserRoutes.DeleteUserRoute | backend/app/routes/user_routes.py:190-216 | an unknown id is a 404 and the caller's own id a 400, both changing nothing; otherwise exactly that row and its sessions are removed |
| UserRoutes.Survivors | backend/app/routes/user_routes.py:370-375 | a user survives a batch deletion exactly when it was present and its id is not listed |
| UserRoutes.SurvivingSessions | backend/app/routes/user_routes.py:370-375 | a session survives exactly when it was present and does not belong to a listed user that existed |
| UserRoutes.BatchDeleteUsers | backend/app/routes/user_routes.py:356-395 | no body is a 500, an empty list or a list holding the caller's id a 400, all changing nothing; otherwise exactly the listed users that exist are removed with their sessions and the count is the number removed |
| UserRoutes.BatchDeleteUsersAsWritten | backend/app/routes/user_routes.py:356-395 | the refusals are those of `BatchDeleteUsers`; otherwise the listed users and their sessions are deleted as there, yet the reply is the 500 "批量删除失败: " with the `create_log` keyword error, because the log call at lines 381-387 passes `action_type` |
| UserRoutes.DeleteListed | backend/app/routes/user_routes.py:370-375 | the loop leaves exactly the survivors and their sessions and counts the removed rows |
| UserRoutes.BatchDeleteCount | backend/app/routes/user_routes.py:370-375 | the count equals the number of rows whose id is listed, and none of them survives |
| UserRoutes.ResetPassword | backend/app/routes/user_routes.py:220-248 | an unknown id is a 404; a missing body, or a `new_password` that is not a JSON string (`null` included), is a 500 on which the hash raises; both change nothing; otherwise only the target's hash changes, to the hash of the given password or of "123456" |
| UserRoutes.NewPassword | backend/app/routes/user_routes.py:228-230 | the password handed to the hash is "123456" without the key and the text of a JSON string; there is none, and the hash raises, exactly for any other value |
| UserRoutes.NullPasswordRefused | backend/app/routes/user_routes.py:228-230 | a `null` password gives no password to hash, while an absent key gives "123456" |
| UserRoutes.ForceLogout | backend/app/routes/user_routes.py:325-352 | an unknown id is a 404 that changes nothing; otherwise every session of the user is deactivated, the others are untouched, and the reply counts the ones that were active |
| UserRoutes.ForceLogoutAsWritten | backend/app/routes/user_routes.py:325-352 | an unknown id is the 404; otherwise every session of the user is deactivated as in `ForceLogout`, yet the reply is the 500 "强制下线失败: " with the `create_log` keyword error, because the log call at lines 337-344 passes `action_type` |
| UserRoutes.ForcedOut | backend/app/routes/user_routes.py:332-333 | after a forced logout none of the user's sessions is live at any time |
| Categories.CategoryNodes | backend/app/models/courseware_category.py:11 | the category table read as a forest: one node per row, with the row's id and parent |
| Categories.PathNames | backend/app/models/courseware_category.py:80-87 | the names above a category are one per ancestor of its parent |
| Categories.FullPathNames | backend/app/models/courseware_category.py:80-87 | a category's path has one name per ancestor plus its own name, which comes last |
| Categories.GetFullPath | backend/app/models/courseware_category.py:80-87 | the parent-walking loop yields the names from the root down, joined by " > " |
| Categories.FullPathOfRoot | backend/app/models/courseware_category.py:80-87 | a category without a (stored) parent has just its own name as its path |
| Categories.FullPathOfChild | backend/app/models/courseware_category.py:80-87 | a child's path is its parent's path, " > ", then its own name |
| Categories.AllChildren | backend/app/models/courseware_category.py:89-95 | the collected descendants hold no repeat and never the category itself |
| Categories.AllChildrenExact | backend/app/models/courseware_category.py:89-95 | a row is collected exactly when the category is among its ancestors |
| Categories.CanDelete | backend/app/models/courseware_category.py:97-100 | a category may be deleted exactly when no category has it as parent and no courseware is filed under it |
| Categories.CanDeleteIsLeaf | backend/app/models/courseware_category.py:97-100 | a deletable category has no descendants |
| Categories.DeleteKeepsTree | backend/app/models/courseware_category.py:97-100 | removing a deletable category leaves a well-formed category tree |
| Categories.CategoryRow.constructor | backend/app/models/courseware_category.py:4-19 | a new row holds exactly the given columns |
| Categories.CategoryRow.Activate | backend/app/models/courseware_category.py:102-105 | only the active flag changes, to true |
| Categories.CategoryRow.Deactivate | backend/app/models/courseware_category.py:107-110 | only the active flag changes, to false |
| CoursewareRoutes.LastIndex | backend/app/routes/courseware_routes.py:24 | the position of the last occurrence of the character, or -1 when it does not occur |
| CoursewareRoutes.LastIndexIs | backend/app/routes/courseware_routes.py:24 | any position holding the character with none after it is the last occurrence |
| CoursewareRoutes.SplitExt | backend/app/routes/courseware_routes.py:24 | `os.path.splitext`: stem and extension concatenate back to the path; a non-empty extension is one dot and then no dot or slash, after a stem whose last component has a non-dot character |
| CoursewareRoutes.SplitExtJoin | backend/app/routes/courseware_routes.py:24 | splitting "stem.ext" gives back the stem and ".ext" |
| CoursewareRoutes.SplitExtHidden | backend/app/routes/courseware_routes.py:24 | a name such as ".pdf" has no extension: the leading dot marks a hidden file |
| CoursewareRoutes.LastIndexLower | backend/app/routes/courseware_routes.py:24 | lower-casing moves no dot and no slash |
| CoursewareRoutes.SplitExtLower | backend/app/routes/courseware_routes.py:24 | splitting the lower-cased name gives the lower-cased parts of the split |
| CoursewareRoutes.AllowedFile | backend/app/routes/courseware_routes.py:21-24 | a file is allowed exactly when its lower-cased extension is one of the thirteen listed; an allowed name has a stem |
| CoursewareRoutes.DotOfExtension | backend/app/routes/courseware_routes.py:23-24 | the `'.' in filename` test is implied by the extension test |
| CoursewareRoutes.AllowedByExtension | backend/app/routes/courseware_routes.py:18-24 | "stem.ext" is allowed whenever ".ext", in any letter case, is listed |
| CoursewareRoutes.HiddenNameRefused | backend/app/routes/courseware_routes.py:21-24 | a bare ".pdf" is refused |
| CoursewareRoutes.FileType | backend/app/routes/courseware_routes.py:79-99 | the stored type is the extension without its dot: it holds no dot and no slash |
| CoursewareRoutes.Upload | backend/app/routes/courseware_routes.py:35-108 | an upload succeeds exactly when there is a named file of an allowed type within 100 MiB, the title is free and any category given exists; a non-numeric category crashes the handler; every refusal is a 400; the new row is published, owned by the uploader, with zero counters, the default title being the file name less its extension |
| CoursewareRoutes.SizeLimitInclusive | backend/app/routes/courseware_routes.py:54-55 | exactly 100 MiB is accepted and one byte more is refused |
| CoursewareRoutes.UploadKeepsTitlesUnique | backend/app/routes/courseware_routes.py:67-69 | a successful upload keeps titles unique across the catalogue |
| CoursewareRoutes.SecondUploadRefused | backend/app/routes/courseware_routes.py:67-69 | uploading again under the same title is refused |
| CoursewareRoutes.Delete | backend/app/routes/courseware_routes.py:329-355 | deletion succeeds exactly when the item exists and the user is an admin or its uploader; then only that item goes; otherwise 404 or 403 and nothing changes |
| CoursewareRoutes.OrphanOnlyByAdmin | backend/app/routes/courseware_routes.py:336-338 | an item without uploader can be deleted by admins only |
| CoursewareRoutes.DeleteTwice | backend/app/routes/courseware_routes.py:332-334 | deleting the same item again is a 404 |
| CoursewareRoutes.NewUsage | backend/app/routes/courseware_routes.py:562-574 | the usage row has the caller, the device defaulting to "WEB-CLIENT", the action to "view" and the duration to 0 |
| CoursewareRoutes.Recorded | backend/app/routes/courseware_routes.py:578-582 | recording a use adds one view, adds one download exactly for "download", and changes nothing else |
| CoursewareRoutes.CountersMatchLog | backend/app/routes/courseware_routes.py:578-582 | after any sequence of recorded uses, the views grew by their number and the downloads by the number of "download" actions |
| CoursewareRoutes.RecordUsage | backend/app/routes/courseware_routes.py:555-590 | an unknown item is a 404 that changes nothing; otherwise only that item's counters are advanced |
| CoursewareRoutes.PreviewMime | backend/app/routes/courseware_routes.py:747-765 | a guessed type is used when there is one; otherwise the extension table gives the type, octet-stream exactly for unlisted extensions |
| CoursewareRoutes.FallbackInline | backend/app/routes/courseware_routes.py:752-776 | without a guess, a file is shown inline exactly for the seven previewable extensions |
| CoursewareRoutes.AllowedHaveMime | backend/app/routes/courseware_routes.py:752-764 | every uploadable extension but .zip and .rar has a fallback type |
| CoursewareRoutes.PreviewOf | backend/app/routes/courseware_routes.py:767-799 | a previewable type is sent inline under "title.type"; any other gets the information reply with the title and type |
| CoursewareRoutes.BatchStep | backend/app/routes/courseware_routes.py:894-930 | one entry for the id, successful exactly when the item exists, the operation is known and any category given exists; a failure changes nothing; only "delete" removes a key; other items are untouched |
| CoursewareRoutes.BatchRun | backend/app/routes/courseware_routes.py:894-930 | one result per listed id, in list order |
| CoursewareRoutes.BatchKeepsOthers | backend/app/routes/courseware_routes.py:894-930 | no key is added and every item not listed keeps its value |
| CoursewareRoutes.UnknownBatchOp | backend/app/routes/courseware_routes.py:920-923 | an unknown operation changes nothing and succeeds nowhere |
| CoursewareRoutes.ChangeCategoryWithoutCategory | backend/app/routes/courseware_routes.py:910-919 | "change_category" without a category changes nothing yet reports success for every existing item |
| CoursewareRoutes.BatchDeactivateArchives | backend/app/routes/courseware_routes.py:907-909 | after "deactivate" every listed item still present is archived |
| CoursewareRoutes.PreviewUsage | backend/app/routes/courseware_routes.py:724-732 | the preview's usage row is a "view" by the caller without duration, on the given device or "WEB-CLIENT" |
| CoursewareRoutes.Library.constructor | backend/app/routes/courseware_routes.py:14-19 | an empty catalogue and usage log |
| CoursewareRoutes.Library.UploadCourseware | backend/app/routes/courseware_routes.py:35-129 | a refusal or crash changes nothing; success stores exactly the uploaded row under a fresh id; the usage log is untouched |
| CoursewareRoutes.Library.AddItem | backend/app/models/courseware.py:34-37 | the row is stored under the next free id and nothing else changes |
| CoursewareRoutes.Library.DeleteCourseware | backend/app/routes/courseware_routes.py:329-355 | the reply and the new catalogue are those of `Delete` |
| CoursewareRoutes.Library.RecordCoursewareUsage | backend/app/routes/courseware_routes.py:555-590 | the reply and catalogue are those of `RecordUsage`; a usage row is appended exactly when the item exists |
| CoursewareRoutes.Library.CountUse | backend/app/routes/courseware_routes.py:578-582 | only the given item's counters change, as `Recorded` says |
| CoursewareRoutes.Library.PreviewCourseware | backend/app/routes/courseware_routes.py:715-799 | an unknown item or a missing file is a 404 that changes nothing; otherwise one view is counted, one usage row appended and the reply is `PreviewOf` |
| CoursewareRoutes.Library.BatchOne | backend/app/routes/courseware_routes.py:894-930 | one pass of the loop does what `BatchStep` says and never adds an item |
| CoursewareRoutes.Library.BatchAll | backend/app/routes/courseware_routes.py:890-930 | the loop's catalogue and results are those of `BatchRun`; the counts add up to the list length and count the successes |
| CoursewareRoutes.Library.BatchCoursewareOperation | backend/app/routes/courseware_routes.py:880-952 | an empty list or operation is a 400 that changes nothing; otherwise the outcome of `BatchAll` with the summary message |
| CoursewareRoutes.Library.BatchCoursewareOperationAsWritten | backend/app/routes/courseware_routes.py:880-952 | the empty request is the 400; otherwise the catalogue becomes that of `BatchRun`, yet the reply is the 500 "批量操作失败: " with the `create_log` keyword error, because the log call at lines 934-940 passes `action_type` |
| CoursewareUsages.ActionDisplay | backend/app/models/courseware_usage.py:52-60 | each of the four actions gets its label; "未知" exactly for any other action |
| CoursewareUsages.ActionDisplayInjective | backend/app/models/courseware_usage.py:54-59 | different known actions get different labels |
| CoursewareUsages.DurationDisplay | backend/app/models/courseware_usage.py:62-76 | no text exactly for a missing or zero duration; under a minute "N秒"; under an hour whole minutes and the remaining seconds; from an hour on whole hours and minutes, seconds dropped |
| CoursewareUsages.MinuteMark | backend/app/models/courseware_usage.py:67-72 | below an hour the text mentions minutes exactly from 60 seconds on |
| CoursewareUsages.MinutesText | backend/app/models/courseware_usage.py:69-72 | between a minute and an hour the numbers shown are the floor quotient and remainder by 60 |
| CoursewareUsages.MinSecInjective | backend/app/models/courseware_usage.py:72 | the minutes-and-seconds text determines both numbers |
| CoursewareUsages.MinutesInjective | backend/app/models/courseware_usage.py:69-72 | two durations between a minute and an hour with the same text are equal |
| CoursewareUsages.DurationDisplayInjective | backend/app/models/courseware_usage.py:62-72 | below an hour the text determines the duration |
| CoursewareUsages.HoursDropSeconds | backend/app/models/courseware_usage.py:73-76 | from an hour on, durations differing only in seconds show the same text |
| CoursewareUsages.CountAction | backend/app/models/courseware_usage.py:158-167 | the count of one action never exceeds the number of records |
| CoursewareUsages.Users | backend/app/models/courseware_usage.py:174-175 | there are no more distinct users than records |
| CoursewareUsages.EquipmentIds | backend/app/models/courseware_usage.py:176 | there are no more distinct devices than records |
| CoursewareUsages.ActionsAddUp | backend/app/models/courseware_usage.py:158-167 | when every action is one of the four, the four counts add up to the number of records |
| CoursewareUsages.CoursewareQuery | backend/app/models/courseware_usage.py:138-143 | a record is selected exactly when it is about the courseware and no older than the window |
| CoursewareUsages.CountRecord | backend/app/models/courseware_usage.py:158-182 | one record adds one to its own action's count, its truthy duration to the total, its truthy user and its device to the sets, and one to its day |
| CoursewareUsages.GetCoursewareStatistics | backend/app/models/courseware_usage.py:136-193 | every figure equals its definition over the selected records; distinct users and devices never exceed the total; the daily counts add up to the total; with known actions so do the four action counts |
| CoursewareUsages.InsertDesc | backend/app/models/courseware_usage.py:237-239 | inserting into a non-increasing list keeps it non-increasing and adds exactly the new pair |
| CoursewareUsages.SortDesc | backend/app/models/courseware_usage.py:237-239 | the result is non-increasing by count and a permutation of the input |
| CoursewareUsages.EquipmentQuery | backend/app/models/courseware_usage.py:198-203 | a record is selected exactly when it is about the device and no older than the window |
| CoursewareUsages.Top | backend/app/models/courseware_usage.py:239 | the first ten, or all when fewer |
| CoursewareUsages.PairIsCount | backend/app/models/courseware_usage.py:237-239 | every listed pair carries the true count of its courseware |
| CoursewareUsages.CountHasPair | backend/app/models/courseware_usage.py:237-239 | every counted courseware is listed with its count |
| CoursewareUsages.TopOfSorted | backend/app/models/courseware_usage.py:237-240 | the head of a sorted complete list is a top ten: true counts, no repeats, and nothing left out counts more than what was kept |
| CoursewareUsages.TopTen | backend/app/models/courseware_usage.py:237-240 | sorting the tallied pairs and keeping ten yields a top ten of the tally |
| CoursewareUsages.CountEquipmentRecord | backend/app/models/courseware_usage.py:213-231 | one record adds its courseware to the set and one to its courseware's, action's and day's counts, first-seen coursewares joining the order |
| CoursewareUsages.GetEquipmentUsageStatistics | backend/app/models/courseware_usage.py:196-242 | the total, the distinct coursewares and the per-action and per-day counts equal their definitions; the popular list is a top ten of the per-courseware tally; per-action and per-day counts each add up to the total |
| CoursewareUsages.EquipmentSoFarDone | backend/app/models/courseware_usage.py:213-240 | when the loop ends its maps are the tallies, the set is the tally's keys, and the ranked list is a top ten |
| CoursewareUsages.PopularPairs | backend/app/models/courseware_usage.py:237-238 | one pair per counted courseware |
| Dashboard.AddPart | backend/app/models/dashboard_statistics.py:103-109 | a part is appended exactly when its amount is positive |
| Dashboard.PartsOf | backend/app/models/dashboard_statistics.py:103-111 | one to four parts, each of the four units at most once with its own amount, every part but the last positive, so seconds appear when positive or when nothing else does |
| Dashboard.UptimeParts | backend/app/models/dashboard_statistics.py:98-111 | a positive uptime shows one to four parts |
| Dashboard.UptimeDisplay | backend/app/models/dashboard_statistics.py:93-113 | no uptime or zero shows "0秒" |
| Dashboard.Split | backend/app/models/dashboard_statistics.py:98-101 | the hours, minutes and seconds are in range and together with the days add back up to the uptime |
| Dashboard.AddPartWeight | backend/app/models/dashboard_statistics.py:103-111 | appending a part adds its amount in seconds to the total shown |
| Dashboard.PartsOfWeight | backend/app/models/dashboard_statistics.py:103-111 | the parts shown add up to days, hours, minutes and seconds in seconds |
| Dashboard.UptimePartsAddUp | backend/app/models/dashboard_statistics.py:93-113 | the text shown for a positive uptime adds back up to exactly that uptime, with hours below 24 and minutes and seconds below 60 |
| Dashboard.ZeroCounts | backend/app/models/dashboard_statistics.py:12-29 | a new row has every counter column at 0 |
| Dashboard.SetFirstOnly | backend/app/models/dashboard_statistics.py:196-209 | after the first n arguments a column holds the last value given for it, else its old value |
| Dashboard.SetGivenOnly | backend/app/models/dashboard_statistics.py:196-209 | a column holds the last non-None value given for it, and keeps its value when none is given |
| Dashboard.SetGivenIdempotent | backend/app/models/dashboard_statistics.py:196-209 | applying the same update twice is the same as once |
| Dashboard.SetGivenTwo | backend/app/models/dashboard_statistics.py:227-252 | a two-argument update is its two assignments in order |
| Dashboard.SetGivenThree | backend/app/models/dashboard_statistics.py:254-271 | a three-argument update is its three assignments in order |
| Dashboard.SetGivenFive | backend/app/models/dashboard_statistics.py:196-209 | a five-argument update is its five assignments in order |
| Dashboard.SetGivenKeepsColumns | backend/app/models/dashboard_statistics.py:196-209 | updating counter columns adds no column and drops none |
| Dashboard.LastGivenNamed | backend/app/models/dashboard_statistics.py:196-209 | a value taken for a column was given under that column's name |
| Dashboard.Incremented | backend/app/models/dashboard_statistics.py:211-225 | one counter grows by the count and every other counter is unchanged |
| Dashboard.IncrementsAdd | backend/app/models/dashboard_statistics.py:211-225 | two increments of one counter are one increment by their sum |
| Dashboard.IncrementsCommute | backend/app/models/dashboard_statistics.py:211-225 | increments of any two counters commute |
| Dashboard.StatisticsRow.constructor | backend/app/models/dashboard_statistics.py:5-34 | a new row holds exactly the given values |
| Dashboard.StatisticsRow.SetCounter | backend/app/models/dashboard_statistics.py:198-199 | one `if value is not None` assignment |
| Dashboard.StatisticsRow.UpdateDeviceCounts | backend/app/models/dashboard_statistics.py:196-209 | the five device counters take the given values; the date, hour and every other counter are unchanged |
| Dashboard.StatisticsRow.UpdateUserStats | backend/app/models/dashboard_statistics.py:227-234 | the two user counters take the given values, nothing else changes |
| Dashboard.StatisticsRow.UpdateContentStats | backend/app/models/dashboard_statistics.py:236-243 | the courseware and navigation point counters take the given values, nothing else changes |
| Dashboard.StatisticsRow.UpdateOperationStats | backend/app/models/dashboard_statistics.py:245-252 | the two operation counters take the given values, nothing else changes |
| Dashboard.StatisticsRow.UpdatePerformanceMetrics | backend/app/models/dashboard_statistics.py:254-271 | peak users, data transfer and uptime take the given values, nothing else changes |
| Dashboard.StatisticsRow.IncrementCourses | backend/app/models/dashboard_statistics.py:211-214 | only the delivered courses counter grows, by the count |
| Dashboard.StatisticsRow.IncrementTours | backend/app/models/dashboard_statistics.py:216-219 | only the conducted tours counter grows, by the count |
| Dashboard.StatisticsRow.IncrementInteractions | backend/app/models/dashboard_statistics.py:221-225 | only the interactions counter grows, by the count |
| Dashboard.FindByDate | backend/app/models/dashboard_statistics.py:137-139 | the first row of the date, or none exactly when no row has that date |
| Dashboard.Applied | backend/app/models/dashboard_statistics.py:186-188 | a column takes the keyword's value when it is given and is a column; the key set stays the same |
| Dashboard.CreateOrUpdateToday | backend/app/models/dashboard_statistics.py:179-194 | a saved row has today's date; a keyword that names no mapped column fails exactly when a new row must be built, and a new row built from mapped columns is saved at the end of the table |
| Dashboard.UpsertToday | backend/app/models/dashboard_statistics.py:179-194 | today's row then holds the given values for the named columns and its earlier values, or 0 for a new row, for the rest; other rows are unchanged and dates stay unique |
| Dashboard.TodayFoundAgain | backend/app/models/dashboard_statistics.py:182-188 | a second call the same day updates the row saved by the first instead of adding another |
| Dashboard.Percent | backend/app/models/dashboard_statistics.py:332-355 | the fallback when the whole is zero, otherwise a percentage between 0 and 100 for a part within the whole |
| Dashboard.OnlineRate | backend/app/models/dashboard_statistics.py:332-336 | 0 when there are no devices |
| Dashboard.ErrorRate | backend/app/models/dashboard_statistics.py:338-342 | 0 when there are no devices |
| Dashboard.SuccessRate | backend/app/models/dashboard_statistics.py:344-349 | 100 when there were no operations |
| Dashboard.UserActivityRate | backend/app/models/dashboard_statistics.py:351-355 | 0 when there are no users |
| Dashboard.SuccessRateComplement | backend/app/models/dashboard_statistics.py:344-349 | with failures within the total, the success and failure percentages lie in 0..100 and add up to 100 |
| EducationRoutes.FindSetting | backend/app/models/education_settings.py:56-58 | the position of a row with the id, or none exactly when no row has it |
| EducationRoutes.Merged | backend/app/routes/education_routes.py:120-129 | every classroom field takes the body's value when given and keeps the stored one otherwise; the editor is recorded |
| EducationRoutes.Created | backend/app/routes/education_routes.py:133-146 | a new classroom setting is the request defaults ("auto", "xunfei", "语文", "male", "standard", both switches on, "default") merged with the body |
| EducationRoutes.MergedIdempotent | backend/app/routes/education_routes.py:120-129 | sending the same body twice gives the same setting as once |
| EducationRoutes.FindByEquipment | backend/app/routes/education_routes.py:117 | the position of a row of the device, or none exactly when the device has none |
| EducationRoutes.UpsertSetting | backend/app/routes/education_routes.py:116-146 | the saved row belongs to the device and names the editor |
| EducationRoutes.UpsertSettingSpec | backend/app/routes/education_routes.py:116-146 | at most one row per device is kept; a device's existing row is updated in place keeping its id and course fields, and a row is added exactly when the device had none; other rows are untouched and ids stay below the next id |
| EducationRoutes.FindByName | backend/app/routes/education_routes.py:345 | the position of a row with the name, or none exactly when no row has it |
| EducationRoutes.AppendFreeName | backend/app/routes/education_routes.py:344-366 | appending a row whose name is free, or NULL, keeps names unique |
| EducationRoutes.PyText | backend/app/routes/education_routes.py:342 | a missing text is formatted as "None" |
| EducationRoutes.FindByNullableName | backend/app/routes/education_routes.py:345 | the first row whose name equals the looked-up name, a NULL matching the NULL names; none exactly when no row has it; for a text name, found exactly when it is taken |
| EducationRoutes.CopyName | backend/app/routes/education_routes.py:341-342 | the value sent under `name` when the key is present, NULL for a `null`; otherwise the original's name followed by " (副本)" |
| EducationRoutes.NullCopyName | backend/app/routes/education_routes.py:342 | a `null` name gives a NULL name for the copy, while an absent key gives the default name |
| EducationRoutes.CopyOf | backend/app/routes/education_routes.py:348-365 | the copy has a fresh id, no device, the new (possibly NULL) name, status "inactive" and the copier as creator; every other course field equals the original's |
| EducationRoutes.Candidate | backend/app/routes/education_routes.py:569 | every suffixed candidate extends the original name |
| EducationRoutes.CandidateNotOriginal | backend/app/routes/education_routes.py:569 | no candidate equals the original name |
| EducationRoutes.CandidateInjective | backend/app/routes/education_routes.py:569 | different counters give different candidates |
| EducationRoutes.Names | backend/app/routes/education_routes.py:568 | the set of names in use |
| EducationRoutes.Tried | backend/app/routes/education_routes.py:566-570 | every candidate before the current counter has been tried |
| EducationRoutes.NextNotTried | backend/app/routes/education_routes.py:566-570 | the name about to be checked has not been tried before |
| EducationRoutes.TriedGrows | backend/app/routes/education_routes.py:566-570 | each taken candidate is one more used name ruled out, so the loop ends |
| EducationRoutes.ImportName | backend/app/routes/education_routes.py:564-570 | the chosen name is free; it is the original exactly when that is free, otherwise the first free "(导入k)" candidate, all earlier ones taken |
| EducationRoutes.MissingImportField | backend/app/routes/education_routes.py:558-562 | no field is missing exactly when name, category, age group and difficulty are all filled; "name" is reported exactly when the name is missing |
| EducationRoutes.Imported | backend/app/routes/education_routes.py:572-589 | the new row has a fresh id, no device, the chosen name, status "inactive", the importer as creator, the category given, and 30 minutes and 20 participants by default |
| EducationRoutes.Changed | backend/app/routes/education_routes.py:410-422 | "activate" and "deactivate" set the status and "change_category" the category; id, device and classroom settings never change |
| EducationRoutes.BatchStep | backend/app/routes/education_routes.py:402-437 | one entry for the id, successful exactly when the row exists, the operation is known and a category is given for "change_category"; a failure changes nothing; "delete" removes exactly that row; any other success changes exactly that row |
| EducationRoutes.BatchRun | backend/app/routes/education_routes.py:402-437 | one result per listed id, in list order |
| EducationRoutes.BatchRefusedEverywhere | backend/app/routes/education_routes.py:418-430 | an unknown operation, or "change_category" without a category, changes nothing and succeeds nowhere |
| EducationRoutes.BatchStatusKeepsRows | backend/app/routes/education_routes.py:412-417 | activating or deactivating removes no row and keeps every id and name |
| EducationRoutes.EducationStore.constructor | backend/app/models/education_settings.py:4-22 | an empty table |
| EducationRoutes.EducationStore.CreateSetting | backend/app/routes/education_routes.py:94-164 | a device that cannot be resolved is refused and changes nothing; otherwise the store becomes exactly the upsert of the body for that device |
| EducationRoutes.EducationStore.DeleteSetting | backend/app/routes/education_routes.py:228-250 | an unknown id is a 404 that changes nothing; otherwise exactly that row is removed |
| EducationRoutes.EducationStore.CopySetting | backend/app/routes/education_routes.py:334-383 | an unknown original is a 404; a request without a JSON body is the 500 "教育培训设置复制失败: "; a name some row already has (NULL included) is a 400; all three change nothing; otherwise exactly the copy under `CopyName` is appended; names stay unique |
| EducationRoutes.EducationStore.ImportSetting | backend/app/routes/education_routes.py:549-607 | a request without a JSON body is the 500 "教育培训设置导入失败: "; a false `setting_data` (absent, `null` or empty) is the 400 "请提供导入数据"; a missing required field is a 400 naming it; all three change nothing; otherwise exactly one imported row is appended, under the original name when it is free and else under " (导入k)" with the smallest k whose name is free; names stay unique |
| EducationRoutes.EducationStore.BatchOne | backend/app/routes/education_routes.py:402-437 | one pass of the loop does what `BatchStep` says |
| EducationRoutes.EducationStore.BatchAll | backend/app/routes/education_routes.py:398-437 | the loop's table and results are those of `BatchRun`; the counts add up to the list length and count the successes |
| EducationRoutes.EducationStore.BatchSettingsOperation | backend/app/routes/education_routes.py:388-458 | an empty list or operation is a 400 that changes nothing; otherwise the outcome of `BatchAll` with the summary message |
| Devices.HealthScore | backend/app/models/equipment.py:153-162 | the score is 100, 70, 50 or 20; 100 exactly when the device is online; at most 50 exactly when it is offline; 70 or 20 exactly when it reports an error |
| Devices.StatusDisplay | backend/app/models/equipment.py:133-143 | each of the six statuses gets its label; "未知" exactly for a missing or unlisted status |
| Devices.StatusDisplayInjective | backend/app/models/equipment.py:135-142 | different known statuses get different labels |
| Devices.WithMaintenance | backend/app/models/equipment.py:105-113 | the device is in maintenance exactly when asked; in maintenance it is unavailable; leaving maintenance makes it available exactly when online and "offline" exactly when its offline flag is set; only the status changes |
| Devices.Toggled | backend/app/models/equipment.py:115-119 | toggling flips whether the device is in maintenance and changes only the status |
| Devices.ToggleTwice | backend/app/models/equipment.py:115-119 | toggling twice restores a device in maintenance, or one whose status already matches its offline flag |
| Devices.ToggleTwiceForgets | backend/app/models/equipment.py:105-119 | toggling twice a device outside maintenance resets its status to "online" or "offline", losing e.g. "teaching" |
| Devices.Started | backend/app/models/equipment.py:199-206 | a started device is available with score 100, status "online" and active now; location, address and usage rate are kept |
| Devices.Stopped | backend/app/models/equipment.py:208-213 | a stopped device is not online, scores at most 50, has status "offline", and keeps its error flag, activity time and other fields |
| Devices.StartStopForget | backend/app/models/equipment.py:199-235 | stopping after a start gives the status of stopping alone, and starting after a stop is the same as starting |
| Devices.WithUsageRate | backend/app/models/equipment.py:127-131 | a rate from 0 to 100 is stored and reads back as that number; any other rate changes nothing; nothing else changes |
| Devices.Diagnose | backend/app/models/equipment.py:241-251 | the diagnosis is "healthy" exactly without an error flag, otherwise "error", and reports the health score and the device's flags and activity time |
| Devices.Equipment.constructor | backend/app/models/equipment.py:4-18 | a new row holds exactly the given id and state |
| Devices.Equipment.UpdateStatus | backend/app/models/equipment.py:82-86 | only the status changes, to the given one |
| Devices.Equipment.SetOffline | backend/app/models/equipment.py:88-92 | only the offline flag changes; the score is then at most 50 exactly when the device is offline |
| Devices.Equipment.SetError | backend/app/models/equipment.py:94-98 | only the error flag changes; a device with an error is not online |
| Devices.Equipment.UpdateLastActive | backend/app/models/equipment.py:100-103 | only the activity time changes, to now |
| Devices.Equipment.SetMaintenanceMode | backend/app/models/equipment.py:105-113 | the new state is `WithMaintenance` of the old |
| Devices.Equipment.ToggleMaintenanceMode | backend/app/models/equipment.py:115-119 | the new state is `Toggled` of the old |
| Devices.Equipment.UpdateUsageRate | backend/app/models/equipment.py:127-131 | the new state is `WithUsageRate` of the old |
| Devices.Equipment.Start | backend/app/models/equipment.py:199-206 | the new state is `Started` of the old |
| Devices.Equipment.Stop | backend/app/models/equipment.py:208-213 | the new state is `Stopped` of the old |
| Devices.Equipment.Restart | backend/app/models/equipment.py:215-228 | the intermediate "offline" save is overwritten: the new state is `Started` of the old |
| Devices.Equipment.Shutdown | backend/app/models/equipment.py:230-235 | the new state is `Stopped` of the old |
| Devices.Equipment.Reboot | backend/app/models/equipment.py:237-239 | the new state is `Started` of the old, as for a restart |
| EquipmentRoutes.CreateCheck | backend/app/routes/equipment_routes.py:120-128 | a creation passes exactly when id and location are given and the id is new; every refusal is a 400, "设备ID已存在" for a taken id |
| EquipmentRoutes.NewDevice | backend/app/routes/equipment_routes.py:130-137 | the new device has the given location and address, no activity time, status defaulting to "offline", usage defaulting to "0%", and both flags clear so it counts as online |
| EquipmentRoutes.CreatedStatusDisagrees | backend/app/routes/equipment_routes.py:130-137 | a device created without a status is labelled "offline" while its flags make it online with score 100 |
| EquipmentRoutes.Create | backend/app/routes/equipment_routes.py:115-155 | a refused creation changes nothing; otherwise exactly the new device is added and every other device is kept |
| EquipmentRoutes.Patched | backend/app/routes/equipment_routes.py:170-182 | a field changes only when the body names it; an empty body changes nothing; the activity time never changes; without flag keys whether the device is online is kept |
| EquipmentRoutes.PatchIdempotent | backend/app/routes/equipment_routes.py:170-182 | applying the same update twice is the same as once |
| EquipmentRoutes.Update | backend/app/routes/equipment_routes.py:159-202 | an unknown id is a 404 and a body with no key at all a 400, both changing nothing; otherwise exactly that device is patched, and a body holding only keys the route ignores is a 200 that changes nothing |
| EquipmentRoutes.StatusUpdate | backend/app/routes/equipment_routes.py:298-341 | an unknown id is a 404 and an empty status a 400, both changing nothing; otherwise only that device's status changes; a history record is made exactly when the status really changes, and records the old and new status |
| EquipmentRoutes.SameStatusNoHistory | backend/app/routes/equipment_routes.py:312-321 | setting a device's current status again records no history and changes nothing |
| EquipmentRoutes.ParseAction | backend/app/routes/equipment_routes.py:397-422 | exactly the six control words are actions, each read back under its own name |
| EquipmentRoutes.ParseActionName | backend/app/routes/equipment_routes.py:397-422 | every action's name parses back to that action |
| EquipmentRoutes.Applied | backend/app/routes/equipment_routes.py:397-420 | start, restart and reboot start the device, stop and shutdown stop it, diagnose leaves it as it is |
| EquipmentRoutes.Control | backend/app/routes/equipment_routes.py:382-439 | an unknown id is a 404, an empty action a 400 and an unknown action a 400, all changing nothing; otherwise only that device is changed by the action, with the action's message; a diagnosis is computed exactly for "diagnose", and the reply does not carry it |
| EquipmentRoutes.MaintenanceApplied | backend/app/routes/equipment_routes.py:353-360 | without a mode maintenance is toggled; with one the device is in maintenance exactly as asked; only the status changes |
| EquipmentRoutes.MaintenanceAsWritten | backend/app/routes/equipment_routes.py:345-378 | as written: after the mode is saved, reading the missing `maintenance_mode` attribute fails, so a known device always gets the 500 error reply even though its change was saved |
| EquipmentRoutes.Maintenance | backend/app/routes/equipment_routes.py:345-378 | corrected: an unknown id is a 404; otherwise the change is saved and the reply is a 200 saying "entered" exactly when the device is now in maintenance |
| EquipmentRoutes.MaintenanceFailsAfterWrite | backend/app/routes/equipment_routes.py:364 | for any known device the written route answers 500 where the corrected one answers 200, after the same write, which for a toggle really changes the fleet |
| EquipmentRoutes.CountOk | backend/app/routes/equipment_routes.py:517-547 | the successes never outnumber the entries |
| EquipmentRoutes.CountOkAppend | backend/app/routes/equipment_routes.py:542-547 | one more entry adds one success exactly when it succeeded |
| EquipmentRoutes.BatchStep | backend/app/routes/equipment_routes.py:521-547 | one entry for the id, successful exactly when the device exists and the operation is known; a failure changes nothing; only "delete" removes a key; other devices are untouched |
| EquipmentRoutes.BatchRun | backend/app/routes/equipment_routes.py:521-547 | one result per listed id, in list order |
| EquipmentRoutes.BatchKeepsOthers | backend/app/routes/equipment_routes.py:521-547 | no device is added and every device not listed keeps its value |
| EquipmentRoutes.UnknownBatchOp | backend/app/routes/equipment_routes.py:537-540 | an unknown operation changes nothing and succeeds nowhere |
| EquipmentRoutes.BatchDeleteRemoves | backend/app/routes/equipment_routes.py:529-530 | after "delete" no listed device remains |
| EquipmentRoutes.BatchMaintenanceOn | backend/app/routes/equipment_routes.py:531-532 | after "maintenance_on" every listed device is in maintenance |
| EquipmentRoutes.ImportStatus | backend/app/routes/equipment_routes.py:832-834 | the trimmed, lower-cased cell when it is "online", "offline" or "error", and "offline" otherwise |
| EquipmentRoutes.ImportRow | backend/app/routes/equipment_routes.py:794-858 | a rejected row reports its spreadsheet row number (index + 2); a created device has a new id and flags that agree with its status |
| EquipmentRoutes.ImportRowChecks | backend/app/routes/equipment_routes.py:796-848 | a row is rejected exactly when its trimmed id or location is empty or "nan" or its id is taken; a created device has the trimmed id and location, the normalised status and no activity time |
| EquipmentRoutes.ImportRun | backend/app/routes/equipment_routes.py:788-858 | the successes and failures add up to the number of rows |
| EquipmentRoutes.ImportKeeps | backend/app/routes/equipment_routes.py:794-858 | importing only adds devices, leaves existing ones as they were, and every added device has consistent flags |
| EquipmentRoutes.ImportFailureRows | backend/app/routes/equipment_routes.py:802-857 | every failure names the spreadsheet row of one of the input rows |
| EquipmentRoutes.Fleet.constructor | backend/app/models/equipment.py:4-18 | an empty fleet |
| EquipmentRoutes.Fleet.CreateEquipment | backend/app/routes/equipment_routes.py:115-155 | the reply and new fleet are those of `Create` |
| EquipmentRoutes.Fleet.DeleteEquipment | backend/app/routes/equipment_routes.py:206-227 | an unknown id is a 404 that changes nothing; otherwise exactly that device is removed |
| EquipmentRoutes.Fleet.UpdateEquipment | backend/app/routes/equipment_routes.py:159-202 | the reply and new fleet are those of `Update` |
| EquipmentRoutes.Fleet.UpdateEquipmentStatus | backend/app/routes/equipment_routes.py:298-341 | the reply, new fleet and history record are those of `StatusUpdate` |
| EquipmentRoutes.Fleet.ControlEquipment | backend/app/routes/equipment_routes.py:382-439 | the reply, new fleet and computed (unsent) diagnosis are those of `Control` |
| EquipmentRoutes.Fleet.ToggleMaintenanceAsWritten | backend/app/routes/equipment_routes.py:345-378 | the reply and new fleet are those of `MaintenanceAsWritten` |
| EquipmentRoutes.Fleet.ToggleMaintenanceMode | backend/app/routes/equipment_routes.py:345-378 | the reply and new fleet are those of the corrected `Maintenance` |
| EquipmentRoutes.Fleet.BatchOne | backend/app/routes/equipment_routes.py:521-547 | one pass of the loop does what `BatchStep` says and adds no device |
| EquipmentRoutes.Fleet.BatchEquipmentOperation | backend/app/routes/equipment_routes.py:507-568 | an empty list or operation is a 400 that changes nothing; otherwise the fleet and results are those of `BatchRun`, the counts add up to the list length and count the successes, with the summary message |
| EquipmentRoutes.Fleet.AddDevice | backend/app/models/equipment.py:26-29 | exactly the new device is added |
| EquipmentRoutes.Fleet.ImportOne | backend/app/routes/equipment_routes.py:794-858 | the row's outcome is `ImportRow`, and a created device is added |
| EquipmentRoutes.Fleet.BatchImportEquipment | backend/app/routes/equipment_routes.py:787-877 | the new fleet, successes and failures are those of `ImportRun`; total equals the row count and success plus failed equals total |
| FrontMenu.AnyHeld | front/src/utils/menu.js:20-22 | true exactly when some required permission is held |
| FrontMenu.HasMenuPermission | front/src/utils/menu.js:10-32 | signed-out users see no item; an item with required permissions is shown exactly when one of them is held; otherwise one with roles exactly when the user has one of them; otherwise always |
| FrontMenu.RolesIgnoredWithPermissions | front/src/utils/menu.js:17-23 | once an item lists permissions its roles make no difference |
| FrontMenu.AvailableMenus | front/src/utils/menu.js:38-40 | the permitted items of the menu table, in table order; none when signed out |
| FrontMenu.FindByPath | front/src/utils/menu.js:48 | the first item with the path, or none exactly when no item has it |
| FrontMenu.ConfigPathsUnique | front/src/config/menu.js:10-74 | the eight menu paths are distinct |
| FrontMenu.FindConfigured | front/src/utils/menu.js:48 | looking up an item's own path finds that item |
| FrontMenu.HasPathPermission | front/src/utils/menu.js:47-55 | a path outside the menu table is allowed; a path in it is allowed exactly when its item is |
| FrontMenu.FilterRoutesByPermission | front/src/utils/menu.js:62-79 | the routes kept, in order, are exactly those whose menu item is permitted, or, without an item, whose roles the user has or that name no roles |
| FrontMenu.SignedOutRoutes | front/src/utils/menu.js:62-79 | signed out, exactly the routes outside the menu table without roles are kept |
| FrontMenu.DefaultHomePath | front/src/utils/menu.js:86-107 | "/login" when signed out; "/dashboard" when it is offered; otherwise an offered path; "/education" when nothing is offered |
| FrontMenu.HomePermitted | front/src/utils/menu.js:86-107 | when some menu is offered, the home path chosen is one the path check allows |
| FrontMenu.HomeFallbackRefused | front/src/utils/menu.js:105-106 | when no menu is offered, the "/education" fallback is a path the path check refuses |
| FrontPermission.HasRole | front/src/utils/permission.js:36-50 | true exactly when signed in and the user's role is the one given or among the list given |
| FrontPermission.HasRoutePermission | front/src/utils/permission.js:8-29 | a route without `requiresAuth` is open; otherwise signed-out users are refused, a route with roles needs one of them, and one without is open to any signed-in user |
| FrontPermission.FilterMenuByRole | front/src/utils/permission.js:84-99 | nothing when signed out; otherwise exactly the items, in order, that name no roles or whose roles include the user's |
| FrontPermission.HasPermission | front/src/utils/permission.js:104-126 | signed-in admins hold every permission, operators exactly read, write and execute, viewers exactly read, and any other role nothing |
| FrontPermission.PermissionRanks | front/src/utils/permission.js:104-108 | whatever a viewer may do an operator may, and an admin may do anything |
| RouterGuard.Continuation | front/src/router/index.js:159-186 | signed-out visitors of a protected page go to login with the page as redirect, exactly then; signed-in visitors of a protected path the menu check refuses go to the 403 page, exactly then; signed-in visitors of the open Login or Register page go to the dashboard, exactly then; all else proceeds |
| RouterGuard.BeforeEach | front/src/router/index.js:151-187 | the title is set, with the product suffix, exactly when the page has one, and navigation continues as `Continuation` says |
| RouterGuard.ProceedIsPermitted | front/src/router/index.js:160-176 | a protected page is only reached signed in and on a path the menu check allows |
| RouterGuard.GuardIgnoresRouteRoles | front/src/router/index.js:171-176 | the guard's decision does not depend on the roles a route declares |
| RouterGuard.HomePasses | front/src/router/index.js:160-176 | the default home path of a user with some menu passes the guard |
| NavigationRoutes.FindPoint | backend/app/models/navigation_point.py:44-46 | the position of a point with the id, or none exactly when no point has it |
| NavigationRoutes.PointCount | backend/app/routes/navigation_routes.py:249 | the number of the setting's points; zero exactly when it has none |
| NavigationRoutes.MaxOrder | backend/app/routes/navigation_routes.py:360-362 | none exactly when the setting has no point; otherwise the largest order among its points |
| NavigationRoutes.NextOrder | backend/app/routes/navigation_routes.py:359-374 | the new point's order is above every order of the setting, and 1 for a setting without points |
| NavigationRoutes.Shift | backend/app/routes/navigation_routes.py:460-463 | the bulk update moves by the offset exactly the setting's points whose order is in the window, changes nothing but orders and leaves all other points alone |
| NavigationRoutes.FindOrder | backend/app/routes/navigation_routes.py:521-535 | the first point of the setting at the order, or none exactly when there is none |
| NavigationRoutes.NextOrderDense | backend/app/routes/navigation_routes.py:359-380 | when a setting's orders are exactly 1..n, the new point gets n + 1 and the orders become 1..n + 1 |
| NavigationRoutes.AfterDelete | backend/app/routes/navigation_routes.py:453-464 | deleting a point leaves one point fewer |
| NavigationRoutes.AfterDeleteShape | backend/app/routes/navigation_routes.py:459-464 | every remaining point keeps its place and its fields; exactly the points of the same setting ordered after the deleted one move down by one |
| NavigationRoutes.DeleteDense | backend/app/routes/navigation_routes.py:453-464 | deleting a point of a setting ordered 1..n, and closing the gap, leaves it ordered 1..n - 1 |
| NavigationRoutes.DeleteKeepsOthers | backend/app/routes/navigation_routes.py:453-464 | deleting a point keeps every other setting's ordering |
| NavigationRoutes.AfterMove | backend/app/routes/navigation_routes.py:496-541 | a move changes only orders, only within the point's own setting; a target order is taken by the point; moving to its own order changes nothing |
| NavigationRoutes.MoveLaterDense | backend/app/routes/navigation_routes.py:501-508 | moving a point later within 1..n keeps the orders exactly 1..n |
| NavigationRoutes.MoveEarlierDense | backend/app/routes/navigation_routes.py:509-515 | moving a point earlier within 1..n keeps the orders exactly 1..n |
| NavigationRoutes.ExchangeDense | backend/app/routes/navigation_routes.py:519-539 | swapping the orders of two points of a setting keeps its orders exactly 1..n |
| NavigationRoutes.SwapDense | backend/app/routes/navigation_routes.py:519-539 | an "up" or "down" step, or any other direction, keeps the orders exactly 1..n |
| NavigationRoutes.MoveDense | backend/app/routes/navigation_routes.py:496-541 | any move to an order within 1..n, or any step, keeps the setting ordered 1..n |
| NavigationRoutes.MoveKeepsOthers | backend/app/routes/navigation_routes.py:496-541 | a move keeps every other setting's ordering |
| NavigationRoutes.Merged | backend/app/routes/navigation_routes.py:118-132 | every setting field takes the body's value when given and keeps the stored one otherwise; id and device are kept and the editor is recorded |
| NavigationRoutes.Created | backend/app/routes/navigation_routes.py:135-152 | a new setting is the column defaults merged with the body |
| NavigationRoutes.MergedIdempotent | backend/app/routes/navigation_routes.py:118-132 | sending the same body twice gives the same setting as once |
| NavigationRoutes.FindSetting | backend/app/routes/navigation_routes.py:244 | the position of a setting with the id, or none exactly when no setting has it |
| NavigationRoutes.FindByEquipment | backend/app/routes/navigation_routes.py:115 | the position of a setting of the device, or none exactly when the device has none |
| NavigationRoutes.UpsertSetting | backend/app/routes/navigation_routes.py:114-152 | the saved setting belongs to the device and names the editor |
| NavigationRoutes.UpsertSettingSpec | backend/app/routes/navigation_routes.py:114-152 | at most one setting per device is kept, other settings are untouched, a setting is added exactly when the device had none, and ids stay below the next id |
| NavigationRoutes.BatchStep | backend/app/routes/navigation_routes.py:580-612 | one entry for the id, successful exactly when the setting exists, the operation is known, and for "delete" the setting has no points; only a successful "delete" changes the table, removing exactly that setting |
| NavigationRoutes.BatchRun | backend/app/routes/navigation_routes.py:580-612 | one result per listed id, in list order |
| NavigationRoutes.BatchOnlyRemovesFree | backend/app/routes/navigation_routes.py:588-601 | the batch only removes settings, never one that still has points, and only for "delete" |
| NavigationRoutes.MissingField | backend/app/routes/navigation_routes.py:348-352 | no field is missing exactly when setting, name and both coordinates are given; the setting is reported first |
| NavigationRoutes.NewPoint | backend/app/routes/navigation_routes.py:364-379 | the new point has the fresh id, the given setting, the computed order and the creator |
| NavigationRoutes.NavigationStore.constructor | backend/app/models/navigation_settings.py:4-23 | empty tables |
| NavigationRoutes.NavigationStore.CreateSetting | backend/app/routes/navigation_routes.py:92-170 | a device that cannot be resolved is refused and changes nothing; otherwise the settings become exactly the upsert for that device; points are untouched |
| NavigationRoutes.NavigationStore.DeleteSetting | backend/app/routes/navigation_routes.py:241-270 | an unknown id is a 404 and a setting with points a 400 naming their number, both changing nothing; otherwise exactly that setting is removed |
| NavigationRoutes.NavigationStore.CreatePoint | backend/app/routes/navigation_routes.py:343-399 | a missing field or unknown setting is a 400 that changes nothing; otherwise exactly the new point, with a fresh id and the next order, is appended |
| NavigationRoutes.NavigationStore.DeletePoint | backend/app/routes/navigation_routes.py:446-480 | an unknown id is a 404 that changes nothing; otherwise the points become `AfterDelete` |
| NavigationRoutes.NavigationStore.MovePoint | backend/app/routes/navigation_routes.py:485-561 | an unknown id is a 404 that changes nothing; otherwise the points become `AfterMove` and the moved point is returned |
| NavigationRoutes.NavigationStore.MoveTo | backend/app/routes/navigation_routes.py:499-517 | the points become `AfterMove` to the target order |
| NavigationRoutes.NavigationStore.Swap | backend/app/routes/navigation_routes.py:519-539 | the points become `AfterMove` by one step in the direction |
| NavigationRoutes.NavigationStore.BatchOne | backend/app/routes/navigation_routes.py:580-612 | one pass of the loop does what `BatchStep` says |
| NavigationRoutes.NavigationStore.BatchAll | backend/app/routes/navigation_routes.py:576-612 | the loop's table and results are those of `BatchRun`; the counts add up to the list length and count the successes |
| NavigationRoutes.NavigationStore.BatchSettingsOperation | backend/app/routes/navigation_routes.py:566-634 | an empty list or operation is a 400 that changes nothing; otherwise the outcome of `BatchAll` with the summary message |
| NavigationRoutes.NavigationStore.DeleteSettingAsWritten | backend/app/routes/navigation_routes.py:241-270 | the 404 and 400 refusals are those of `DeleteSetting`; a setting it may delete gets the 500 "导览设置删除失败: " from reading the undeclared `setting.name` at line 253, before the delete, so nothing changes |
| NavigationRoutes.NavigationStore.CreatePointAsWritten | backend/app/routes/navigation_routes.py:343-399 | the 400 refusals are those of `CreatePoint`; a complete body for an existing setting gets the 500 "导览点位创建失败: " from the constructor at lines 365-379, before `save()`, so nothing changes |
| NavigationRoutes.NavigationStore.DeletePointAsWritten | backend/app/routes/navigation_routes.py:446-480 | an unknown id is the 404; otherwise the points become `AfterDelete`, yet the reply is the 500 "导览点位删除失败: " with the `create_log` keyword error of the call at lines 468-475 |
| NavigationRoutes.NavigationStore.MovePointAsWritten | backend/app/routes/navigation_routes.py:485-561 | an unknown id is the 404; otherwise the points become `AfterMove`, yet the reply is the 500 "点位顺序调整失败: " with the `create_log` keyword error of the call at lines 546-553 |
| NavigationRoutes.NavigationStore.BatchSettingsOperationAsWritten | backend/app/routes/navigation_routes.py:566-634 | the empty request is the 400; otherwise the settings become those of `BatchRun`, yet the reply is the 500 "批量操作失败: " with the `create_log` keyword error of the call at lines 616-622 |
| OperationLogs.FirstUnexpected | backend/app/models/operation_log.py:83-93 | none exactly when every keyword of the call is a declared parameter of `create_log`; otherwise a keyword of the call that is not declared |
| OperationLogs.FirstUnexpectedIsFirst | backend/app/models/operation_log.py:83-93 | the keyword named is the earliest undeclared one: every keyword before it is declared |
| OperationLogs.AfterLog | backend/app/models/operation_log.py:83-93 | a call with declared keywords only keeps the route's success reply; a call with an undeclared keyword turns it into a 500 naming an undeclared keyword after the route's prefix |
| OperationLogs.RouteCallsRefused | backend/app/models/operation_log.py:83-93 | both keyword lists the routes pass are refused on `action_type`, so the reply is the route's 500 whatever its success reply; a call like the settings upsert's keeps the success reply |
| Seed.SeedPermissions | backend/init_rbac.py:86-94 | the permission table only grows, and afterwards holds a row for every code of the seed list |
| Seed.SeedNothingNew | backend/init_rbac.py:86-94 | when every seeded code already exists, the loop inserts nothing |
| Seed.SeedPermissionsIdempotent | backend/init_rbac.py:86-94 | running the permission seed a second time changes nothing |
| Seed.SeedKeepsKeys | backend/init_rbac.py:86-94 | seeding keeps permission codes and ids unique |
| Seed.SeededRows | backend/init_rbac.py:88 | every inserted row is a system permission, enabled, carrying a seeded code and the sort order of its place in the list |
| Seed.InitPermissions | backend/init_rbac.py:17-96 | the table becomes the seeded table; one returned row per seed entry, the row that now carries its code; nothing else in the database changes |
| Seed.CodeMap | backend/init_rbac.py:101 | the permission map holds exactly the codes of the rows, each mapped to the id of a row carrying it |
| Seed.CodeKeys | backend/init_rbac.py:108 | the key list holds exactly the codes of the rows |
| Seed.RoleSeeds | backend/init_rbac.py:103-135 | the three built-in roles admin, operator and viewer, in that order; the administrator is granted every key of the permission map |
| Seed.Grants | backend/init_rbac.py:150-156 | the join rows saved for a new role are exactly those of the role to each listed code the permission map knows |
| Seed.SeedRoles | backend/init_rbac.py:137-161 | role and join tables only grow, and afterwards a role exists for every seeded code |
| Seed.SeedRolesNothingNew | backend/init_rbac.py:137-161 | when every seeded role code exists, the loop changes nothing |
| Seed.SeedRolesIdempotent | backend/init_rbac.py:137-161 | running the role seed a second time changes nothing |
| Seed.ExistingRolesGainNothing | backend/init_rbac.py:139-161 | every join row the seed adds belongs to a role that did not exist before: existing roles gain no grants |
| Seed.FirstSeedInserted | backend/init_rbac.py:139-156 | a missing first role is appended with its grants, and is the row later found by its code |
| Seed.AdminGetsEverything | backend/init_rbac.py:103-156 | on a database without an administrator role, the seeded administrator is granted every permission of the map |
| Seed.GrantAll | backend/init_rbac.py:150-156 | the grant loop appends exactly the role's grants and changes nothing else |
| Seed.InitRoles | backend/init_rbac.py:98-163 | the role and join tables become the seeded tables, and the returned roles are the rows carrying the three seeded codes |
| Seed.Placed | backend/init_rbac.py:348-357 | the first menu pass only appends, and afterwards every seeded name has a row |
| Seed.PlacedNothingNew | backend/init_rbac.py:348-357 | when every seeded name exists, the first pass adds no row |
| Seed.PlacedKeepsIds | backend/init_rbac.py:348-357 | the first pass keeps menu ids unique |
| Seed.MapAfterEntries | backend/init_rbac.py:347-357 | the map the first pass builds records each seeded name's row and the parent name of its last entry |
| Seed.LinkAllKeys | backend/init_rbac.py:360-366 | the second pass changes parents only, keeping every row's name and id |
| Seed.SeededParents | backend/init_rbac.py:346-366 | after seeding, every seeded menu whose last entry names a seeded parent sits under that parent's row |
| Seed.UnseededUntouched | backend/init_rbac.py:346-366 | menus the seed list does not mention are left exactly as they were |
| Seed.SeedMenusIdempotent | backend/init_rbac.py:346-366 | seeding the menus a second time, at any later time, changes nothing |
| Seed.SetParent | backend/init_rbac.py:365-366 | only the row with the id gets the new parent; every other row is unchanged |
| Seed.PlaceMenus | backend/init_rbac.py:346-357 | the first pass leaves the table and map the specification functions describe, and visits every key of the map |
| Seed.LinkMenus | backend/init_rbac.py:359-366 | the second pass leaves the table the specification function describes |
| Seed.InitMenus | backend/init_rbac.py:165-369 | the menu table becomes the seeded table and nothing else changes |
| Seed.RoleMap | backend/init_rbac.py:373 | the role map holds exactly the codes of the roles, each mapped to the id of a role carrying it |
| Seed.UpdateUsersWithRoles | backend/init_rbac.py:371-382 | every user whose legacy role text names a role gets that role's id; other users and all other tables are unchanged |
| Seed.EveryLegacyRoleMapped | backend/init_rbac.py:373-380 | after the role seed, every legacy role text names a role, so the update reaches every user |
| Seed.InitRbac | backend/init_rbac.py:384-415 | permissions and menus become their seeded tables, roles and grants only grow, and every user's role id points at the role named by their legacy role |
| Settings.PyStr | backend/app/models/system_settings.py:60 | `str(value)`: booleans as True or False, text as itself, and integers as text that reads back as the same integer |
| Settings.EscapeChar | backend/app/models/system_settings.py:58 | a character is kept as itself exactly when it is printable and neither a quote nor a backslash |
| Settings.PlainEscaped | backend/app/models/system_settings.py:58 | text without quotes, backslashes or control characters is dumped unchanged |
| Settings.JsonDumps | backend/app/models/system_settings.py:58 | `json.dumps`: strings are quoted, booleans are true or false, integers are their decimal text |
| Settings.StoredText | backend/app/models/system_settings.py:53-60 | None is stored as NULL; json settings store the dumped value and all others `str(value)` |
| Settings.GetValue | backend/app/models/system_settings.py:37-51 | NULL reads as None; integer settings parse the text or raise; boolean settings are true exactly for the lower-cased words true, 1, yes, on; string settings give the text |
| Settings.NullRoundTrip | backend/app/models/system_settings.py:37-60 | storing None reads back as None under every type |
| Settings.IntegerRoundTrip | backend/app/models/system_settings.py:37-60 | an integer stored in an integer setting reads back as that integer |
| Settings.StringRoundTrip | backend/app/models/system_settings.py:37-60 | text stored in a string setting reads back unchanged |
| Settings.BooleanRoundTrip | backend/app/models/system_settings.py:37-60 | a boolean stored in a boolean setting reads back unchanged |
| Settings.BooleanInIntegerSettingRaises | backend/app/models/system_settings.py:42-43 | a boolean stored in an integer setting becomes True or False, which `int()` refuses |
| Settings.NotAnInteger | backend/app/models/system_settings.py:42-43 | stripped text that starts with neither a digit nor a sign is not an integer |
| Settings.WithValue | backend/app/models/system_settings.py:53-60 | `set_value` changes only the value, and the row then reads back what storing the value under its type gives |
| Settings.FindByKey | backend/app/models/system_settings.py:83-85 | the first row with the category and key, or none exactly when there is no such row |
| Settings.ValueByKey | backend/app/models/system_settings.py:93-96 | the default when no row has the key; otherwise the converted value of the row found |
| Settings.CategoryValues | backend/app/models/system_settings.py:118-139 | the category dictionary holds exactly the keys that have a row in the category |
| Settings.CategoryValuesAgree | backend/app/models/system_settings.py:88-139 | with unique keys, each entry of the category dictionary is what `get_value_by_key` returns for that key |
| Settings.Upsert | backend/app/models/system_settings.py:99-115 | the table keeps its length or grows by one row, and the saved row is in the table |
| Settings.UpsertFinds | backend/app/models/system_settings.py:99-115 | afterwards the key is found at the saved row, which holds the value stored after its type and names the user; every other row is unchanged |
| Settings.UpsertKeepsType | backend/app/models/system_settings.py:102-104 | an existing row keeps its value type, description and system flag and only takes the value and the user, with no row added |
| Settings.UpsertThenRead | backend/app/models/system_settings.py:93-115 | writing an integer to a new or integer setting and reading it back gives the integer |
| Settings.UpsertKeepsKeysUnique | backend/app/models/system_settings.py:99-115 | the upsert never creates a second row for a category and key |
| Settings.Delete | backend/app/models/system_settings.py:29-35 | deletion succeeds exactly for a non-system setting, and then removes exactly that row; a refused deletion changes nothing |
| Settings.SystemSettingsStay | backend/app/models/system_settings.py:29-35 | a system setting survives every deletion |
| Settings.SettingsTable.constructor | backend/app/models/system_settings.py:5-22 | an empty table |
| Settings.SettingsTable.SetValue | backend/app/models/system_settings.py:53-60 | only the row's value changes, as `WithValue` says |
| Settings.SettingsTable.DeleteAt | backend/app/models/system_settings.py:29-35 | the outcome and the new table are those of `Delete` |
| Settings.SettingsTable.SetValueByKey | backend/app/models/system_settings.py:99-115 | the new table and saved row are those of `Upsert`, and the next id advances exactly when a row was added |

## Left out

### Outside services

- **Clock.** `datetime.utcnow()` and `datetime.now()` become a `now` parameter. The `updated_at` / `onupdate` columns and the other timestamps that are only written, never compared, are not modelled.
- **Password hashing and JWT.** `check_password_hash`, `generate_password_hash`, `jwt.encode` and `jwt.decode` are oracle parameters: a boolean outcome, a decoded claim set or a decode error.
- **Files.** Saving an upload, `secure_filename`, `uuid4`, `os.path.getsize`, `mimetypes.guess_type` and the pandas read of an import file are not modelled. Their results are inputs: a stored name, a size, a MIME type, the rows read.
- **Logging.** The `print` and `current_app.logger` output, and the operation-log and equipment-log rows the routes write, are not modelled. The keyword check of `OperationLog.create_log` is modelled in `OperationLogs`, because it decides the reply of every route that passes it `action_type` (see Findings).

### Database behaviour

- **`ORDER BY`.** Rows are taken in query order. Python's own `sorted` is modelled where the source uses it: `get_sorted_children` and the usage statistics.
- **Column enums and foreign keys.** These are not enforced by the model, except the cascades the routes rely on: sessions deleted with a user, join rows deleted with a role. A device's `cascade='all, delete-orphan'` relationships (`backend/app/models/equipment.py:21-24`) delete its equipment logs, education settings, navigation settings and navigation points with it; the model keeps those tables in separate stores and does not cascade.
- EquipmentRoutes.Fleet.DeleteEquipment: the device's log, education-setting, navigation-setting and navigation-point rows are not deleted with it; and a device with status-history or usage rows would make the ORM null their NOT NULL `equipment_id` and raise `IntegrityError`, a 500 the model does not give.
- EquipmentRoutes.BatchStep: a "delete" entry removes only the device, with the same two gaps as `Fleet.DeleteEquipment`; where the source reports a device with history or usage rows as failed with the `IntegrityError` text, the model reports it deleted.
- CoursewareRoutes.Delete: an item with usage rows would make the ORM null their NOT NULL `courseware_id` and raise `IntegrityError`, a 500 the model does not give.
- CoursewareRoutes.Library.DeleteCourseware: the same gap as `CoursewareRoutes.Delete`; the usage log keeps its rows.
- CoursewareRoutes.BatchStep: a "delete" entry for an item with usage rows is reported deleted, where the source's commit fails with `IntegrityError` and the item is reported failed with its text.
- **Commit failures.** The `try`/`except` rollbacks around a commit are not modelled. A commit that raises is a database fault, which the model does not include.
- **Reply payloads.** The `to_dict` payloads of individual rows are not modelled. Replies carry a status code and a message. The exception is `Result`, whose `to_dict` is modelled.
- **Exception text.** A 500 reply carries the route's prefix only (for example "密码重置失败: "); the `str(e)` the source appends is not modelled. The one exception is the `create_log` keyword error, whose text `OperationLogs` spells out.
- **Id allocation.** MySQL `AUTO_INCREMENT` never issues an id twice. The model issues the largest live id plus one, so after the row with the largest id is deleted, its id is issued again. The lines below name the members this affects:
- Users.NextUserId: a user created after the deletion of the user with the largest id gets that id again, and an unexpired token issued to the deleted user is then admitted by `Gate.Authenticate` as the new user, where the source answers 401. `UserRoutes.NewUser` and `AuthRoutes.Registered` use it.
- RoleRoutes.NextRoleId: the id of a deleted last role is issued again; `RoleRoutes.NewRole` and the seed use it.
- PermissionRoutes.NextPermissionId: the id of a deleted last permission is issued again; `PermissionRoutes.NewPermission` and the seed use it.
- MenuRoutes.NextId: the id of a deleted last menu is issued again; `MenuRoutes.NewMenu` and the seed use it.

### Routes and methods not modelled

These are reads and listings with no rule beyond the query:

- the GET, list, search, statistics and export routes of every blueprint;
- the user routes `get_users`, `get_user`, `search_users`, `get_user_statistics` and `get_user_sessions`.

### Arithmetic and text

- **Floating point.** The `float` setting type and `json.loads` in `get_value` are returned as unconverted text. The same goes for:
  - the two-decimal rounding of the dashboard rates;
  - `get_performance_summary` and `get_data_transfer_display`;
  - the courseware average duration;
  - navigation coordinates, which are carried as given.
- **The hourly dashboard variant.** `DashboardStatistics.create_or_update_current` is not modelled; `create_or_update_today`, which it mirrors, is.
- **`create_usage_record`.** `CoursewareUsage.create_usage_record` is not modelled. The route that records usage is.
- **Courseware preview.** The preview route's own token check (a header or `token` query parameter, then `verify_token`) is not modelled. The model starts once the caller is verified.
- **Keyword arguments.** `create_or_update_today(**kwargs)` is modelled as name and value pairs. A keyword naming any mapped column is accepted; values that are not integers are not modelled.
- Dashboard.CreateOrUpdateToday: values given for the columns outside the counters (`statistic_hour`, the rate and score columns, `additional_metrics`, and the keys and timestamps) are accepted but not kept.
- **JSON null.** `data.get(k, d)` returns `None` for a key sent as `null`, and the source then stores NULL. The members below read a `null` as an absent key:
- EquipmentRoutes.NewDevice: a `null` status or usage rate gets the default instead of NULL.
- NavigationRoutes.Merged: a `null` field keeps the old value instead of being set to NULL.
- NavigationRoutes.Created: a `null` field gets its default instead of NULL.
- NavigationRoutes.NewPoint: a `null` optional field gets its default instead of NULL.
- EducationRoutes.Merged: a `null` field keeps the old value instead of being set to NULL.
- EducationRoutes.Created: a `null` field gets its default instead of NULL.
- EducationRoutes.Imported: a `null` optional field gets its default instead of NULL.
- UserRoutes.NewUser: `"status": null` gets the default `True` instead of NULL; a user stored with status NULL is refused at login, where the model's user is enabled.
- UserRoutes.CreateUser: the same gap as `UserRoutes.NewUser`.
- UserRoutes.Patched: a key sent as `null` (other than `role_id`, which is modelled) keeps the old value; the source copies the NULL, and `"status": null` then bars the user from logging in.
- UserRoutes.UpdateUser: the same gap as `UserRoutes.Patched`.
- RoleRoutes.NewRole: a `null` status or sort order gets the default instead of NULL.
- RoleRoutes.CreateRole: the same gap as `RoleRoutes.NewRole`.
- RoleRoutes.PatchedRole: a key sent as `null` keeps the old value; the source copies the NULL into the role.
- RoleRoutes.UpdateRole: the same gap as `RoleRoutes.PatchedRole`.
- PermissionRoutes.NewPermission: a `null` permission type, status or sort order gets the default instead of NULL; a permission stored with status NULL is granted through no role (the `Permission.status == True` filter of `User.get_permissions`), where the model's permission is enabled.
- PermissionRoutes.CreatePermission: the same gap as `PermissionRoutes.NewPermission`.
- PermissionRoutes.Patched: a key sent as `null` keeps the old value; the source copies the NULL, and `"status": null` withdraws the permission from every role.
- PermissionRoutes.UpdatePermission: the same gap as `PermissionRoutes.Patched`.
- MenuRoutes.NewMenu: a `null` sort order, menu type, flag or status gets the default instead of NULL; a menu stored with status NULL is left out of `get_user_menus`, where the model's menu is enabled.
- MenuRoutes.CreateMenu: the same gap as `MenuRoutes.NewMenu`.
- MenuRoutes.Patched: a key sent as `null` (other than `parent_id`, which is modelled) keeps the old value; the source copies the NULL, and `"status": null` hides the menu.
- MenuRoutes.UpdateMenu: the same gap as `MenuRoutes.Patched`.
- EquipmentRoutes.Patched: `"is_offline": null` and `"has_error": null` keep the old flags; the source stores NULL.
- EquipmentRoutes.Update: the same gap as `EquipmentRoutes.Patched`.
- EquipmentRoutes.Fleet.UpdateEquipment: the same gap as `EquipmentRoutes.Patched`.
- **JSON types.** Request fields are modelled with the type the route expects; a value of another JSON type is not modelled (`UserRoutes.NewPassword` reads any JSON value):
- EducationRoutes.EducationStore.CopySetting: a `name` sent as a number, boolean, list or object is not modelled; the body holds text, `null` (stored as NULL) or no key.
- **Front-end getters.** The `isAdmin`, `isOperator` and `isViewer` store getters are not modelled. The model reads the role text directly.
- **Integer parsing.** `Text.ParseInt` accepts optional surrounding whitespace, a sign and ASCII digits. Python's `int()` also accepts `_` separators and non-ASCII digits; those forms are not modelled.
- **Case folding.** `Text.Lower` and `Text.Upper` fold ASCII letters only.

### Replies after the log call

The members below state the success reply each route evidently means to send, with the write it evidently means to make. As written, each route answers with a 500; the `…AsWritten` member beside each one states that reply (see Findings). In most of them the log call is refused after the write is committed. `delete_navigation_setting` and `create_navigation_point` raise earlier, before they write, and change nothing.

- UserRoutes.BatchDeleteUsers: states the 200 count reply; as written the route answers the 500 of `BatchDeleteUsersAsWritten`.
- UserRoutes.ForceLogout: states the 200 reply counting the sessions; as written the route answers the 500 of `ForceLogoutAsWritten`.
- CoursewareRoutes.Library.BatchCoursewareOperation: states the 200 summary reply; as written the route answers the 500 of `BatchCoursewareOperationAsWritten`.
- NavigationRoutes.NavigationStore.DeleteSetting: states the 200 reply and the removed setting; as written the route keeps the setting and answers the 500 of `DeleteSettingAsWritten`.
- NavigationRoutes.NavigationStore.CreatePoint: states the 200 reply and the appended point; as written the route adds no point and answers the 500 of `CreatePointAsWritten`.
- NavigationRoutes.NavigationStore.DeletePoint: states the 200 reply; as written the route answers the 500 of `DeletePointAsWritten`.
- NavigationRoutes.NavigationStore.MovePoint: states the 200 reply; as written the route answers the 500 of `MovePointAsWritten`.
- NavigationRoutes.NavigationStore.BatchSettingsOperation: states the 200 summary reply; as written the route answers the 500 of `BatchSettingsOperationAsWritten`.

### Gaps between the routes and the model files

The navigation and education routes use columns and helpers that their model classes do not declare. The model keeps the algorithm the routes state:

- `NavigationPoint` declares no `navigation_setting_id` or `order_index`, though the navigation routes read and write them. The model gives points those fields, so the point queries of the routes work on them. `create_navigation_point` also passes `x_coordinate`, `y_coordinate`, `z_coordinate`, `point_type`, `duration`, `is_mandatory`, `interaction_content`, `voice_content` and `created_by`, none of them declared, and leaves the NOT NULL `equipment_id` unset; `CreatePointAsWritten` states the resulting failure, and `CreatePoint` the intended insert.
- `NavigationSettings` declares no `status`. The batch "activate" and "deactivate" operations therefore store nothing the model keeps.
- `NavigationSettings` declares no `name`, which `delete_navigation_setting` reads before deleting; `DeleteSettingAsWritten` states the resulting failure, and `DeleteSetting` the intended delete.
- `EducationSettings` declares no `name` and no `get_by_name`, though the copy and import routes use them. The model gives settings a name and looks it up with a first-match scan. It also declares none of the course columns that the copy route (`copy_education_setting`, which reads them from the original and passes them on) and the import pass (`category`, `target_age_group`, `difficulty_level`, `duration`, `objectives`, `status`, `max_participants` and the rest), so SQLAlchemy's constructor would refuse them; and its `equipment_id` is NOT NULL, yet the import sets none. The model keeps the copy and the import, their name checks and the import's name loop, not these failures.

### Deliberate restrictions

- **Categories.** The walks over the category tree (`get_full_path`, `get_all_children`) require an acyclic, id-unique table. On a cyclic parent chain the source does not terminate, and the model does not describe it.
- **Menus.** The menu-tree walks in `Menus` assume the same acyclic, id-unique table.

## Findings

| source | as written | input that shows it | evidently intended | confidence | as-written member | corrected member |
|---|---|---|---|---|---|---|
| backend/app/routes/menu_routes.py:52-56 | a root none of whose children is kept for the user still sends the unfiltered children that `to_route_dict` produced | an open root whose only child needs "menu:secret", for a user without that code | a root with no kept children sends no children, so no route needs a permission the user lacks | not executed | MenuRoutes.RoutesLeakChild | MenuRoutes.GetPermittedMenuRoutes |
| backend/app/routes/menu_routes.py:314 | `self._build_menu_options` inside a module-level route raises `NameError`, and the route answers with the error reply | one enabled root menu | a success reply listing that root as an option | not executed | MenuRoutes.ParentOptionsFail | MenuRoutes.GetParentMenuOptions |
| backend/app/routes/equipment_routes.py:364 | after committing the new mode, the route reads `equipment.maintenance_mode`, an attribute the device does not have, and answers 500 | any existing device id | a 200 saying whether the device entered or left maintenance | not executed | EquipmentRoutes.MaintenanceFailsAfterWrite | EquipmentRoutes.Fleet.ToggleMaintenanceMode |
| backend/app/routes/user_routes.py:381-387 | after its write is committed, `batch_delete_users` calls `OperationLog.create_log` with `action_type`, a keyword it does not declare; the `TypeError` lands in the route's `except` and the reply is the 500 "批量删除失败: " with the error text | any list of existing users without the caller | the 200 reply counting the deleted users | not executed | UserRoutes.BatchDeleteUsersAsWritten | UserRoutes.BatchDeleteUsers |
| backend/app/routes/user_routes.py:337-344 | after its write is committed, `force_logout_user` calls `OperationLog.create_log` with `action_type`, a keyword it does not declare; the `TypeError` lands in the route's `except` and the reply is the 500 "强制下线失败: " with the error text | any existing user id | the 200 reply counting the invalidated sessions | not executed | UserRoutes.ForceLogoutAsWritten | UserRoutes.ForceLogout |
| backend/app/routes/courseware_routes.py:934-940 | after its write is committed, `batch_courseware_operation` calls `OperationLog.create_log` with `action_type`, a keyword it does not declare; the `TypeError` lands in the route's `except` and the reply is the 500 "批量操作失败: " with the error text | any non-empty id list with an operation | the 200 summary with the per-id results | not executed | CoursewareRoutes.Library.BatchCoursewareOperationAsWritten | CoursewareRoutes.Library.BatchCoursewareOperation |
| backend/app/routes/navigation_routes.py:253 | before deleting, `delete_navigation_setting` reads `setting.name`, which `NavigationSettings` does not declare; the `AttributeError` lands in the route's `except`, so the setting is kept and the reply is the 500 "导览设置删除失败: " with the error text. Past that line, the `create_log` call at lines 258-265 would also refuse `action_type` | an existing setting with no points | the setting removed and the 200 "导览设置删除成功" | not executed | NavigationRoutes.NavigationStore.DeleteSettingAsWritten | NavigationRoutes.NavigationStore.DeleteSetting |
| backend/app/routes/navigation_routes.py:365-379 | `create_navigation_point` passes `NavigationPoint` keywords it does not declare (`x_coordinate`, `y_coordinate`, `z_coordinate`, `point_type`, `duration`, `is_mandatory`, `interaction_content`, `voice_content`, `created_by`) and sets no `equipment_id`, which is NOT NULL; the constructor raises before `save()`, so no point is added and the reply is the 500 "导览点位创建失败: " with the error text. Past that, the `create_log` call at lines 384-391 would also refuse `action_type` | a complete point body for an existing setting | the point appended and the 200 "导览点位创建成功" | not executed | NavigationRoutes.NavigationStore.CreatePointAsWritten | NavigationRoutes.NavigationStore.CreatePoint |
| backend/app/routes/navigation_routes.py:468-475 | after its write is committed, `delete_navigation_point` calls `OperationLog.create_log` with `action_type`, a keyword it does not declare; the `TypeError` lands in the route's `except` and the reply is the 500 "导览点位删除失败: " with the error text | any existing point id | the 200 "导览点位删除成功" | not executed | NavigationRoutes.NavigationStore.DeletePointAsWritten | NavigationRoutes.NavigationStore.DeletePoint |
| backend/app/routes/navigation_routes.py:546-553 | after its write is committed, `move_navigation_point` calls `OperationLog.create_log` with `action_type`, a keyword it does not declare; the `TypeError` lands in the route's `except` and the reply is the 500 "点位顺序调整失败: " with the error text | any existing point id | the 200 "点位顺序调整成功" | not executed | NavigationRoutes.NavigationStore.MovePointAsWritten | NavigationRoutes.NavigationStore.MovePoint |
| backend/app/routes/navigation_routes.py:616-622 | after its write is committed, `batch_navigation_settings_operation` calls `OperationLog.create_log` with `action_type`, a keyword it does not declare; the `TypeError` lands in the route's `except` and the reply is the 500 "批量操作失败: " with the error text | any non-empty id list with an operation | the 200 summary with the per-id results | not executed | NavigationRoutes.NavigationStore.BatchSettingsOperationAsWritten | NavigationRoutes.NavigationStore.BatchSettingsOperation |
