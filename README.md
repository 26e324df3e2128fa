# Comment store of a blog's threaded discussions

This project models, in Dafny, the comment store of a small blog engine
(`CommentDAO`) and the `Comment` entity it builds. Comments belong to an
article and an author, may answer another comment (`parent_id`), may be
flagged for moderation ("signalled") and are soft-deleted through a flag.

The `t_comment` table is a map from `com_id` to a `Row` holding `art_id`,
`usr_id`, `com_content`, `parent_id`, `is_signaled`, `is_deleted` and
`comment_date` (`CommentQueries.Table`). Each SQL statement of the store
becomes a filter, an ordered listing, an insert, an update or a removal on
that map.

- `Domain` (comment.dfy): the entity as a class with one field per property,
  its defaults, getters (`GetId`, `GetParentId`, ... as `reads this`
  functions) and setters; `State()` gives all fields as one
  `CommentState` value.
- `CommentQueries` (queries.dfy): the read-only queries as functions of the
  table: `BuildDomainObject` and `GetChildren` (mutually recursive),
  `FindAllByArticle`, `FindAll`, `FindAllSignaled`, `Find`, `FindByParent`.
- `CommentStore` (store.dfy): the writes. `CommentDAO` holds the table and
  changes it in place (`Save`, `Delete`, `DeleteAllByUser`,
  `DeleteAllByArticle`, `DeleteCommentByParent`); its `Find` and
  `BuildDomainObject` allocate a `Comment` and fill it in through the
  setters, as `delete` needs an object to mark and save. The functions
  `Chain`, `Cascade` and `SoftDeleted` say which rows a delete marks.
- `CommentProperties` (properties.dfy): the tree shape of what is read, the
  save/find round trip, the reach and idempotence of the delete cascade, and
  three concrete scenarios.
- `Ordering` (ordering.dfy): the `order by com_id` / `order by com_id desc`
  listings; `Wrappers` (wrappers.dfy): `Option` and `Result`.

Where the code and its documentation disagree, the model follows the code:

- Every query is `select *`, so `art_id` and `usr_id` are always present:
  every built comment, replies included, gets its article and author from
  the lookups, although a comment in `findAllByArticle` says the article is
  not selected.
- `save` writes `date('Y-m-d')` on updates too, so any save of an existing
  comment (a soft delete, a moderation flag) rewrites `comment_date`, while
  the entity documents it as the date of the first save.
- `buildDomainObject` never copies `is_signaled`: a comment read back is
  never signalled, and `delete`, which reads then saves, clears the flag
  (`SaveThenFind`, `DeletedRowSaved`).
- `deleteAllByUser` applies the `delete` cascade to each of the user's
  comments, so replies by other users on those chains are marked too
  (`DeleteAllByUserReachesReplies`).
- `delete` of a missing id marks the chain below it before `find` fails.

`save` decides between update and insert by the PHP truthiness of
`getId()` (`CommentStore.HasId`), so an id of 0 inserts like a missing one.

Stated assumptions, not checked by the code:

- `WellFormed`: ids are positive and a nonzero `parent_id` is smaller than
  the row's own id. Without it `getChildren` and the `delete` cascade need
  not end. The reads, `Delete` and `DeleteAllByUser` require it; `Delete`,
  `DeleteAllByUser`, `DeleteAllByArticle` and `DeleteCommentByParent` keep
  it (the last two do not require it). `Save` keeps it only
  under a condition on the saved parent id: on an insert the parent must be
  0 or an existing row (`InsertKeepsWellFormed`), on an update 0 or below
  the row's own id (`UpdateKeepsWellFormed` covers an unchanged parent).
- The source itself can break that assumption: the reply path of
  src/Controller/HomeController.php:52-55 saves the posted `parentId`
  without checking it, so a reply posted with the id its own insert
  receives (on table `{1}`, `parentId=2` inserted as row 2) links the row
  to itself, and `getChildren` on it would not end (`PostedParentSelfLink`).
  This is a reading of the code, not an observed run.
- `findByParent`'s query has no `order by`; the model takes the reply with
  the lowest id.
- A new row's key is any key above every current one, as an auto-increment
  column gives.

## Model

| member | source | states |
|---|---|---|
| `Domain.Comment.constructor` | src/Domain/Comment.php:12-68 | a new comment has parent id 0, is neither signalled nor deleted, and has no id, author, content, article, date or children |
| `Domain.Comment.SetId` | src/Domain/Comment.php:70-77 | changes only the id, which `GetId` then returns; returns the comment itself |
| `Domain.Comment.SetAuthor` | src/Domain/Comment.php:79-86 | changes only the author, which `GetAuthor` then returns; returns the comment itself |
| `Domain.Comment.SetContent` | src/Domain/Comment.php:88-95 | changes only the content, which `GetContent` then returns; returns the comment itself |
| `Domain.Comment.SetArticle` | src/Domain/Comment.php:97-104 | changes only the article, which `GetArticle` then returns; returns the comment itself |
| `Domain.Comment.SetParentId` | src/Domain/Comment.php:106-112 | changes only the parent id, which `GetParentId` then returns |
| `Domain.Comment.SetChildComments` | src/Domain/Comment.php:114-120 | stores the given list unchanged and changes nothing else; `GetChildComments` returns that same list |
| `Domain.Comment.SetIsSignaled` | src/Domain/Comment.php:122-128 | changes only the signalled flag, which `GetIsSignaled` then returns |
| `Domain.Comment.SetCommentDate` | src/Domain/Comment.php:130-136 | changes only the date, which `GetCommentDate` then returns |
| `Domain.Comment.SetIsDeleted` | src/Domain/Comment.php:138-144 | changes only the deleted flag, which `GetIsDeleted` then returns |
| `Ordering.Ascending` | src/DAO/CommentDAO.php:40 | lists each id of the set once, in strictly increasing order |
| `Ordering.Descending` | src/DAO/CommentDAO.php:140 | lists each id of the set once, in strictly decreasing order |
| `Ordering.DescendingUnique` | src/DAO/CommentDAO.php:158 | a strictly decreasing listing of a set is the one `Descending` gives, so a newest-first result is determined by its rows |
| `CommentQueries.BuildDomainObject` | src/DAO/CommentDAO.php:89-112 | the comment read from row `id` carries that id and the row's parent id, and is never signalled |
| `CommentQueries.GetChildren` | src/DAO/CommentDAO.php:119-132 | lists exactly the non-deleted rows whose parent is `id`, oldest first, each with parent id `id` |
| `CommentQueries.BuildReplies` | src/DAO/CommentDAO.php:124-131 | one comment per reply id, in the given order, each with parent id `id` |
| `CommentQueries.BuildAll` | src/DAO/CommentDAO.php:145-148 | one comment per listed id, in the listed order, each the one `buildDomainObject` reads from that row |
| `CommentQueries.WithArticle` | src/DAO/CommentDAO.php:45-51 | the same comments in the same order, each with the article set and every other field kept |
| `CommentQueries.FindAllByArticle` | src/DAO/CommentDAO.php:34-53 | lists exactly the article's top-level, non-deleted rows, oldest first, each read by `BuildDomainObject` and carrying the article |
| `CommentQueries.FindAll` | src/DAO/CommentDAO.php:139-150 | lists exactly the rows neither deleted nor signalled, newest first, each read by `BuildDomainObject` |
| `CommentQueries.FindAllSignaled` | src/DAO/CommentDAO.php:157-168 | lists exactly the signalled, non-deleted rows, newest first, each read by `BuildDomainObject` |
| `CommentQueries.Find` | src/DAO/CommentDAO.php:186-194 | fails with `NotFound(id)` exactly when no row has that id; otherwise gives the comment read from it |
| `CommentQueries.FirstReply` | src/DAO/CommentDAO.php:203-205 | the lowest id whose `parent_id` is `id`, deleted rows included, or none when no row answers `id` |
| `CommentQueries.FindByParent` | src/DAO/CommentDAO.php:203-211 | `None` exactly when no row (deleted or not) has that parent, never a failure; otherwise the comment read from the lowest such row |
| `CommentStore.CommentData` | src/DAO/CommentDAO.php:61-69 | the row `save` writes: article and author ids, content, parent id and both flags from the comment, and today's date |
| `CommentStore.Chain` | src/DAO/CommentDAO.php:218-221 | the rows reached by following `findByParent` from `id`; all exist and all lie above `id` |
| `CommentStore.Cascade` | src/DAO/CommentDAO.php:218-228 | the rows `delete(id)` marks: the chain below `id`, and `id` when it exists |
| `CommentStore.Marked` | src/DAO/CommentDAO.php:225-227 | a row as `delete` saves it back: deleted, not signalled, dated today, every other column kept |
| `CommentStore.SoftDeleted` | src/DAO/CommentDAO.php:225-227 | the table with the given rows marked and every other row as it was; no row added or removed |
| `CommentStore.CascadeAll` | src/DAO/CommentDAO.php:244-254 | the rows deleting each of the given ids marks: every existing row on the cascade of one of them |
| `CommentStore.DeletedRowSaved` | src/DAO/CommentDAO.php:225-227 | finding a row, setting it deleted and saving it writes back the same row marked deleted, with its signalled flag cleared |
| `CommentStore.ChainSameLinks` | src/DAO/CommentDAO.php:203-205 | the chain depends only on the ids and `parent_id` links, so marking rows never changes it |
| `CommentStore.SoftDeletedTwice` | src/DAO/CommentDAO.php:225-227 | marking a set of rows and then another equals marking their union |
| `CommentStore.CascadeAllAdd` | src/DAO/CommentDAO.php:250-253 | deleting one more of the user's comments adds exactly its cascade to the rows marked |
| `CommentStore.CommentDAO.BuildDomainObject` | src/DAO/CommentDAO.php:89-112 | allocates a new comment whose fields, set through the setters, are those `CommentQueries.BuildDomainObject` gives |
| `CommentStore.CommentDAO.Find` | src/DAO/CommentDAO.php:186-194 | fails with `NotFound(id)` exactly when the id is absent; otherwise a new comment read from the row |
| `CommentStore.CommentDAO.Save` | src/DAO/CommentDAO.php:60-81 | without an id: adds exactly one row under a new key above every existing one, sets that id on the comment, changes no other row; with an id: rewrites only that row (every column, date included) if it exists, keys unchanged; fails and changes nothing when article or author is unset; keeps the table well-formed when the parent id is 0 or an existing row (insert) or below the row's id (update) |
| `CommentStore.CommentDAO.Delete` | src/DAO/CommentDAO.php:218-228 | succeeds exactly when the id exists; the new table marks the rows of `Cascade` and leaves every other row, and every key, as it was |
| `CommentStore.CommentDAO.DeleteAllByUser` | src/DAO/CommentDAO.php:244-254 | in whatever order the user's rows come, the new table marks exactly the union of their cascades and keeps well-formedness |
| `CommentStore.CommentDAO.DeleteAllByArticle` | src/DAO/CommentDAO.php:175-177 | removes exactly the article's rows; every other row is unchanged |
| `CommentStore.CommentDAO.DeleteCommentByParent` | src/DAO/CommentDAO.php:235-237 | removes exactly the row keyed `id`; every other row is unchanged |
| `CommentProperties.BuildRepliesBuilt` | src/DAO/CommentDAO.php:124-129 | overriding each reply's parent id with `id` changes nothing: each reply is the comment read from its row |
| `CommentProperties.ChildrenBuilt` | src/DAO/CommentDAO.php:119-131 | every reply `getChildren` returns is the comment read from its own row |
| `CommentProperties.BuiltTree` | src/DAO/CommentDAO.php:89-131 | every comment read is a full tree: columns copied except `is_signaled` (false), children exactly the non-deleted replies, oldest first, each with this parent id, recursively |
| `CommentProperties.ArticleForest` | src/DAO/CommentDAO.php:34-52 | an article's listing holds exactly its top-level non-deleted comments, oldest first, each a full reply tree |
| `CommentProperties.SaveThenFind` | src/DAO/CommentDAO.php:61-97 | reading back a saved row gives its content, parent, deleted flag, article, author and today's date, but never the signalled flag |
| `CommentProperties.InsertKeepsWellFormed` | src/DAO/CommentDAO.php:74-80 | an insert under an auto-increment key whose parent exists keeps the table well-formed |
| `CommentProperties.UpdateKeepsWellFormed` | src/DAO/CommentDAO.php:71-73 | an update that keeps the row's parent keeps the table well-formed |
| `CommentProperties.PostedParentSelfLink` | src/Controller/HomeController.php:52-55 | a reply saved with the parent id its insert receives links the new row to itself, so the table is no longer well-formed |
| `CommentProperties.ChainLinked` | src/DAO/CommentDAO.php:203-221 | each chain row answers `id` or another chain row, and the only chain row answering `id` is the one `findByParent` returns |
| `CommentProperties.SiblingsSurvive` | src/DAO/CommentDAO.php:218-221 | a reply to `id` other than the one `findByParent` returns is not marked by `delete(id)`, on any day |
| `CommentProperties.ChainSiblingsSurvive` | src/DAO/CommentDAO.php:203-228 | at every level of the cascade, a reply to `id` or to a chain row other than the one `findByParent` returns for that row stays unmarked |
| `CommentProperties.DeleteIdempotent` | src/DAO/CommentDAO.php:218-228 | a second `delete(id)` succeeds exactly as the first did and marks the same rows; on a later day it only moves their date to that day, on the same day it changes nothing |
| `CommentProperties.DeleteAllByUserMarksAuthored` | src/DAO/CommentDAO.php:244-254 | afterwards every row the user wrote is deleted and the number of rows is unchanged |
| `CommentProperties.FeedAndQueuePartition` | src/DAO/CommentDAO.php:139-168 | the feed and the moderation queue are disjoint and together hold every non-deleted row |
| `CommentProperties.CascadeScenario` | src/DAO/CommentDAO.php:218-228 | with 1 answered by 2 answered by 3, `delete(1)` marks all three and removes none |
| `CommentProperties.QueueOrder` | src/DAO/CommentDAO.php:157-168 | the moderation queue holds one comment per signalled, non-deleted row, in exactly the newest-first order of their ids |
| `CommentProperties.ModerationQueueScenario` | src/DAO/CommentDAO.php:157-168 | signalled comments 5 and 7 and signalled-but-deleted 9 give the queue 7, 5 |
| `CommentProperties.DeleteAllByUserReachesReplies` | src/DAO/CommentDAO.php:244-254 | deleting user 1's comments also marks user 2's reply to one of them |

## Left out

- src/Controller/HomeController.php: routing, rendering, flash messages and authorisation. Its two store uses (find, set signalled, save; set content and parent, save) are sequences of `CommentDAO.Find`, the setters and `CommentDAO.Save`.
- src/Form/Type/CommentType.php: form configuration with no behaviour of its own.
- The database driver and the `DAO` base class: replaced by the `table` field; connection and query failures (storage errors) are not modelled.
- `ArticleDAO.find` and `UserDAO.find`: modelled as references carrying the requested id (`Article(id)`, `User(id)`); a failing lookup is not modelled.
- `date('Y-m-d')`: the current date is the parameter `today`, one value for a whole operation.
- `Domain.Comment.SetChildComments`: children are held as `CommentState` values rather than references to live `Comment` objects; nothing in the store changes a reply after attaching it, so aliasing between a list and its replies is not captured.
- `Domain.Comment.SetIsSignaled`: the `boolean` class-style type hint of the source is not modelled; the flag is a plain bool.
- `CommentStore.CommentDAO.Save`: the new key is any key above every current one; a database that reuses lower free keys is not modelled.
- PHP arrays keyed by `com_id`: result lists are sequences in the same order, each comment carrying its id as its key.
- The `(int)` cast in `deleteAllByUser`: ids are integers throughout.
- Concurrent requests and last-write-wins between them: every operation runs alone.
