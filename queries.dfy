/**
 * The `t_comment` table and the store's read-only queries over it. Every
 * query is a filter of the table's rows, ordered by `com_id`, whose rows are
 * turned into comments by `BuildDomainObject`.
 */
module CommentQueries {
  import opened Wrappers
  import opened Ordering
  import opened Domain

  /** One row of `t_comment`, without its key `com_id`. */
  datatype Row = Row(
    artId: int,
    usrId: int,
    comContent: Option<string>,
    parentId: int,
    isSignaled: bool,
    isDeleted: bool,
    commentDate: Date)

  /** The table, keyed by `com_id`. */
  type Table = map<int, Row>

  datatype Error = NotFound(id: int)

  /**
   * The shape the store relies on but never checks: ids are positive and a
   * reply has a larger id than the comment it answers. It rules out cycles
   * of `parent_id` links, without which reading a tree or cascading a
   * delete would not end.
   */
  predicate WellFormed(t: Table) {
    forall k :: k in t ==> k > 0 && (t[k].parentId != 0 ==> t[k].parentId < k)
  }

  /** The ids above `id`: they shrink along every reply link. */
  function Above(t: Table, id: int): set<int> {
    set k | k in t && k > id
  }

  /** Rows `where art_id=? and parent_id=0 and is_deleted=false`. */
  function TopLevel(t: Table, articleId: int): set<int> {
    set k | k in t && t[k].artId == articleId && t[k].parentId == 0 && !t[k].isDeleted
  }

  /** Rows `where parent_id=? and is_deleted=false`. */
  function Replies(t: Table, id: int): set<int> {
    set k | k in t && t[k].parentId == id && !t[k].isDeleted
  }

  /** Rows `where is_deleted=false and is_signaled=false`: the public feed. */
  function Feed(t: Table): set<int> {
    set k | k in t && !t[k].isDeleted && !t[k].isSignaled
  }

  /** Rows `where is_deleted=false and is_signaled=true`: the moderation queue. */
  function Queue(t: Table): set<int> {
    set k | k in t && !t[k].isDeleted && t[k].isSignaled
  }

  /** Rows `where usr_id=?`. */
  function AuthoredBy(t: Table, userId: int): set<int> {
    set k | k in t && t[k].usrId == userId
  }

  /** Rows `where parent_id=?`, deleted ones included. */
  function AnyReplies(t: Table, id: int): set<int> {
    set k | k in t && t[k].parentId == id
  }

  /**
   * `r` holds one comment for each id of `keys`, and nothing else, in
   * increasing (or decreasing) `com_id` order.
   */
  ghost predicate ListsKeys(r: seq<CommentState>, keys: set<int>, ascending: bool) {
    && (forall i :: 0 <= i < |r| ==> r[i].id.Some? && r[i].id.value in keys)
    && (forall k :: k in keys ==> exists i :: 0 <= i < |r| && r[i].id == Some(k))
    && (forall i, j :: 0 <= i < j < |r| && r[i].id.Some? && r[j].id.Some? ==>
          if ascending then r[i].id.value < r[j].id.value else r[i].id.value > r[j].id.value)
  }

  /** Every comment of `r` is the one built from the row its id names. */
  ghost predicate AllBuilt(t: Table, r: seq<CommentState>)
    requires WellFormed(t)
  {
    forall i :: 0 <= i < |r| ==>
      r[i].id.Some? && r[i].id.value in t && r[i] == BuildDomainObject(t, r[i].id.value)
  }

  /** Comments whose ids follow an ordered listing of `keys` list `keys` in that order. */
  lemma ListedInOrder(r: seq<CommentState>, ids: seq<int>, keys: set<int>, ascending: bool)
    requires Ordering.Lists(ids, keys)
    requires if ascending then Increasing(ids) else Decreasing(ids)
    requires |r| == |ids| && forall i :: 0 <= i < |r| ==> r[i].id == Some(ids[i])
    ensures ListsKeys(r, keys, ascending)
  {
    forall k | k in keys ensures exists i :: 0 <= i < |r| && r[i].id == Some(k) {
      assert k in ids;
      var i :| 0 <= i < |ids| && ids[i] == k;
      assert r[i].id == Some(k);
    }
  }

  /**
   * `buildDomainObject`: a comment from a row. Every column is copied except
   * `is_signaled`, which keeps the entity's default `false`; the article and
   * the author are looked up from `art_id` and `usr_id`; the replies are read
   * with `GetChildren`.
   */
  function BuildDomainObject(t: Table, id: int): (c: CommentState)
    requires WellFormed(t) && id in t
    ensures c.id == Some(id) && c.parentId == t[id].parentId && !c.isSignaled
    decreases Above(t, id), 2, 0
  {
    var row := t[id];
    CommentState(
      id := Some(id),
      author := Some(User(row.usrId)),
      content := row.comContent,
      article := Some(Article(row.artId)),
      commentDate := Some(row.commentDate),
      parentId := row.parentId,
      isSignaled := false,
      isDeleted := row.isDeleted,
      childComments := Some(GetChildren(t, id)))
  }

  /**
   * `getChildren`: the non-deleted replies to `id`, oldest first, each built
   * recursively and given `id` as its parent id.
   */
  function GetChildren(t: Table, id: int): (r: seq<CommentState>)
    requires WellFormed(t) && id in t
    ensures ListsKeys(r, Replies(t, id), true)
    ensures forall i :: 0 <= i < |r| ==> r[i].parentId == id
    decreases Above(t, id), 1, 0
  {
    var ids := Ascending(Replies(t, id));
    var r := BuildReplies(t, id, ids);
    ListedInOrder(r, ids, Replies(t, id), true);
    r
  }

  /** A reply's id lies above its parent's, so fewer ids lie above it. */
  lemma ReplyAbove(t: Table, id: int, k: int)
    requires WellFormed(t) && id in t && k in Replies(t, id)
    ensures k in Above(t, id) && Above(t, k) < Above(t, id)
  {
    assert t[k].parentId == id;
    assert k !in Above(t, k);
  }

  /** The loop of `getChildren` over the reply ids `ids`. */
  function BuildReplies(t: Table, id: int, ids: seq<int>): (r: seq<CommentState>)
    requires WellFormed(t) && id in t
    requires forall k :: k in ids ==> k in Replies(t, id)
    ensures |r| == |ids|
    ensures forall i :: 0 <= i < |r| ==> r[i].id == Some(ids[i]) && r[i].parentId == id
    decreases Above(t, id), 0, |ids|
  {
    if ids == [] then []
    else
      var k := ids[0];
      ReplyAbove(t, id, k);
      [BuildDomainObject(t, k).(parentId := id)] + BuildReplies(t, id, ids[1..])
  }

  /** Comments built from the rows `ids`, in the order of `ids`. */
  function BuildAll(t: Table, ids: seq<int>): (r: seq<CommentState>)
    requires WellFormed(t)
    requires forall k :: k in ids ==> k in t
    ensures |r| == |ids|
    ensures forall i :: 0 <= i < |r| ==> r[i] == BuildDomainObject(t, ids[i])
  {
    seq(|ids|, i requires 0 <= i < |ids| => BuildDomainObject(t, ids[i]))
  }

  /**
   * `findAllByArticle`: the top-level, non-deleted comments of the article,
   * oldest first, each carrying the article looked up once for the list.
   */
  function FindAllByArticle(t: Table, articleId: int): (r: seq<CommentState>)
    requires WellFormed(t)
    ensures ListsKeys(r, TopLevel(t, articleId), true) && AllBuilt(t, r)
    ensures forall i :: 0 <= i < |r| ==> r[i].article == Some(Article(articleId))
  {
    var article := Article(articleId);
    var ids := Ascending(TopLevel(t, articleId));
    var r := WithArticle(BuildAll(t, ids), article);
    ArticleListBuilt(t, articleId, ids, r);
    ListedInOrder(r, ids, TopLevel(t, articleId), true);
    r
  }

  /** `setArticle` applied to every comment of a list. */
  function WithArticle(cs: seq<CommentState>, article: Article): (r: seq<CommentState>)
    ensures |r| == |cs| && forall i :: 0 <= i < |r| ==> r[i] == cs[i].(article := Some(article))
  {
    seq(|cs|, i requires 0 <= i < |cs| => cs[i].(article := Some(article)))
  }

  /** Setting the article on comments built from that article's rows changes nothing. */
  lemma ArticleListBuilt(t: Table, articleId: int, ids: seq<int>, r: seq<CommentState>)
    requires WellFormed(t) && forall k :: k in ids <==> k in TopLevel(t, articleId)
    requires r == WithArticle(BuildAll(t, ids), Article(articleId))
    ensures AllBuilt(t, r) && |r| == |ids|
    ensures forall i :: 0 <= i < |r| ==> r[i].id == Some(ids[i]) && r[i].article == Some(Article(articleId))
  {
    var built := BuildAll(t, ids);
    forall i | 0 <= i < |r|
      ensures r[i].id == Some(ids[i]) && r[i].article == Some(Article(articleId))
      ensures r[i].id.value in t && r[i] == BuildDomainObject(t, ids[i])
    {
      assert ids[i] in ids;
      assert ids[i] in TopLevel(t, articleId);
      assert built[i] == BuildDomainObject(t, ids[i]);
      assert built[i].article == Some(Article(articleId));
    }
  }

  /** `findAll`: the comments neither deleted nor signalled, newest first. */
  function FindAll(t: Table): (r: seq<CommentState>)
    requires WellFormed(t)
    ensures ListsKeys(r, Feed(t), false) && AllBuilt(t, r)
  {
    var ids := Descending(Feed(t));
    var r := BuildAll(t, ids);
    ListedInOrder(r, ids, Feed(t), false);
    r
  }

  /** `findAllSignaled`: the signalled, non-deleted comments, newest first. */
  function FindAllSignaled(t: Table): (r: seq<CommentState>)
    requires WellFormed(t)
    ensures ListsKeys(r, Queue(t), false) && AllBuilt(t, r)
  {
    var ids := Descending(Queue(t));
    var r := BuildAll(t, ids);
    ListedInOrder(r, ids, Queue(t), false);
    r
  }

  /** `find`: the comment with that id, or the failure the source throws. */
  function Find(t: Table, id: int): (r: Result<CommentState, Error>)
    requires WellFormed(t)
    ensures r.Failure? <==> id !in t
    ensures r.Failure? ==> r.error == NotFound(id)
    ensures r.Success? ==> r.value == BuildDomainObject(t, id)
  {
    if id in t then Success(BuildDomainObject(t, id)) else Failure(NotFound(id))
  }

  /**
   * The row `fetchAssoc` returns for `where parent_id=?`. The query has no
   * `order by`; the model takes the lowest id.
   */
  function FirstReply(t: Table, id: int): (r: Option<int>)
    ensures r.None? <==> AnyReplies(t, id) == {}
    ensures r.Some? ==> r.value in t && t[r.value].parentId == id
    ensures r.Some? ==> forall k :: k in t && t[k].parentId == id ==> r.value <= k
  {
    var s := AnyReplies(t, id);
    if s == {} then None
    else
      var m := Least(s);
      assert forall k :: k in t && t[k].parentId == id ==> k in s;
      Some(m)
  }

  /**
   * `findByParent`: a comment replying to `id`, deleted or not, or `None`
   * (the source's `NULL`) when there is none; it never fails.
   */
  function FindByParent(t: Table, id: int): (r: Option<CommentState>)
    requires WellFormed(t)
    ensures r.None? <==> forall k :: k in t ==> t[k].parentId != id
    ensures r.Some? ==> r.value.id.Some? && r.value.id.value in t
    ensures r.Some? ==> t[r.value.id.value].parentId == id && r.value == BuildDomainObject(t, r.value.id.value)
    ensures r.Some? ==> forall k :: k in t && t[k].parentId == id ==> r.value.id.value <= k
  {
    match FirstReply(t, id)
    case None =>
      assert forall k :: k in t ==> t[k].parentId != id by {
        forall k | k in t ensures t[k].parentId != id {
          assert k !in AnyReplies(t, id);
        }
      }
      None
    case Some(k) => Some(BuildDomainObject(t, k))
  }
}
