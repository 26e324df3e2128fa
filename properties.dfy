/**
 * What the store's reads and writes guarantee together: the shape of the
 * comment trees it builds, the save/find round trip, and the reach of the
 * soft-delete cascade.
 */
module CommentProperties {
  import opened Wrappers
  import opened Ordering
  import opened Domain
  import opened CommentQueries
  import opened CommentStore

  /**
   * `c` is the comment read from its row: every column but `is_signaled`
   * copied, the flag at its default, and as children the non-deleted
   * replies, oldest first, each read the same way.
   */
  ghost predicate Hydrated(t: Table, c: CommentState)
    requires WellFormed(t)
    decreases if c.id.Some? then Above(t, c.id.value) else {}, c.id.Some?
  {
    && c.id.Some? && c.id.value in t
    && c.content == t[c.id.value].comContent
    && c.parentId == t[c.id.value].parentId
    && c.isDeleted == t[c.id.value].isDeleted
    && c.commentDate == Some(t[c.id.value].commentDate)
    && c.article == Some(Article(t[c.id.value].artId))
    && c.author == Some(User(t[c.id.value].usrId))
    && !c.isSignaled
    && c.childComments.Some?
    && ListsKeys(c.childComments.value, Replies(t, c.id.value), true)
    && forall i :: 0 <= i < |c.childComments.value| ==>
         && c.childComments.value[i].parentId == c.id.value
         && (ReplyAbove(t, c.id.value, c.childComments.value[i].id.value);
             Hydrated(t, c.childComments.value[i]))
  }

  /** The loop of `getChildren` builds each reply exactly as `buildDomainObject` does. */
  lemma {:induction false} BuildRepliesBuilt(t: Table, id: int, ids: seq<int>)
    requires WellFormed(t) && id in t
    requires forall k :: k in ids ==> k in t && t[k].parentId == id && !t[k].isDeleted
    ensures forall i :: 0 <= i < |ids| ==> BuildReplies(t, id, ids)[i] == BuildDomainObject(t, ids[i])
    decreases |ids|
  {
    if ids != [] {
      BuildRepliesBuilt(t, id, ids[1..]);
      var r := BuildReplies(t, id, ids);
      assert r == [BuildDomainObject(t, ids[0]).(parentId := id)] + BuildReplies(t, id, ids[1..]);
      assert ids[0] in Replies(t, id);
      forall i | 0 <= i < |ids| ensures r[i] == BuildDomainObject(t, ids[i]) {
        if i > 0 {
          assert ids[1..][i - 1] == ids[i];
        }
      }
    }
  }

  /** Every reply `getChildren` returns is the comment `buildDomainObject` reads from its row. */
  lemma ChildrenBuilt(t: Table, id: int)
    requires WellFormed(t) && id in t
    ensures AllBuilt(t, GetChildren(t, id))
  {
    var ids := Ascending(Replies(t, id));
    BuildRepliesBuilt(t, id, ids);
  }

  /** Every comment read from the table is a full tree of its non-deleted replies. */
  lemma {:induction false} BuiltTree(t: Table, id: int)
    requires WellFormed(t) && id in t
    ensures Hydrated(t, BuildDomainObject(t, id))
    decreases Above(t, id)
  {
    var c := BuildDomainObject(t, id);
    var children := GetChildren(t, id);
    assert c.childComments == Some(children);
    ChildrenBuilt(t, id);
    forall i | 0 <= i < |children|
      ensures children[i].parentId == id && Hydrated(t, children[i])
    {
      var k := children[i].id.value;
      ReplyAbove(t, id, k);
      BuiltTree(t, k);
    }
  }

  /**
   * The comment trees of an article: exactly its top-level, non-deleted
   * comments, oldest first, each a full tree of its replies.
   */
  lemma ArticleForest(t: Table, articleId: int)
    requires WellFormed(t)
    ensures ListsKeys(FindAllByArticle(t, articleId), TopLevel(t, articleId), true)
    ensures forall i :: 0 <= i < |FindAllByArticle(t, articleId)| ==>
      Hydrated(t, FindAllByArticle(t, articleId)[i])
  {
    var r := FindAllByArticle(t, articleId);
    forall i | 0 <= i < |r| ensures Hydrated(t, r[i]) {
      BuiltTree(t, r[i].id.value);
    }
  }

  /**
   * Saving a comment under key `k` and reading `k` back gives its content,
   * parent, deleted flag, article and author, and today's date; its
   * signalled flag is not read back, it is always `false`.
   */
  lemma SaveThenFind(t: Table, k: int, c: CommentState, today: Date)
    requires c.article.Some? && c.author.Some?
    requires WellFormed(t[k := CommentData(c, today)])
    ensures var r := Find(t[k := CommentData(c, today)], k);
      && r.Success? && r.value.id == Some(k)
      && r.value.content == c.content && r.value.parentId == c.parentId
      && r.value.isDeleted == c.isDeleted && r.value.article == c.article
      && r.value.author == c.author && r.value.commentDate == Some(today)
      && !r.value.isSignaled
  {
  }

  /** An insert under an auto-increment key keeps the table well-formed when the parent exists. */
  lemma InsertKeepsWellFormed(t: Table, n: int, c: CommentState, today: Date)
    requires WellFormed(t) && AboveAll(t, n)
    requires c.article.Some? && c.author.Some?
    requires c.parentId == 0 || c.parentId in t
    ensures n !in t && WellFormed(t[n := CommentData(c, today)])
  {
  }

  /** An update that keeps the row's parent keeps the table well-formed. */
  lemma UpdateKeepsWellFormed(t: Table, k: int, c: CommentState, today: Date)
    requires WellFormed(t) && k in t
    requires c.article.Some? && c.author.Some? && c.parentId == t[k].parentId
    ensures WellFormed(t[k := CommentData(c, today)])
  {
  }

  /** Every row of a chain hangs from the row before it: its parent is `id` or on the chain. */
  lemma {:induction false} ChainLinked(t: Table, id: int)
    requires WellFormed(t)
    ensures forall x :: x in Chain(t, id) ==> t[x].parentId == id || t[x].parentId in Chain(t, id)
    ensures forall x :: x in Chain(t, id) && t[x].parentId == id ==> FirstReply(t, id) == Some(x)
    decreases Above(t, id)
  {
    match FirstReply(t, id)
    case None =>
    case Some(c) =>
      assert c in Above(t, id) && c !in Above(t, c);
      ChainLinked(t, c);
      forall x | x in Chain(t, c) ensures t[x].parentId != id {
        assert t[x].parentId == c || t[x].parentId in Chain(t, c);
      }
  }

  /**
   * The cascade follows one reply per level: a reply to `id` other than the
   * one `findByParent` returns is not marked by `delete(id)`.
   */
  lemma SiblingsSurvive(t: Table, id: int, k: int, today: Date)
    requires WellFormed(t) && k in t && t[k].parentId == id
    requires FirstReply(t, id) != Some(k)
    ensures k !in Cascade(t, id)
    ensures SoftDeleted(t, Cascade(t, id), today)[k] == t[k]
  {
    ChainLinked(t, id);
    assert k != id;
  }

  /**
   * The same holds at every level of the cascade: a reply to `id` or to any
   * row on its chain, other than the one `findByParent` returns for that
   * row, is not marked by `delete(id)`.
   */
  lemma {:induction false} ChainSiblingsSurvive(t: Table, id: int, c: int, k: int, today: Date)
    requires WellFormed(t) && (c == id || c in Chain(t, id))
    requires k in t && t[k].parentId == c && FirstReply(t, c) != Some(k)
    ensures k !in Cascade(t, id)
    ensures SoftDeleted(t, Cascade(t, id), today)[k] == t[k]
    decreases Above(t, id)
  {
    if c == id {
      SiblingsSurvive(t, id, k, today);
    } else {
      var f := FirstReply(t, id).value;
      assert Chain(t, id) == {f} + Chain(t, f);
      assert f in Above(t, id) && f !in Above(t, f);
      ChainSiblingsSurvive(t, f, c, k, today);
      assert c > id && k > c;
      assert t[f].parentId == id;
    }
  }

  /**
   * Deleting a second time succeeds exactly as the first did and marks the
   * same rows again: on a later day it only moves their date to that day,
   * and on the same day it changes nothing.
   */
  lemma DeleteIdempotent(t: Table, id: int, first: Date, second: Date)
    requires WellFormed(t)
    ensures var u := SoftDeleted(t, Cascade(t, id), first);
      && WellFormed(u) && (id in u <==> id in t) && Cascade(u, id) == Cascade(t, id)
      && SoftDeleted(u, Cascade(u, id), second) == SoftDeleted(t, Cascade(t, id), second)
    ensures first == second ==>
      var u := SoftDeleted(t, Cascade(t, id), first);
      SoftDeleted(u, Cascade(u, id), second) == u
  {
    var c := Cascade(t, id);
    var u := SoftDeleted(t, c, first);
    SoftDeletedLinks(t, c, first);
    ChainSameLinks(t, u, id);
    assert Cascade(u, id) == c;
    var v := SoftDeleted(u, c, second);
    var w := SoftDeleted(t, c, second);
    assert forall k :: k in t ==> v[k] == w[k];
    assert v == w;
    if first == second {
      SoftDeletedTwice(t, c, c, first);
      assert c + c == c;
    }
  }

  /**
   * A posted `parentId` is saved unchecked: a reply whose parent id equals
   * the key its insert receives links the new row to itself, and the table
   * is no longer well-formed.
   */
  lemma PostedParentSelfLink(t: Table, n: int, c: CommentState, today: Date)
    requires AboveAll(t, n) && c.article.Some? && c.author.Some? && c.parentId == n
    ensures n !in t && !WellFormed(t[n := CommentData(c, today)])
  {
    var u := t[n := CommentData(c, today)];
    assert n in u && u[n].parentId == n;
  }

  /** After `deleteAllByUser`, every row the user wrote is marked deleted and no row is gone. */
  lemma DeleteAllByUserMarksAuthored(t: Table, userId: int, today: Date)
    requires WellFormed(t)
    ensures var u := SoftDeleted(t, CascadeAll(t, AuthoredBy(t, userId)), today);
      && u.Keys == t.Keys && |u| == |t|
      && forall k :: k in t && t[k].usrId == userId ==> u[k].isDeleted
  {
    var u := SoftDeleted(t, CascadeAll(t, AuthoredBy(t, userId)), today);
    forall k | k in t && t[k].usrId == userId ensures u[k].isDeleted {
      assert k in Cascade(t, k);
      assert k in CascadeAll(t, AuthoredBy(t, userId));
    }
    assert u.Keys == t.Keys;
  }

  /** The feed and the moderation queue split the non-deleted rows between them. */
  lemma FeedAndQueuePartition(t: Table)
    ensures Feed(t) !! Queue(t)
    ensures Feed(t) + Queue(t) == set k | k in t && !t[k].isDeleted
  {
  }

  /** A row of article 1 by user `userId`, with the given parent and flags. */
  function SampleRow(userId: int, parentId: int, isSignaled: bool, isDeleted: bool): Row {
    Row(1, userId, Some("text"), parentId, isSignaled, isDeleted, "2017-01-01")
  }

  /** Comment 1 is answered by 2, which is answered by 3: `delete(1)` marks all three and removes none. */
  lemma CascadeScenario(t: Table, today: Date)
    requires t == map[1 := SampleRow(1, 0, false, false), 2 := SampleRow(1, 1, false, false),
                      3 := SampleRow(1, 2, false, false)]
    ensures WellFormed(t) && Cascade(t, 1) == {1, 2, 3}
    ensures var u := SoftDeleted(t, Cascade(t, 1), today);
      u.Keys == {1, 2, 3} && u[1].isDeleted && u[2].isDeleted && u[3].isDeleted
  {
    assert AnyReplies(t, 1) == {2};
    assert AnyReplies(t, 2) == {3};
    assert AnyReplies(t, 3) == {};
    assert FirstReply(t, 3) == None;
    assert Chain(t, 3) == {};
    assert FirstReply(t, 2) == Some(3);
    assert Chain(t, 2) == {3};
    assert FirstReply(t, 1) == Some(2);
    assert Chain(t, 1) == {2, 3};
  }

  /** `findAllSignaled` lists the moderation queue in exactly the order `Descending` gives. */
  lemma QueueOrder(t: Table)
    requires WellFormed(t)
    ensures var r := FindAllSignaled(t);
      |r| == |Queue(t)| && forall i :: 0 <= i < |r| ==> r[i].id == Some(Descending(Queue(t))[i])
  {
    var r := FindAllSignaled(t);
    var ids := seq(|r|, i requires 0 <= i < |r| => r[i].id.value);
    assert Lists(ids, Queue(t)) by {
      forall x | x in Queue(t) ensures x in ids {
        var i :| 0 <= i < |r| && r[i].id == Some(x);
        assert ids[i] == x;
      }
    }
    DescendingUnique(Queue(t), ids);
  }

  /**
   * The moderation queue over signalled comments 5 and 7 and the signalled
   * but deleted comment 9 is 7 then 5.
   */
  lemma ModerationQueueScenario(t: Table)
    requires t == map[5 := SampleRow(1, 0, true, false), 7 := SampleRow(1, 0, true, false),
                      9 := SampleRow(1, 0, true, true)]
    ensures WellFormed(t)
    ensures var r := FindAllSignaled(t);
      |r| == 2 && r[0].id == Some(7) && r[1].id == Some(5)
  {
    assert WellFormed(t);
    assert Queue(t) == {5, 7} by {
      assert t.Keys == {5, 7, 9} && t[9].isDeleted;
    }
    DescendingUnique({5, 7}, [7, 5]);
    QueueOrder(t);
  }

  /**
   * `deleteAllByUser` reaches other users' replies: when user 2 answers
   * user 1's comment, deleting user 1's comments marks that reply too.
   */
  lemma DeleteAllByUserReachesReplies(t: Table, today: Date)
    requires t == map[1 := SampleRow(1, 0, false, false), 2 := SampleRow(2, 1, false, false)]
    ensures WellFormed(t) && t[2].usrId != 1
    ensures SoftDeleted(t, CascadeAll(t, AuthoredBy(t, 1)), today)[2].isDeleted
  {
    assert AuthoredBy(t, 1) == {1};
    assert AnyReplies(t, 1) == {2};
    assert FirstReply(t, 1) == Some(2);
    assert 2 in Chain(t, 1) && 2 in Cascade(t, 1);
    assert 2 in CascadeAll(t, AuthoredBy(t, 1));
  }
}
