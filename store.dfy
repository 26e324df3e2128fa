/**
 * The comment store's writes: `save`, the soft-delete cascade and the
 * physical deletes, over the table of `CommentQueries`.
 */
module CommentStore {
  import opened Wrappers
  import opened Ordering
  import opened Domain
  import opened CommentQueries

  /** PHP truthiness of `getId()`: an id is set when it is neither null nor 0. */
  predicate HasId(id: Option<int>) {
    id.Some? && id.value != 0
  }

  /** The row `save` writes for a comment (its `$commentData`), dated `today`. */
  function CommentData(c: CommentState, today: Date): (row: Row)
    requires c.article.Some? && c.author.Some?
    ensures row.artId == c.article.value.id && row.usrId == c.author.value.id
    ensures row.comContent == c.content && row.parentId == c.parentId
    ensures row.isSignaled == c.isSignaled && row.isDeleted == c.isDeleted
    ensures row.commentDate == today
  {
    Row(c.article.value.id, c.author.value.id, c.content, c.parentId, c.isSignaled, c.isDeleted, today)
  }

  /**
   * The rows below `id` on its `findByParent` chain: the reply `findByParent`
   * returns, the reply to that one, and so on.
   */
  function Chain(t: Table, id: int): (r: set<int>)
    requires WellFormed(t)
    ensures r <= t.Keys
    ensures forall k :: k in r ==> k > id
    decreases Above(t, id)
  {
    match FirstReply(t, id)
    case None => {}
    case Some(c) =>
      assert c in Above(t, id) && c !in Above(t, c);
      {c} + Chain(t, c)
  }

  /** The rows `delete(id)` marks: the chain below `id`, and `id` itself when it exists. */
  function Cascade(t: Table, id: int): (r: set<int>)
    requires WellFormed(t)
    ensures r <= t.Keys
    ensures id in t ==> id in r
  {
    Chain(t, id) + (if id in t then {id} else {})
  }

  /** A row as `delete` saves it back: deleted, dated `today`, and no longer signalled. */
  function Marked(row: Row, today: Date): (r: Row)
    ensures r.isDeleted && !r.isSignaled && r.commentDate == today
    ensures r.artId == row.artId && r.usrId == row.usrId
    ensures r.comContent == row.comContent && r.parentId == row.parentId
  {
    row.(isDeleted := true, isSignaled := false, commentDate := today)
  }

  /** The table with the rows of `ids` marked deleted and every other row as it was. */
  function SoftDeleted(t: Table, ids: set<int>, today: Date): (r: Table)
    ensures r.Keys == t.Keys
    ensures forall k :: k in t && k in ids ==> r[k] == Marked(t[k], today)
    ensures forall k :: k in t && k !in ids ==> r[k] == t[k]
  {
    map k | k in t :: if k in ids then Marked(t[k], today) else t[k]
  }

  /** The rows that deleting each of `ids` in turn marks, in any order. */
  ghost function CascadeAll(t: Table, ids: set<int>): (r: set<int>)
    requires WellFormed(t)
    ensures r <= t.Keys
  {
    set j | j in t && exists k :: k in ids && j in Cascade(t, k)
  }

  /** Two tables with the same ids and the same `parent_id` links. */
  ghost predicate SameLinks(t: Table, u: Table) {
    t.Keys == u.Keys && forall k :: k in t ==> t[k].parentId == u[k].parentId
  }

  /** The row `delete` saves for a comment it found: the same row, marked. */
  lemma DeletedRowSaved(t: Table, id: int, today: Date)
    requires WellFormed(t) && id in t
    ensures BuildDomainObject(t, id).(isDeleted := true).article.Some?
    ensures BuildDomainObject(t, id).(isDeleted := true).author.Some?
    ensures CommentData(BuildDomainObject(t, id).(isDeleted := true), today) == Marked(t[id], today)
  {
  }

  /** Marking one more row is soft-deleting it. */
  lemma MarkOne(t: Table, ids: set<int>, id: int, today: Date)
    requires id in t
    ensures var u := SoftDeleted(t, ids, today); u[id := Marked(u[id], today)] == SoftDeleted(t, ids + {id}, today)
  {
    var u := SoftDeleted(t, ids, today);
    assert u[id := Marked(u[id], today)] == SoftDeleted(t, ids + {id}, today) by {
      assert forall k :: k in t ==> u[id := Marked(u[id], today)][k] == SoftDeleted(t, ids + {id}, today)[k];
    }
  }

  /** Soft-deleting twice is soft-deleting the union: a marked row stays as marked. */
  lemma SoftDeletedTwice(t: Table, a: set<int>, b: set<int>, today: Date)
    ensures SoftDeleted(SoftDeleted(t, a, today), b, today) == SoftDeleted(t, a + b, today)
  {
    var lhs := SoftDeleted(SoftDeleted(t, a, today), b, today);
    var rhs := SoftDeleted(t, a + b, today);
    assert forall k :: k in t ==> lhs[k] == rhs[k];
  }

  /** Soft-deleting keeps every id and every `parent_id` link, hence well-formedness. */
  lemma SoftDeletedLinks(t: Table, ids: set<int>, today: Date)
    ensures SameLinks(t, SoftDeleted(t, ids, today))
    ensures WellFormed(t) ==> WellFormed(SoftDeleted(t, ids, today))
  {
  }

  /** The `findByParent` chain depends only on the ids and their `parent_id` links. */
  lemma {:induction false} ChainSameLinks(t: Table, u: Table, id: int)
    requires WellFormed(t) && WellFormed(u) && SameLinks(t, u)
    ensures Chain(t, id) == Chain(u, id)
    decreases Above(t, id)
  {
    assert AnyReplies(t, id) == AnyReplies(u, id) by {
      forall k ensures k in AnyReplies(t, id) <==> k in AnyReplies(u, id) {
        if k in t {
          assert t[k].parentId == u[k].parentId;
        }
      }
    }
    match FirstReply(t, id)
    case None =>
    case Some(c) =>
      assert c in Above(t, id) && c !in Above(t, c);
      ChainSameLinks(t, u, c);
  }

  /** Deleting one more id in turn adds its cascade to the rows marked so far. */
  lemma CascadeAllAdd(t: Table, done: set<int>, id: int)
    requires WellFormed(t)
    ensures CascadeAll(t, done + {id}) == CascadeAll(t, done) + Cascade(t, id)
  {
    var lhs := CascadeAll(t, done + {id});
    var rhs := CascadeAll(t, done) + Cascade(t, id);
    forall j ensures j in lhs <==> j in rhs {
      if j in rhs && j !in CascadeAll(t, done) {
        assert j in t && id in done + {id} && j in Cascade(t, id);
      }
    }
  }

  /** `n` can serve as the next auto-increment key: it is positive and above every id. */
  predicate AboveAll(t: Table, n: int) {
    n > 0 && forall k :: k in t ==> k < n
  }

  /** An auto-increment key exists. */
  lemma FreshIdExists(t: Table)
    ensures exists n :: AboveAll(t, n)
  {
    if t.Keys == {} {
      assert AboveAll(t, 1);
    } else {
      var m := Greatest(t.Keys);
      assert AboveAll(t, if m + 1 > 0 then m + 1 else 1);
    }
  }

  /** The store: the `t_comment` table it mediates, changed in place by its writes. */
  class CommentDAO {
    var table: Table

    /** A store over a table that already holds `rows`. */
    constructor (rows: Table)
      ensures table == rows
    {
      table := rows;
    }

    /**
     * `buildDomainObject` as the source runs it: a new Comment filled in
     * through its setters from the row, the replies and the lookups.
     */
    method BuildDomainObject(id: int) returns (c: Comment)
      requires WellFormed(table) && id in table
      ensures fresh(c) && c.State() == CommentQueries.BuildDomainObject(table, id)
    {
      var row := table[id];
      c := new Comment();
      var self := c.SetId(id);
      self := c.SetContent(row.comContent);
      c.SetChildComments(GetChildren(table, id));
      c.SetParentId(row.parentId);
      c.SetCommentDate(row.commentDate);
      c.SetIsDeleted(row.isDeleted);
      self := c.SetArticle(Article(row.artId));
      self := c.SetAuthor(User(row.usrId));
    }

    /** `find`: a new Comment for the row with that id, or the failure the source throws. */
    method Find(id: int) returns (r: Result<Comment, Error>)
      requires WellFormed(table)
      ensures r.Failure? <==> id !in table
      ensures r.Failure? ==> r.error == NotFound(id)
      ensures r.Success? ==> fresh(r.value) && r.value.State() == CommentQueries.BuildDomainObject(table, id)
    {
      if id !in table {
        return Failure(NotFound(id));
      }
      var c := BuildDomainObject(id);
      return Success(c);
    }

    /**
     * `save`: a comment without an id is inserted under a new key above
     * every existing one, which is then set on the comment; a comment with an
     * id rewrites that row, if there is one, with every column including the
     * date. The source fails before writing when the article or the author
     * is unset.
     */
    method Save(comment: Comment, today: Date) returns (ok: bool)
      modifies this, comment
      ensures ok == (old(comment.article).Some? && old(comment.author).Some?)
      ensures !ok ==> table == old(table) && comment.State() == old(comment.State())
      ensures ok && HasId(old(comment.id)) ==>
        && comment.State() == old(comment.State())
        && table == (if old(comment.id).value in old(table)
                     then old(table)[old(comment.id).value := CommentData(old(comment.State()), today)]
                     else old(table))
      ensures ok && !HasId(old(comment.id)) ==>
        && comment.id.Some? && comment.id.value > 0
        && (forall k :: k in old(table) ==> k < comment.id.value)
        && comment.State() == old(comment.State()).(id := comment.id)
        && table == old(table)[comment.id.value := CommentData(old(comment.State()), today)]
      ensures (&& WellFormed(old(table)) && !HasId(old(comment.id))
               && (old(comment.parentId) == 0 || old(comment.parentId) in old(table))) ==> WellFormed(table)
      ensures (&& WellFormed(old(table)) && HasId(old(comment.id))
               && (old(comment.parentId) == 0 || old(comment.parentId) < old(comment.id).value)) ==> WellFormed(table)
    {
      if comment.GetArticle().None? || comment.GetAuthor().None? {
        return false;
      }
      var commentData := CommentData(comment.State(), today);
      if HasId(comment.GetId()) {
        var id := comment.GetId().value;
        if id in table {
          table := table[id := commentData];
        }
      } else {
        FreshIdExists(table);
        var newId :| AboveAll(table, newId);
        table := table[newId := commentData];
        var self := comment.SetId(newId);
      }
      ok := true;
    }

    /**
     * `delete`: first the reply `findByParent` returns, recursively, then the
     * comment itself is found, marked deleted and saved. No row is removed.
     * A missing id fails at `find`, after the chain below it is marked.
     */
    method Delete(id: int, today: Date) returns (ok: bool)
      requires WellFormed(table)
      modifies this
      ensures WellFormed(table)
      ensures ok == (id in old(table))
      ensures table == SoftDeleted(old(table), Cascade(old(table), id), today)
      decreases Above(table, id)
    {
      ghost var t0 := table;
      var child := FindByParent(table, id);
      if child.Some? {
        var childId := child.value.id.value;
        assert FirstReply(t0, id) == Some(childId);
        assert childId in Above(t0, id) && childId !in Above(t0, childId);
        var childDeleted := Delete(childId, today);
        assert Cascade(t0, childId) == Chain(t0, id);
      } else {
        assert Chain(t0, id) == {};
      }
      SoftDeletedLinks(t0, Chain(t0, id), today);
      var found := Find(id);
      if found.Failure? {
        assert Cascade(t0, id) == Chain(t0, id);
        return false;
      }
      var comment := found.value;
      comment.SetIsDeleted(true);
      DeletedRowSaved(table, id, today);
      var saved := Save(comment, today);
      MarkOne(t0, Chain(t0, id), id, today);
      SoftDeletedLinks(t0, Cascade(t0, id), today);
      ok := true;
    }

    /**
     * `deleteAllByUser`: `delete` on every comment the user wrote, in the
     * unspecified order the query returns them.
     */
    method DeleteAllByUser(userId: int, today: Date)
      requires WellFormed(table)
      modifies this
      ensures WellFormed(table)
      ensures table == SoftDeleted(old(table), CascadeAll(old(table), AuthoredBy(old(table), userId)), today)
    {
      var pending := AuthoredBy(table, userId);
      ghost var done: set<int> := {};
      assert CascadeAll(old(table), done) == {};
      assert table == SoftDeleted(old(table), {}, today);
      while pending != {}
        invariant WellFormed(table) && SameLinks(old(table), table)
        invariant pending + done == AuthoredBy(old(table), userId) && pending !! done
        invariant table == SoftDeleted(old(table), CascadeAll(old(table), done), today)
        decreases pending
      {
        NonEmpty(pending);
        var id :| id in pending;
        ghost var before := table;
        ChainSameLinks(old(table), before, id);
        var deleted := Delete(id, today);
        SoftDeletedTwice(old(table), CascadeAll(old(table), done), Cascade(old(table), id), today);
        CascadeAllAdd(old(table), done, id);
        SoftDeletedLinks(old(table), CascadeAll(old(table), done + {id}), today);
        pending := pending - {id};
        done := done + {id};
      }
    }

    /** `deleteAllByArticle`: removes every row of the article and no other. */
    method DeleteAllByArticle(articleId: int)
      modifies this
      ensures forall k :: k in table <==> k in old(table) && old(table)[k].artId != articleId
      ensures forall k :: k in table ==> table[k] == old(table)[k]
      ensures old(WellFormed(table)) ==> WellFormed(table)
    {
      table := map k | k in table && table[k].artId != articleId :: table[k];
    }

    /** `deleteCommentByParent`: removes the row keyed `id` and no other. */
    method DeleteCommentByParent(id: int)
      modifies this
      ensures table.Keys == old(table).Keys - {id}
      ensures forall k :: k in table ==> table[k] == old(table)[k]
      ensures old(WellFormed(table)) ==> WellFormed(table)
    {
      table := table - {id};
    }
  }
}
