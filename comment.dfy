/**
 * The Comment entity: a plain mutable record whose fields are changed through
 * setters. Articles and users are held as references that carry their id.
 */
module Domain {
  import opened Wrappers

  /** An article, as the article lookup returns it; the store only uses its id. */
  datatype Article = Article(id: int)

  /** A user, as the user lookup returns it; the store only uses its id. */
  datatype User = User(id: int)

  /** A calendar date in the `Y-m-d` form the store writes. */
  type Date = string

  /**
   * The value of every field of a Comment at one moment. An unset field
   * (PHP `null`) is `None`; `childComments` holds the replies as values.
   */
  datatype CommentState = CommentState(
    id: Option<int>,
    author: Option<User>,
    content: Option<string>,
    article: Option<Article>,
    commentDate: Option<Date>,
    parentId: int,
    isSignaled: bool,
    isDeleted: bool,
    childComments: Option<seq<CommentState>>)

  class Comment {
    var id: Option<int>
    var author: Option<User>
    var content: Option<string>
    var article: Option<Article>
    var commentDate: Option<Date>
    var parentId: int
    var isSignaled: bool
    var isDeleted: bool
    var childComments: Option<seq<CommentState>>

    /** All fields of this comment, as one value. */
    function State(): CommentState
      reads this
    {
      CommentState(id, author, content, article, commentDate, parentId, isSignaled, isDeleted, childComments)
    }

    /** A new comment: top-level, not signalled, not deleted, everything else unset. */
    constructor ()
      ensures id == None && author == None && content == None && article == None
      ensures commentDate == None && childComments == None
      ensures parentId == 0 && !isSignaled && !isDeleted
    {
      id, author, content, article, commentDate := None, None, None, None, None;
      parentId, isSignaled, isDeleted := 0, false, false;
      childComments := None;
    }

    function GetId(): Option<int> reads this { id }
    function GetAuthor(): Option<User> reads this { author }
    function GetContent(): Option<string> reads this { content }
    function GetArticle(): Option<Article> reads this { article }
    function GetParentId(): int reads this { parentId }
    function GetChildComments(): Option<seq<CommentState>> reads this { childComments }
    function GetIsSignaled(): bool reads this { isSignaled }
    function GetCommentDate(): Option<Date> reads this { commentDate }
    function GetIsDeleted(): bool reads this { isDeleted }

    method SetId(newId: int) returns (self: Comment)
      modifies this
      ensures self == this && GetId() == Some(newId)
      ensures State() == old(State()).(id := Some(newId))
    {
      id := Some(newId);
      self := this;
    }

    method SetAuthor(newAuthor: User) returns (self: Comment)
      modifies this
      ensures self == this && GetAuthor() == Some(newAuthor)
      ensures State() == old(State()).(author := Some(newAuthor))
    {
      author := Some(newAuthor);
      self := this;
    }

    /** The content is stored as given, `None` standing for a null column value. */
    method SetContent(newContent: Option<string>) returns (self: Comment)
      modifies this
      ensures self == this && GetContent() == newContent
      ensures State() == old(State()).(content := newContent)
    {
      content := newContent;
      self := this;
    }

    method SetArticle(newArticle: Article) returns (self: Comment)
      modifies this
      ensures self == this && GetArticle() == Some(newArticle)
      ensures State() == old(State()).(article := Some(newArticle))
    {
      article := Some(newArticle);
      self := this;
    }

    method SetParentId(parentComment: int)
      modifies this
      ensures GetParentId() == parentComment
      ensures State() == old(State()).(parentId := parentComment)
    {
      parentId := parentComment;
    }

    /** The list is stored unchanged; the getter hands back that same list. */
    method SetChildComments(comments: seq<CommentState>)
      modifies this
      ensures GetChildComments() == Some(comments)
      ensures State() == old(State()).(childComments := Some(comments))
    {
      childComments := Some(comments);
    }

    method SetIsSignaled(b: bool)
      modifies this
      ensures GetIsSignaled() == b
      ensures State() == old(State()).(isSignaled := b)
    {
      isSignaled := b;
    }

    method SetCommentDate(date: Date)
      modifies this
      ensures GetCommentDate() == Some(date)
      ensures State() == old(State()).(commentDate := Some(date))
    {
      commentDate := Some(date);
    }

    method SetIsDeleted(b: bool)
      modifies this
      ensures GetIsDeleted() == b
      ensures State() == old(State()).(isDeleted := b)
    {
      isDeleted := b;
    }
  }
}
