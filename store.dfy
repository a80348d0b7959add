/** The relational store the handlers reach through the global database
    handle, passed to each handler explicitly. Each map holds the rows that
    are not soft-deleted (gorm.Model's DeletedAt), keyed by primary key; the
    counters are the tables' auto-increment values. */
module Store {
  import opened Wrappers
  import opened Models
  import Strconv

  class Db {
    var users: map<nat, User>
    var posts: map<nat, Post>
    var comments: map<nat, Comment>
    var postLikes: seq<Like>
    var commentLikes: seq<Like>
    var follows: set<Follow>
    var nextUserID: nat
    var nextPostID: nat
    var nextCommentID: nat

    /** Primary keys are positive and below their counter, nobody follows
        themselves, and no like pair is stored twice. */
    ghost predicate Valid()
      reads this
      ensures Valid() ==> nextUserID !in users && nextPostID !in posts && nextCommentID !in comments
    {
      && 0 < nextUserID && 0 < nextPostID && 0 < nextCommentID
      && (forall id :: id in users ==> 0 < id < nextUserID)
      && (forall id :: id in posts ==> 0 < id < nextPostID)
      && (forall id :: id in comments ==> 0 < id < nextCommentID)
      && (forall f :: f in follows ==> f.followerID != f.followingID)
      && NoDuplicateLikes(postLikes) && NoDuplicateLikes(commentLikes)
    }

    /** A freshly migrated, empty store. */
    constructor ()
      ensures Valid()
      ensures users == map[] && posts == map[] && comments == map[]
      ensures postLikes == [] && commentLikes == [] && follows == {}
    {
      users, posts, comments := map[], map[], map[];
      postLikes, commentLikes, follows := [], [], {};
      nextUserID, nextPostID, nextCommentID := 1, 1, 1;
    }

    /** The soft delete of one post row. */
    method RemovePost(id: nat)
      requires Valid()
      modifies `posts
      ensures Valid()
      ensures posts == old(posts) - {id}
    {
      posts := posts - {id};
    }

    /** The soft delete of one comment row. */
    method RemoveComment(id: nat)
      requires Valid()
      modifies `comments
      ensures Valid()
      ensures comments == old(comments) - {id}
    {
      comments := comments - {id};
    }
  }

  /** The primary key `First(&row, s)` looks for when given a path string:
      a string Atoi accepts names the key it denotes (a negative one names
      no row). Other strings become raw SQL conditions, which are not part
      of this model and find nothing here. */
  function PathKey(s: string): (k: Option<nat>)
    ensures k.Some? ==> Strconv.Atoi(s) == Strconv.IntResult(k.value, None)
  {
    var r := Strconv.Atoi(s);
    if r.err.None? && r.value >= 0 then Some(r.value as nat) else None
  }

  /** `First(&row, s)` on a table: the key of the row found, if any. */
  function FindByPath<V>(rows: map<nat, V>, s: string): (r: Option<nat>)
    ensures r.Some? ==> r.value in rows && PathKey(s) == r
    ensures r.None? <==> PathKey(s).None? || PathKey(s).value !in rows
  {
    match PathKey(s)
    case Some(k) => if k in rows then Some(k) else None
    case None => None
  }

  /** A key written in decimal finds its row, and only its row. */
  lemma FindByDecimal<V>(rows: map<nat, V>, id: nat)
    requires id <= Strconv.MaxInt64
    ensures FindByPath(rows, Strconv.Format(id)) == if id in rows then Some(id) else None
  {
    Strconv.AtoiOfFormatInt(id);
  }
}
