/** The post handlers of handlers/posts.go over the store: CreatePost,
    ListPosts, GetPost, DeletePost, LikePost, UnlikePost. */
module Posts {
  import opened Wrappers
  import opened Http
  import opened Models
  import opened Store
  import opened Requests
  import Listing

  /** The body fields of a new post. The body's `user_id` is overwritten;
      `username` and `likes_count` are no columns, but the parser fills them
      and the reply echoes them. */
  datatype PostBody = PostBody(content: string, userID: nat, username: string, likesCount: int)

  /** CreatePost. `body` is the parsed body (None when parsing failed, which
      this handler answers with 500), `createFails` whether the INSERT
      failed. The stored owner is the authenticated caller, whatever the
      body said. */
  method CreatePost(db: Db, body: Option<PostBody>, ctx: Local, createFails: bool)
      returns (status: int, reply: Option<PostJson>)
    requires db.Valid()
    modifies db`posts, db`nextPostID
    ensures db.Valid()
    ensures status == OK <==> reply.Some?
    ensures status != OK ==> db.posts == old(db.posts) && db.nextPostID == old(db.nextPostID)
    ensures body.None? ==> status == INTERNAL_SERVER_ERROR
    ensures body.Some? && !CallerOf(ctx).Caller? ==> status == CallerRefusal(CallerOf(ctx))
    ensures body.Some? && CallerOf(ctx).Caller? ==>
              var u := CallerOf(ctx).id;
              if u !in db.users then status == BAD_REQUEST
              else if createFails then status == INTERNAL_SERVER_ERROR
              else
                && status == OK
                && db.posts == old(db.posts)[old(db.nextPostID) := Post(body.value.content, u)]
                && db.nextPostID == old(db.nextPostID) + 1
                && reply == Some(PostJson(old(db.nextPostID), body.value.content, u,
                                          body.value.username, [], body.value.likesCount))
  {
    if body.None? {
      return INTERNAL_SERVER_ERROR, None;
    }
    var caller := CallerOf(ctx);
    if !caller.Caller? {
      return CallerRefusal(caller), None;
    }
    if caller.id !in db.users {
      return BAD_REQUEST, None;
    }
    if createFails {
      return INTERNAL_SERVER_ERROR, None;
    }
    var id := db.nextPostID;
    db.posts := db.posts[id := Post(body.value.content, caller.id)];
    db.nextPostID := db.nextPostID + 1;
    return OK, Some(PostJson(id, body.value.content, caller.id, body.value.username, [], body.value.likesCount));
  }

  /** A post as GetPost and ListPosts send it: the owner's name copied from
      the preloaded user and the number of like rows for the post. */
  function PostView(users: map<nat, User>, posts: map<nat, Post>, postLikes: seq<Like>, id: nat): (r: PostJson)
    requires id in posts
    ensures r.id == id && r.content == posts[id].content && r.userID == posts[id].userID
    ensures r.username == OwnerName(users, r.userID) && r.likesCount == LikeCount(postLikes, id)
  {
    var p := posts[id];
    PostJson(id, p.content, p.userID, OwnerName(users, p.userID), [], LikeCount(postLikes, id))
  }

  /** Under the store invariant the likes count a post is shown with is the
      number of distinct users who like it. */
  lemma PostViewCountsLikers(users: map<nat, User>, posts: map<nat, Post>, postLikes: seq<Like>, id: nat)
    requires id in posts && NoDuplicateLikes(postLikes)
    ensures PostView(users, posts, postLikes, id).likesCount == |Likers(postLikes, id)|
  {
    LikeCountCountsLikers(postLikes, id);
  }

  /** GetPost. */
  method GetPost(db: Db, idParam: string) returns (status: int, reply: Option<PostJson>)
    ensures status == OK <==> reply.Some?
    ensures FindByPath(db.posts, idParam).None? ==> status == NOT_FOUND
    ensures FindByPath(db.posts, idParam).Some? ==>
              reply == Some(PostView(db.users, db.posts, db.postLikes, FindByPath(db.posts, idParam).value))
  {
    var found := FindByPath(db.posts, idParam);
    if found.None? {
      return NOT_FOUND, None;
    }
    var p := db.posts[found.value];
    reply := Some(PostJson(found.value, p.content, p.userID, "", [], 0));
    var count := LikeCount(db.postLikes, found.value);
    reply := Some(reply.value.(likesCount := count, username := OwnerName(db.users, p.userID)));
    return OK, reply;
  }

  /** ListPosts. The method hands the store the plan it computed (`query`);
      `rows` is what the store answered: the ids of the page of posts it
      found, or None when the query failed (ordering by `likes_count`, which
      passes the whitelist but is no column, is such a query). */
  method ListPosts(db: Db, pageParam: string, pageSizeParam: string,
                   sortFieldParam: string, sortOrderParam: string, rows: Option<seq<nat>>)
      returns (status: int, query: Option<Listing.ListPlan>, reply: seq<PostJson>)
    requires rows.Some? ==> forall k :: 0 <= k < |rows.value| ==> rows.value[k] in db.posts
    ensures query == Listing.PlanList(pageParam, pageSizeParam, sortFieldParam, sortOrderParam)
    ensures query.None? ==> status == BAD_REQUEST && reply == []
    ensures query.Some? && rows.None? ==> status == INTERNAL_SERVER_ERROR && reply == []
    ensures query.Some? && rows.Some? ==>
              && status == OK
              && |reply| == |rows.value|
              && forall k :: 0 <= k < |reply| ==>
                   reply[k] == PostView(db.users, db.posts, db.postLikes, rows.value[k])
  {
    query := Listing.PlanList(pageParam, pageSizeParam, sortFieldParam, sortOrderParam);
    if query.None? {
      return BAD_REQUEST, query, [];
    }
    if rows.None? {
      return INTERNAL_SERVER_ERROR, query, [];
    }
    var ids := rows.value;
    var posts := db.posts;
    reply := seq(|ids|, k requires 0 <= k < |ids| =>
                   PostJson(ids[k], posts[ids[k]].content, posts[ids[k]].userID, "", [], 0));
    var i := 0;
    while i < |reply|
      invariant 0 <= i <= |reply| == |ids|
      invariant forall k :: 0 <= k < i ==> reply[k] == PostView(db.users, db.posts, db.postLikes, ids[k])
      invariant forall k :: i <= k < |reply| ==>
                  reply[k] == PostJson(ids[k], posts[ids[k]].content, posts[ids[k]].userID, "", [], 0)
    {
      var count := LikeCount(db.postLikes, reply[i].id);
      reply := reply[i := reply[i].(likesCount := count, username := OwnerName(db.users, reply[i].userID))];
      i := i + 1;
    }
    return OK, query, reply;
  }

  /** The index of the first id in `ids` that is in `failing`, or |ids|
      when none is. */
  function FirstFailure(ids: seq<nat>, failing: set<nat>): (k: nat)
    ensures k <= |ids|
    ensures forall j :: 0 <= j < k ==> ids[j] !in failing
    ensures k < |ids| ==> ids[k] in failing
  {
    if ids == [] then 0
    else if ids[0] in failing then 0
    else 1 + FirstFailure(ids[1..], failing)
  }

  /** The first `k` ids of `ids`, as a set. */
  function Prefix(ids: seq<nat>, k: nat): set<nat>
    requires k <= |ids|
  {
    if k == 0 then {} else Prefix(ids, k - 1) + {ids[k - 1]}
  }

  lemma {:induction false} PrefixMembers(ids: seq<nat>, k: nat)
    requires k <= |ids|
    ensures forall x :: x in Prefix(ids, k) <==> x in ids[..k]
  {
    if k > 0 {
      PrefixMembers(ids, k - 1);
      assert ids[..k] == ids[..k - 1] + [ids[k - 1]];
    }
  }

  /** Every id of `s` is among the ids listed before the end. */
  lemma PrefixOfSorted(s: set<nat>)
    ensures Prefix(SortedIds(s), |SortedIds(s)|) == s
  {
    var cs := SortedIds(s);
    PrefixMembers(cs, |cs|);
    assert cs[..|cs|] == cs;
  }

  lemma RemoveOneMore(m: map<nat, Comment>, gone: set<nat>, x: nat)
    ensures (m - gone) - {x} == m - (gone + {x})
  {
  }

  /** The loop of DeletePost over the post's comments `cs`: each is
      deleted in turn until one in `failing` stops the loop. */
  method DeleteComments(db: Db, cs: seq<nat>, failing: set<nat>) returns (stopped: bool)
    requires db.Valid()
    modifies db`comments
    ensures db.Valid()
    ensures stopped <==> FirstFailure(cs, failing) < |cs|
    ensures db.comments == old(db.comments) - Prefix(cs, FirstFailure(cs, failing))
  {
    ghost var k := FirstFailure(cs, failing);
    var i := 0;
    while i < |cs|
      invariant 0 <= i <= |cs| && i <= k
      invariant db.comments == old(db.comments) - Prefix(cs, i)
      invariant db.Valid()
    {
      if cs[i] in failing {
        return true;
      }
      RemoveOneMore(old(db.comments), Prefix(cs, i), cs[i]);
      db.RemoveComment(cs[i]);
      i := i + 1;
    }
    return false;
  }

  /** The comments of post `postID` in the order DeletePost deletes them:
      the order `Preload("Comments")` loads them in. */
  function CascadeOrder(comments: map<nat, Comment>, postID: nat): seq<nat>
  {
    SortedIds(CommentsOf(comments, postID))
  }

  /** Whether one of the post's comments fails to delete, stopping DeletePost. */
  function CascadeStops(comments: map<nat, Comment>, postID: nat, failing: set<nat>): bool
  {
    FirstFailure(CascadeOrder(comments, postID), failing) < |CascadeOrder(comments, postID)|
  }

  /** The comments DeletePost removes before it stops or finishes: those in
      front of the first failing one. */
  function CascadeDeleted(comments: map<nat, Comment>, postID: nat, failing: set<nat>): set<nat>
  {
    Prefix(CascadeOrder(comments, postID), FirstFailure(CascadeOrder(comments, postID), failing))
  }

  /** When no comment fails, the cascade removes every comment of the post
      and no other. */
  lemma CascadeCompletes(comments: map<nat, Comment>, postID: nat, failing: set<nat>)
    requires !CascadeStops(comments, postID, failing)
    ensures CascadeDeleted(comments, postID, failing) == CommentsOf(comments, postID)
  {
    PrefixOfSorted(CommentsOf(comments, postID));
  }

  /** The whole cascade of DeletePost for post `postID`. */
  method DeletePostComments(db: Db, postID: nat, failing: set<nat>) returns (stopped: bool)
    requires db.Valid()
    modifies db`comments
    ensures db.Valid()
    ensures stopped == CascadeStops(old(db.comments), postID, failing)
    ensures db.comments == old(db.comments) - CascadeDeleted(old(db.comments), postID, failing)
  {
    var cs := CascadeOrder(db.comments, postID);
    stopped := DeleteComments(db, cs, failing);
  }

  /** DeletePost. The post's comments are deleted one by one in primary-key
      order; `failing` holds the comments whose DELETE fails, and the first
      of them stops the handler with 500, the comments before it gone and
      the post still there. `postDeleteFails` is whether deleting the post
      itself fails. Nothing runs in a transaction, and likes stay. */
  method DeletePost(db: Db, idParam: string, failing: set<nat>, postDeleteFails: bool) returns (status: int)
    requires db.Valid()
    modifies db`posts, db`comments
    ensures db.Valid()
    ensures FindByPath(old(db.posts), idParam).None? ==>
              status == NOT_FOUND && db.posts == old(db.posts) && db.comments == old(db.comments)
    ensures FindByPath(old(db.posts), idParam).Some? ==>
              var id := FindByPath(old(db.posts), idParam).value;
              && db.comments == old(db.comments) - CascadeDeleted(old(db.comments), id, failing)
              && if CascadeStops(old(db.comments), id, failing) || postDeleteFails then
                   status == INTERNAL_SERVER_ERROR && db.posts == old(db.posts)
                 else status == OK && db.posts == old(db.posts) - {id}
  {
    var found := FindByPath(db.posts, idParam);
    if found.None? {
      return NOT_FOUND;
    }
    var stopped := DeletePostComments(db, found.value, failing);
    if stopped {
      return INTERNAL_SERVER_ERROR;
    }
    if postDeleteFails {
      return INTERNAL_SERVER_ERROR;
    }
    db.RemovePost(found.value);
    return OK;
  }

  /** LikePost. `createFails` is whether the INSERT failed. The post is not
      looked up: a like on an id with no post is stored all the same. */
  method LikePost(db: Db, ctx: Local, idParam: string, createFails: bool) returns (status: int)
    requires db.Valid()
    modifies db`postLikes
    ensures db.Valid()
    ensures status != OK ==> db.postLikes == old(db.postLikes)
    ensures LikeRequestOf(ctx, idParam).Refused? ==> status == LikeRequestOf(ctx, idParam).status
    ensures LikeRequestOf(ctx, idParam).Pair? ==>
              var like := LikeRequestOf(ctx, idParam).like;
              if like in old(db.postLikes) then status == ALREADY_REPORTED
              else if createFails then status == INTERNAL_SERVER_ERROR
              else status == OK && db.postLikes == old(db.postLikes) + [like]
    ensures status == OK ==>
              forall t :: (LikeCount(db.postLikes, t) == LikeCount(old(db.postLikes), t) +
                             (if t == LikeRequestOf(ctx, idParam).like.targetID then 1 else 0))
  {
    var request := LikeRequestOf(ctx, idParam);
    if request.Refused? {
      return request.status;
    }
    var like := request.like;
    if like in db.postLikes {
      return ALREADY_REPORTED;
    }
    if createFails {
      return INTERNAL_SERVER_ERROR;
    }
    AddingNewLikeKeepsNoDuplicates(db.postLikes, like);
    forall t ensures LikeCount(db.postLikes + [like], t) ==
                     LikeCount(db.postLikes, t) + (if t == like.targetID then 1 else 0) {
      LikeCountAppend(db.postLikes, like, t);
    }
    db.postLikes := db.postLikes + [like];
    return OK;
  }

  /** UnlikePost. `deleteFails` is whether the DELETE failed. Every row of
      the pair goes; every other like stays. */
  method UnlikePost(db: Db, ctx: Local, idParam: string, deleteFails: bool) returns (status: int)
    requires db.Valid()
    modifies db`postLikes
    ensures db.Valid()
    ensures status != OK ==> db.postLikes == old(db.postLikes)
    ensures LikeRequestOf(ctx, idParam).Refused? ==> status == LikeRequestOf(ctx, idParam).status
    ensures LikeRequestOf(ctx, idParam).Pair? ==>
              var like := LikeRequestOf(ctx, idParam).like;
              if like !in old(db.postLikes) then status == NOT_FOUND
              else if deleteFails then status == INTERNAL_SERVER_ERROR
              else status == OK && db.postLikes == WithoutLike(old(db.postLikes), like)
    ensures status == OK ==>
              forall t :: (LikeCount(db.postLikes, t) == LikeCount(old(db.postLikes), t) -
                             (if t == LikeRequestOf(ctx, idParam).like.targetID then 1 else 0))
  {
    var request := LikeRequestOf(ctx, idParam);
    if request.Refused? {
      return request.status;
    }
    var like := request.like;
    if like !in db.postLikes {
      return NOT_FOUND;
    }
    if deleteFails {
      return INTERNAL_SERVER_ERROR;
    }
    WithoutLikeKeepsNoDuplicates(db.postLikes, like);
    forall t ensures LikeCount(WithoutLike(db.postLikes, like), t) ==
                     LikeCount(db.postLikes, t) - (if t == like.targetID then 1 else 0) {
      WithoutLikeCount(db.postLikes, like, t);
    }
    db.postLikes := WithoutLike(db.postLikes, like);
    return OK;
  }

  /** Liking a post and then unliking it, as the same caller, answers 200
      twice and leaves the like table as it was. */
  method LikeThenUnlikePost(db: Db, ctx: Local, idParam: string) returns (likeStatus: int, unlikeStatus: int)
    requires db.Valid()
    requires LikeRequestOf(ctx, idParam).Pair? && LikeRequestOf(ctx, idParam).like !in db.postLikes
    modifies db`postLikes
    ensures likeStatus == OK && unlikeStatus == OK
    ensures db.postLikes == old(db.postLikes)
  {
    likeStatus := LikePost(db, ctx, idParam, false);
    unlikeStatus := UnlikePost(db, ctx, idParam, false);
    UnlikeUndoesLike(old(db.postLikes), LikeRequestOf(ctx, idParam).like);
  }
}
