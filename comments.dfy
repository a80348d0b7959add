/** The comment handlers of handlers/comments.go over the store:
    CreateComment, ListComments, GetComment, DeleteComment, LikeComment,
    UnlikeComment. */
module Comments {
  import opened Wrappers
  import opened Http
  import opened Models
  import opened Store
  import opened Requests
  import Listing
  import Strconv

  /** The body fields of a new comment. `user_id` and `post_id` in the body
      are overwritten; `username` and `likes_count` are no columns, but the
      parser fills them and the reply echoes them. */
  datatype CommentBody = CommentBody(content: string, userID: nat, postID: nat,
                                     username: string, likesCount: int)

  /** The post a comment is created under: the path id read with Atoi
      (None is the 400 "Invalid post ID format"). */
  function CommentTarget(idParam: string): (r: Option<int>)
    ensures r.Some? <==> Strconv.Atoi(idParam).err.None?
    ensures r.Some? ==> r.value == Strconv.Atoi(idParam).value
  {
    var a := Strconv.Atoi(idParam);
    if a.err.None? then Some(a.value) else None
  }

  /** CreateComment. `body` is the parsed body (None when parsing failed,
      answered with 500), `createFails` whether the INSERT failed. The path
      id is parsed before the caller is looked at, and the post is looked up
      by that integer key, so a negative id finds no post. */
  method CreateComment(db: Db, idParam: string, body: Option<CommentBody>, ctx: Local, createFails: bool)
      returns (status: int, reply: Option<CommentJson>)
    requires db.Valid()
    modifies db`comments, db`nextCommentID
    ensures db.Valid()
    ensures status == OK <==> reply.Some?
    ensures status != OK ==> db.comments == old(db.comments) && db.nextCommentID == old(db.nextCommentID)
    ensures body.None? ==> status == INTERNAL_SERVER_ERROR
    ensures body.Some? && CommentTarget(idParam).None? ==> status == BAD_REQUEST
    ensures body.Some? && CommentTarget(idParam).Some? && !CallerOf(ctx).Caller? ==>
              status == CallerRefusal(CallerOf(ctx))
    ensures body.Some? && CommentTarget(idParam).Some? && CallerOf(ctx).Caller? ==>
              var p := CommentTarget(idParam).value;
              var u := CallerOf(ctx).id;
              if p < 0 || p !in db.posts then status == NOT_FOUND
              else if createFails then status == INTERNAL_SERVER_ERROR
              else
                && status == OK
                && db.comments == old(db.comments)[old(db.nextCommentID) := Comment(body.value.content, u, p)]
                && db.nextCommentID == old(db.nextCommentID) + 1
                && reply == Some(CommentJson(old(db.nextCommentID), body.value.content, u,
                                             body.value.username, p, body.value.likesCount))
  {
    if body.None? {
      return INTERNAL_SERVER_ERROR, None;
    }
    var target := CommentTarget(idParam);
    if target.None? {
      return BAD_REQUEST, None;
    }
    var caller := CallerOf(ctx);
    if !caller.Caller? {
      return CallerRefusal(caller), None;
    }
    var postID := target.value;
    if postID < 0 || postID !in db.posts {
      return NOT_FOUND, None;
    }
    if createFails {
      return INTERNAL_SERVER_ERROR, None;
    }
    var id := db.nextCommentID;
    db.comments := db.comments[id := Comment(body.value.content, caller.id, postID)];
    db.nextCommentID := db.nextCommentID + 1;
    return OK, Some(CommentJson(id, body.value.content, caller.id, body.value.username, postID, body.value.likesCount));
  }

  /** A post id written in decimal names that post. */
  lemma CommentTargetOfDecimal(postID: nat)
    requires postID <= Strconv.MaxInt64
    ensures CommentTarget(Strconv.Format(postID)) == Some(postID)
  {
    Strconv.AtoiOfFormatInt(postID);
  }

  /** A comment as GetComment and ListComments send it: the owner's name
      copied from the preloaded user and the number of like rows for it. */
  function CommentView(users: map<nat, User>, comments: map<nat, Comment>, commentLikes: seq<Like>, id: nat): (r: CommentJson)
    requires id in comments
    ensures r.id == id && r.content == comments[id].content && r.userID == comments[id].userID
    ensures r.postID == comments[id].postID
    ensures r.username == OwnerName(users, r.userID) && r.likesCount == LikeCount(commentLikes, id)
  {
    var c := comments[id];
    CommentJson(id, c.content, c.userID, OwnerName(users, c.userID), c.postID, LikeCount(commentLikes, id))
  }

  /** Under the store invariant the likes count a comment is shown with is
      the number of distinct users who like it. */
  lemma CommentViewCountsLikers(users: map<nat, User>, comments: map<nat, Comment>, commentLikes: seq<Like>, id: nat)
    requires id in comments && NoDuplicateLikes(commentLikes)
    ensures CommentView(users, comments, commentLikes, id).likesCount == |Likers(commentLikes, id)|
  {
    LikeCountCountsLikers(commentLikes, id);
  }

  /** GetComment. */
  method GetComment(db: Db, idParam: string) returns (status: int, reply: Option<CommentJson>)
    ensures status == OK <==> reply.Some?
    ensures FindByPath(db.comments, idParam).None? ==> status == NOT_FOUND
    ensures FindByPath(db.comments, idParam).Some? ==>
              reply == Some(CommentView(db.users, db.comments, db.commentLikes, FindByPath(db.comments, idParam).value))
  {
    var found := FindByPath(db.comments, idParam);
    if found.None? {
      return NOT_FOUND, None;
    }
    var c := db.comments[found.value];
    reply := Some(CommentJson(found.value, c.content, c.userID, "", c.postID, 0));
    var count := LikeCount(db.commentLikes, found.value);
    reply := Some(reply.value.(likesCount := count, username := OwnerName(db.users, c.userID)));
    return OK, reply;
  }

  /** ListComments. The method hands the store the plan it computed
      (`query`); `rows` is what the store answered: the ids of the page of
      comments it found, or None when the query failed. */
  method ListComments(db: Db, pageParam: string, pageSizeParam: string,
                      sortFieldParam: string, sortOrderParam: string, rows: Option<seq<nat>>)
      returns (status: int, query: Option<Listing.ListPlan>, reply: seq<CommentJson>)
    requires rows.Some? ==> forall k :: 0 <= k < |rows.value| ==> rows.value[k] in db.comments
    ensures query == Listing.PlanList(pageParam, pageSizeParam, sortFieldParam, sortOrderParam)
    ensures query.None? ==> status == BAD_REQUEST && reply == []
    ensures query.Some? && rows.None? ==> status == INTERNAL_SERVER_ERROR && reply == []
    ensures query.Some? && rows.Some? ==>
              && status == OK
              && |reply| == |rows.value|
              && forall k :: 0 <= k < |reply| ==>
                   reply[k] == CommentView(db.users, db.comments, db.commentLikes, rows.value[k])
  {
    query := Listing.PlanList(pageParam, pageSizeParam, sortFieldParam, sortOrderParam);
    if query.None? {
      return BAD_REQUEST, query, [];
    }
    if rows.None? {
      return INTERNAL_SERVER_ERROR, query, [];
    }
    var ids := rows.value;
    var comments := db.comments;
    reply := seq(|ids|, k requires 0 <= k < |ids| =>
                   CommentJson(ids[k], comments[ids[k]].content, comments[ids[k]].userID, "", comments[ids[k]].postID, 0));
    var i := 0;
    while i < |reply|
      invariant 0 <= i <= |reply| == |ids|
      invariant forall k :: 0 <= k < i ==> reply[k] == CommentView(db.users, db.comments, db.commentLikes, ids[k])
      invariant forall k :: i <= k < |reply| ==>
                  reply[k] == CommentJson(ids[k], comments[ids[k]].content, comments[ids[k]].userID, "",
                                          comments[ids[k]].postID, 0)
    {
      var count := LikeCount(db.commentLikes, reply[i].id);
      reply := reply[i := reply[i].(likesCount := count, username := OwnerName(db.users, reply[i].userID))];
      i := i + 1;
    }
    return OK, query, reply;
  }

  /** DeleteComment. `deleteFails` is whether the DELETE failed, which the
      handler does not look at: once the comment is found the answer is 200,
      and after a failed DELETE the comment is still stored. Its likes stay. */
  method DeleteComment(db: Db, idParam: string, deleteFails: bool) returns (status: int)
    requires db.Valid()
    modifies db`comments
    ensures db.Valid()
    ensures FindByPath(old(db.comments), idParam).None? ==>
              status == NOT_FOUND && db.comments == old(db.comments)
    ensures FindByPath(old(db.comments), idParam).Some? ==>
              status == OK &&
              db.comments == old(db.comments) -
                             (if deleteFails then {} else {FindByPath(old(db.comments), idParam).value})
  {
    var found := FindByPath(db.comments, idParam);
    if found.None? {
      return NOT_FOUND;
    }
    if !deleteFails {
      db.RemoveComment(found.value);
    }
    return OK;
  }

  /** LikeComment. `createFails` is whether the INSERT failed. The comment
      is not looked up: a like on an id with no comment is stored all the
      same. */
  method LikeComment(db: Db, ctx: Local, idParam: string, createFails: bool) returns (status: int)
    requires db.Valid()
    modifies db`commentLikes
    ensures db.Valid()
    ensures status != OK ==> db.commentLikes == old(db.commentLikes)
    ensures LikeRequestOf(ctx, idParam).Refused? ==> status == LikeRequestOf(ctx, idParam).status
    ensures LikeRequestOf(ctx, idParam).Pair? ==>
              var like := LikeRequestOf(ctx, idParam).like;
              if like in old(db.commentLikes) then status == ALREADY_REPORTED
              else if createFails then status == INTERNAL_SERVER_ERROR
              else status == OK && db.commentLikes == old(db.commentLikes) + [like]
    ensures status == OK ==>
              forall t :: (LikeCount(db.commentLikes, t) == LikeCount(old(db.commentLikes), t) +
                             (if t == LikeRequestOf(ctx, idParam).like.targetID then 1 else 0))
  {
    var request := LikeRequestOf(ctx, idParam);
    if request.Refused? {
      return request.status;
    }
    var like := request.like;
    if like in db.commentLikes {
      return ALREADY_REPORTED;
    }
    if createFails {
      return INTERNAL_SERVER_ERROR;
    }
    AddingNewLikeKeepsNoDuplicates(db.commentLikes, like);
    forall t ensures LikeCount(db.commentLikes + [like], t) ==
                     LikeCount(db.commentLikes, t) + (if t == like.targetID then 1 else 0) {
      LikeCountAppend(db.commentLikes, like, t);
    }
    db.commentLikes := db.commentLikes + [like];
    return OK;
  }

  /** UnlikeComment. `deleteFails` is whether the DELETE failed. */
  method UnlikeComment(db: Db, ctx: Local, idParam: string, deleteFails: bool) returns (status: int)
    requires db.Valid()
    modifies db`commentLikes
    ensures db.Valid()
    ensures status != OK ==> db.commentLikes == old(db.commentLikes)
    ensures LikeRequestOf(ctx, idParam).Refused? ==> status == LikeRequestOf(ctx, idParam).status
    ensures LikeRequestOf(ctx, idParam).Pair? ==>
              var like := LikeRequestOf(ctx, idParam).like;
              if like !in old(db.commentLikes) then status == NOT_FOUND
              else if deleteFails then status == INTERNAL_SERVER_ERROR
              else status == OK && db.commentLikes == WithoutLike(old(db.commentLikes), like)
    ensures status == OK ==>
              forall t :: (LikeCount(db.commentLikes, t) == LikeCount(old(db.commentLikes), t) -
                             (if t == LikeRequestOf(ctx, idParam).like.targetID then 1 else 0))
  {
    var request := LikeRequestOf(ctx, idParam);
    if request.Refused? {
      return request.status;
    }
    var like := request.like;
    if like !in db.commentLikes {
      return NOT_FOUND;
    }
    if deleteFails {
      return INTERNAL_SERVER_ERROR;
    }
    WithoutLikeKeepsNoDuplicates(db.commentLikes, like);
    forall t ensures LikeCount(WithoutLike(db.commentLikes, like), t) ==
                     LikeCount(db.commentLikes, t) - (if t == like.targetID then 1 else 0) {
      WithoutLikeCount(db.commentLikes, like, t);
    }
    db.commentLikes := WithoutLike(db.commentLikes, like);
    return OK;
  }

  /** Liking a comment twice: the second request answers 208 and stores
      nothing more. */
  method LikeCommentTwice(db: Db, ctx: Local, idParam: string) returns (first: int, second: int)
    requires db.Valid()
    requires LikeRequestOf(ctx, idParam).Pair? && LikeRequestOf(ctx, idParam).like !in db.commentLikes
    modifies db`commentLikes
    ensures first == OK && second == ALREADY_REPORTED
    ensures db.commentLikes == old(db.commentLikes) + [LikeRequestOf(ctx, idParam).like]
  {
    first := LikeComment(db, ctx, idParam, false);
    second := LikeComment(db, ctx, idParam, false);
  }
}
