/** The account and social-graph handlers of handlers/auth.go over the
    store: Signup, Signin, ListUsers, DeleteUser, FollowUser, UnfollowUser.
    (RefreshToken works on tokens alone and is in the Jwt module.)

    bcrypt is a pair of oracles: `hashed` is the hash GenerateFromPassword
    produced for this request (it salts at random, so it is an input), and
    `verify(hash, password)` is CompareHashAndPassword's verdict. */
module Auth {
  import opened Wrappers
  import opened Http
  import opened Models
  import opened Store
  import Strconv
  import Jwt

  /** The two body fields sign-up and sign-in read. */
  datatype Credentials = Credentials(username: string, password: string)

  /** How the client sent the body. `BodyParser` decodes a JSON body with
      encoding/json, which skips the Password field because of its
      `json:"-"` tag; a form body fills it. */
  datatype BodyFormat = JsonBody | FormBody

  /** The credentials `BodyParser` leaves in the User record for a body
      that parses and carries these two values. */
  function ParsedCredentials(format: BodyFormat, username: string, password: string): (c: Credentials)
    ensures c.username == username
    ensures format.JsonBody? ==> c.password == ""
    ensures format.FormBody? ==> c.password == password
  {
    Credentials(username, if format.JsonBody? then "" else password)
  }

  /** Signup. `body` is the parsed body (None when parsing failed) and
      `createFails` whether the INSERT failed, which the handler does not
      look at: it answers 200 either way, showing id 0 when nothing was
      stored. Usernames are not checked for uniqueness. */
  method Signup(db: Db, body: Option<Credentials>, hashed: Option<string>, createFails: bool)
      returns (status: int, reply: Option<UserJson>)
    requires db.Valid()
    modifies db`users, db`nextUserID
    ensures db.Valid()
    ensures status == OK <==> reply.Some?
    ensures body.None? ==> status == BAD_REQUEST
    ensures body.Some? && hashed.None? ==> status == INTERNAL_SERVER_ERROR
    ensures status != OK || createFails ==>
              db.users == old(db.users) && db.nextUserID == old(db.nextUserID)
    ensures body.Some? && hashed.Some? ==>
              var row := User(body.value.username, hashed.value);
              status == OK &&
              if createFails then reply == Some(UserToJson(0, row))
              else
                && db.users == old(db.users)[old(db.nextUserID) := row]
                && db.nextUserID == old(db.nextUserID) + 1
                && reply == Some(UserToJson(old(db.nextUserID), row))
  {
    if body.None? {
      return BAD_REQUEST, None;
    }
    if hashed.None? {
      return INTERNAL_SERVER_ERROR, None;
    }
    var row := User(body.value.username, hashed.value);
    var id := 0;
    if !createFails {
      id := db.nextUserID;
      db.users := db.users[id := row];
      db.nextUserID := db.nextUserID + 1;
    }
    return OK, Some(UserToJson(id, row));
  }

  /** The row `Where("username = ?", name).First(&user)` returns: of the
      users with that name, the one with the lowest primary key. */
  function FirstByUsername(users: map<nat, User>, name: string): (r: Option<nat>)
    ensures r.None? <==> forall id :: id in users ==> users[id].username != name
    ensures r.Some? ==> r.value in users && users[r.value].username == name
    ensures r.Some? ==> forall id :: id in users && users[id].username == name ==> r.value <= id
  {
    var ids := set id | id in users && users[id].username == name;
    assert forall id :: id in users && users[id].username == name ==> id in ids;
    if ids == {} then None else Some(MinId(ids))
  }

  /** The body of a successful sign-in. */
  datatype SessionTokens = SessionTokens(accessToken: string, refreshToken: string)

  /** Signin. Both tokens are stamped with the one instant `now`. */
  method Signin(db: Db, body: Option<Credentials>, verify: (string, string) -> bool,
                sign: Jwt.Token -> Option<string>, now: int)
      returns (status: int, tokens: Option<SessionTokens>)
    ensures status == OK <==> tokens.Some?
    ensures body.None? ==> status == BAD_REQUEST
    ensures body.Some? && FirstByUsername(db.users, body.value.username).None? ==>
              status == UNAUTHORIZED
    ensures body.Some? && FirstByUsername(db.users, body.value.username).Some? ==>
              var id := FirstByUsername(db.users, body.value.username).value;
              var access := Jwt.AccessToken(db.users[id].username, id, now);
              var refresh := Jwt.RefreshTokenFor(id, now);
              if !verify(db.users[id].password, body.value.password) then status == UNAUTHORIZED
              else if sign(access).None? || sign(refresh).None? then status == INTERNAL_SERVER_ERROR
              else status == OK && tokens == Some(SessionTokens(sign(access).value, sign(refresh).value))
  {
    if body.None? {
      return BAD_REQUEST, None;
    }
    var found := FirstByUsername(db.users, body.value.username);
    if found.None? {
      return UNAUTHORIZED, None;
    }
    var id := found.value;
    var user := db.users[id];
    if !verify(user.password, body.value.password) {
      return UNAUTHORIZED, None;
    }
    var access := sign(Jwt.AccessToken(user.username, id, now));
    if access.None? {
      return INTERNAL_SERVER_ERROR, None;
    }
    var refresh := sign(Jwt.RefreshTokenFor(id, now));
    if refresh.None? {
      return INTERNAL_SERVER_ERROR, None;
    }
    return OK, Some(SessionTokens(access.value, refresh.value));
  }

  /** Signing up under a name nobody holds and then signing in with the same
      password (which bcrypt confirms against the stored hash) yields both
      tokens for the new account, whenever signing succeeds. */
  method SignupThenSignin(db: Db, name: string, password: string, hashed: string,
                          verify: (string, string) -> bool, sign: Jwt.Token -> Option<string>, now: int)
      returns (signupStatus: int, signinStatus: int, tokens: Option<SessionTokens>)
    requires db.Valid()
    requires forall id :: id in db.users ==> db.users[id].username != name
    requires verify(hashed, password)
    requires forall t :: sign(t).Some?
    modifies db`users, db`nextUserID
    ensures signupStatus == OK && signinStatus == OK
    ensures db.users == old(db.users)[old(db.nextUserID) := User(name, hashed)]
    ensures tokens == Some(SessionTokens(sign(Jwt.AccessToken(name, old(db.nextUserID), now)).value,
                                         sign(Jwt.RefreshTokenFor(old(db.nextUserID), now)).value))
  {
    var body := Credentials(name, password);
    var reply;
    signupStatus, reply := Signup(db, Some(body), Some(hashed), false);
    assert old(db.nextUserID) in db.users && db.users[old(db.nextUserID)].username == name;
    assert forall id :: id in db.users && db.users[id].username == name ==> id == old(db.nextUserID);
    assert FirstByUsername(db.users, name) == Some(old(db.nextUserID));
    signinStatus, tokens := Signin(db, Some(body), verify, sign, now);
  }

  /** Over JSON the password never reaches the handlers: sign-up stores the
      hash of the empty password, and sign-in compares the empty password
      against it, so a JSON sign-in under the account's name succeeds
      whatever password either request sent. */
  method JsonSigninIgnoresPassword(db: Db, name: string, registered: string, attempt: string, hashed: string,
                                   verify: (string, string) -> bool, sign: Jwt.Token -> Option<string>, now: int)
      returns (signupStatus: int, signinStatus: int, tokens: Option<SessionTokens>)
    requires db.Valid()
    requires forall id :: id in db.users ==> db.users[id].username != name
    requires verify(hashed, "")
    requires forall t :: sign(t).Some?
    modifies db`users, db`nextUserID
    ensures signupStatus == OK && signinStatus == OK
    ensures db.users == old(db.users)[old(db.nextUserID) := User(name, hashed)]
    ensures tokens == Some(SessionTokens(sign(Jwt.AccessToken(name, old(db.nextUserID), now)).value,
                                         sign(Jwt.RefreshTokenFor(old(db.nextUserID), now)).value))
  {
    var reply;
    signupStatus, reply := Signup(db, Some(ParsedCredentials(JsonBody, name, registered)), Some(hashed), false);
    assert old(db.nextUserID) in db.users && db.users[old(db.nextUserID)].username == name;
    assert forall id :: id in db.users && db.users[id].username == name ==> id == old(db.nextUserID);
    assert FirstByUsername(db.users, name) == Some(old(db.nextUserID));
    signinStatus, tokens := Signin(db, Some(ParsedCredentials(JsonBody, name, attempt)), verify, sign, now);
  }

  /** Signing up with a name already taken stores a second account that can
      never sign in under a password the older account refuses: sign-in
      always picks the older row. */
  lemma DuplicateNameShadowed(users: map<nat, User>, older: nat, newer: nat, row: User)
    requires older in users && users[older].username == row.username
    requires newer !in users && older < newer
    ensures FirstByUsername(users[newer := row], row.username) != Some(newer)
  {
    var after := users[newer := row];
    assert older in after && after[older].username == row.username;
  }

  // ---- listing users ----

  /** A comment as `Preload("Comments")` or `Preload("Posts.Comments")` loads
      it: no username and a likes count still at 0. */
  function LoadedComment(comments: map<nat, Comment>, id: nat): CommentJson
    requires id in comments
  {
    var c := comments[id];
    CommentJson(id, c.content, c.userID, "", c.postID, 0)
  }

  /** The comments with ids `ids`, one per id, each with its stored columns,
      no username and a likes count of 0. */
  function LoadedComments(comments: map<nat, Comment>, ids: seq<nat>): (r: seq<CommentJson>)
    requires forall k :: 0 <= k < |ids| ==> ids[k] in comments
    ensures |r| == |ids|
    ensures forall k :: 0 <= k < |ids| ==>
              && r[k].id == ids[k]
              && r[k].content == comments[ids[k]].content
              && r[k].userID == comments[ids[k]].userID
              && r[k].postID == comments[ids[k]].postID
              && r[k].username == "" && r[k].likesCount == 0
  {
    seq(|ids|, k requires 0 <= k < |ids| => LoadedComment(comments, ids[k]))
  }

  /** The ids of the posts by user `uid`. */
  function PostsBy(posts: map<nat, Post>, uid: nat): set<nat>
  {
    set id | id in posts && posts[id].userID == uid
  }

  /** The ids of the comments by user `uid`. */
  function CommentsBy(comments: map<nat, Comment>, uid: nat): set<nat>
  {
    set id | id in comments && comments[id].userID == uid
  }

  function LoadedPost(posts: map<nat, Post>, comments: map<nat, Comment>, id: nat): PostJson
    requires id in posts
  {
    var p := posts[id];
    var cs := SortedIds(CommentsOf(comments, id));
    assert forall k :: 0 <= k < |cs| ==> cs[k] in CommentsOf(comments, id);
    PostJson(id, p.content, p.userID, "", LoadedComments(comments, cs), 0)
  }

  /** A user as `Preload("Posts").Preload("Posts.Comments").Preload("Comments")
      .Preload("Followers").Preload("Followings").Find(&users)` loads it:
      every association in primary-key order, deleted users left out of the
      follow lists, every likes count at 0. */
  function LoadedUser(users: map<nat, User>, posts: map<nat, Post>, comments: map<nat, Comment>,
                      follows: set<Follow>, id: nat): (u: UserJson)
    requires id in users
    ensures u.id == id && u.username == users[id].username
  {
    var ps := SortedIds(PostsBy(posts, id));
    var cs := SortedIds(CommentsBy(comments, id));
    assert forall j :: 0 <= j < |ps| ==> ps[j] in PostsBy(posts, id);
    assert forall k :: 0 <= k < |cs| ==> cs[k] in CommentsBy(comments, id);
    UserJson(id, users[id].username,
             seq(|ps|, j requires 0 <= j < |ps| => LoadedPost(posts, comments, ps[j])),
             LoadedComments(comments, cs),
             SortedIds(Followers(follows, id) * users.Keys),
             SortedIds(Followings(follows, id) * users.Keys))
  }

  /** A comment with its likes count filled in. */
  function CountedComment(c: CommentJson, commentLikes: seq<Like>): CommentJson
  {
    c.(likesCount := LikeCount(commentLikes, c.id))
  }

  function CountedComments(cs: seq<CommentJson>, commentLikes: seq<Like>): seq<CommentJson>
  {
    seq(|cs|, k requires 0 <= k < |cs| => CountedComment(cs[k], commentLikes))
  }

  /** A post with its own and its comments' likes counts filled in. */
  function CountedPost(p: PostJson, postLikes: seq<Like>, commentLikes: seq<Like>): PostJson
  {
    p.(likesCount := LikeCount(postLikes, p.id), comments := CountedComments(p.comments, commentLikes))
  }

  function CountedPosts(ps: seq<PostJson>, postLikes: seq<Like>, commentLikes: seq<Like>): seq<PostJson>
  {
    seq(|ps|, j requires 0 <= j < |ps| => CountedPost(ps[j], postLikes, commentLikes))
  }

  /** A user with the likes counts of its posts, their comments and its own
      comments filled in. */
  function CountedUser(u: UserJson, postLikes: seq<Like>, commentLikes: seq<Like>): UserJson
  {
    u.(posts := CountedPosts(u.posts, postLikes, commentLikes),
       comments := CountedComments(u.comments, commentLikes))
  }

  /** Filling in counts changes nothing but counts: ids, owners, contents,
      the follow lists and the number of posts and comments stay, and every
      count is the number of like rows for that id. */
  lemma CountedUserMeaning(u: UserJson, postLikes: seq<Like>, commentLikes: seq<Like>)
    ensures var r := CountedUser(u, postLikes, commentLikes);
      && r.id == u.id && r.username == u.username
      && r.followers == u.followers && r.followings == u.followings
      && |r.posts| == |u.posts| && |r.comments| == |u.comments|
      && (forall j :: 0 <= j < |u.posts| ==>
            && r.posts[j].(likesCount := 0, comments := []) == u.posts[j].(likesCount := 0, comments := [])
            && r.posts[j].likesCount == LikeCount(postLikes, u.posts[j].id)
            && |r.posts[j].comments| == |u.posts[j].comments|
            && forall k :: 0 <= k < |u.posts[j].comments| ==>
                 r.posts[j].comments[k] == u.posts[j].comments[k].(likesCount :=
                                              LikeCount(commentLikes, u.posts[j].comments[k].id)))
      && (forall j :: 0 <= j < |u.comments| ==>
            r.comments[j] == u.comments[j].(likesCount := LikeCount(commentLikes, u.comments[j].id)))
  {
  }

  /** The inner loops over a slice of comments: each gets its count. */
  method CountComments(cs: seq<CommentJson>, commentLikes: seq<Like>) returns (r: seq<CommentJson>)
    ensures r == CountedComments(cs, commentLikes)
  {
    r := cs;
    var k := 0;
    while k < |r|
      invariant 0 <= k <= |r| == |cs|
      invariant forall m :: 0 <= m < k ==> r[m] == CountedComment(cs[m], commentLikes)
      invariant forall m :: k <= m < |r| ==> r[m] == cs[m]
    {
      r := r[k := r[k].(likesCount := LikeCount(commentLikes, r[k].id))];
      k := k + 1;
    }
  }

  /** The loop over a user's posts: each post, then each of its comments,
      gets its count. */
  method CountPosts(ps: seq<PostJson>, postLikes: seq<Like>, commentLikes: seq<Like>) returns (r: seq<PostJson>)
    ensures r == CountedPosts(ps, postLikes, commentLikes)
  {
    r := ps;
    var j := 0;
    while j < |r|
      invariant 0 <= j <= |r| == |ps|
      invariant forall m :: 0 <= m < j ==> r[m] == CountedPost(ps[m], postLikes, commentLikes)
      invariant forall m :: j <= m < |r| ==> r[m] == ps[m]
    {
      var counted := CountComments(r[j].comments, commentLikes);
      r := r[j := r[j].(likesCount := LikeCount(postLikes, r[j].id), comments := counted)];
      j := j + 1;
    }
  }

  /** `Find(&users)` with all five preloads: every user, in primary-key
      order. */
  function LoadedUsers(users: map<nat, User>, posts: map<nat, Post>, comments: map<nat, Comment>,
                       follows: set<Follow>): (r: seq<UserJson>)
    ensures |r| == |users| == |SortedIds(users.Keys)|
    ensures forall i :: 0 <= i < |r| ==> r[i].id == SortedIds(users.Keys)[i]
    ensures forall i :: 0 <= i < |r| ==>
              r[i] == LoadedUser(users, posts, comments, follows, SortedIds(users.Keys)[i])
  {
    var ids := SortedIds(users.Keys);
    assert forall i :: 0 <= i < |ids| ==> ids[i] in users.Keys;
    seq(|ids|, i requires 0 <= i < |ids| => LoadedUser(users, posts, comments, follows, ids[i]))
  }

  /** `Find(&users)` returns every stored user exactly once, in ascending id
      order, each with its own username. */
  lemma LoadedUsersOnce(users: map<nat, User>, posts: map<nat, Post>, comments: map<nat, Comment>,
                        follows: set<Follow>)
    ensures var r := LoadedUsers(users, posts, comments, follows);
      && (forall i :: 0 <= i < |r| ==> r[i].id in users && r[i].username == users[r[i].id].username)
      && (forall i, j :: 0 <= i < j < |r| ==> r[i].id < r[j].id)
      && (forall id :: id in users ==> exists i :: 0 <= i < |r| && r[i].id == id)
  {
    var r := LoadedUsers(users, posts, comments, follows);
    var ids := SortedIds(users.Keys);
    forall id | id in users
      ensures exists i :: 0 <= i < |r| && r[i].id == id
    {
      assert id in ids;
      var i :| 0 <= i < |ids| && ids[i] == id;
      assert r[i].id == id;
    }
    forall i | 0 <= i < |r|
      ensures r[i].id in users && r[i].username == users[r[i].id].username
    {
      assert ids[i] in ids;
      assert r[i] == LoadedUser(users, posts, comments, follows, ids[i]);
    }
  }

  /** The two passes of ListUsers over the loaded users: first each post and
      its comments, then each user's own comments. */
  method CountUsers(loaded: seq<UserJson>, postLikes: seq<Like>, commentLikes: seq<Like>)
      returns (r: seq<UserJson>)
    ensures |r| == |loaded|
    ensures forall i :: 0 <= i < |loaded| ==> r[i] == CountedUser(loaded[i], postLikes, commentLikes)
  {
    r := loaded;
    var i := 0;
    while i < |r|
      invariant 0 <= i <= |r| == |loaded|
      invariant forall m :: 0 <= m < i ==>
                  r[m] == loaded[m].(posts := CountedPosts(loaded[m].posts, postLikes, commentLikes))
      invariant forall m :: i <= m < |r| ==> r[m] == loaded[m]
    {
      var ps := CountPosts(r[i].posts, postLikes, commentLikes);
      r := r[i := r[i].(posts := ps)];
      i := i + 1;
    }
    i := 0;
    while i < |r|
      invariant 0 <= i <= |r| == |loaded|
      invariant forall m :: 0 <= m < i ==> r[m] == CountedUser(loaded[m], postLikes, commentLikes)
      invariant forall m :: i <= m < |r| ==>
                  r[m] == loaded[m].(posts := CountedPosts(loaded[m].posts, postLikes, commentLikes))
    {
      var counted := CountComments(r[i].comments, commentLikes);
      r := r[i := r[i].(comments := counted)];
      i := i + 1;
    }
  }

  /** ListUsers: every user as loaded, with every likes count filled in. */
  method ListUsers(db: Db) returns (status: int, reply: seq<UserJson>)
    ensures status == OK
    ensures var loaded := LoadedUsers(db.users, db.posts, db.comments, db.follows);
      && |reply| == |loaded|
      && forall i :: 0 <= i < |loaded| ==> reply[i] == CountedUser(loaded[i], db.postLikes, db.commentLikes)
  {
    var loaded := LoadedUsers(db.users, db.posts, db.comments, db.follows);
    reply := CountUsers(loaded, db.postLikes, db.commentLikes);
    status := OK;
  }

  // ---- deleting and following users ----

  /** DeleteUser: any authenticated caller may delete any user. The delete
      is soft and does not cascade: the user's posts, comments, likes and
      follow rows stay in their tables. */
  method DeleteUser(db: Db, idParam: string, deleteFails: bool) returns (status: int)
    requires db.Valid()
    modifies db`users
    ensures db.Valid()
    ensures FindByPath(old(db.users), idParam).None? ==>
              status == NOT_FOUND && db.users == old(db.users)
    ensures FindByPath(old(db.users), idParam).Some? ==>
              if deleteFails then status == INTERNAL_SERVER_ERROR && db.users == old(db.users)
              else status == OK && db.users == old(db.users) - {FindByPath(old(db.users), idParam).value}
  {
    var found := FindByPath(db.users, idParam);
    if found.None? {
      return NOT_FOUND;
    }
    if deleteFails {
      return INTERNAL_SERVER_ERROR;
    }
    db.users := db.users - {found.value};
    return OK;
  }

  /** FollowUser. The context value must be nil or a `uint`: the handler's
      unchecked type assertion panics on anything else. `appendFails` is
      whether the join-table INSERT failed, which the handler ignores. No
      existing edge is looked for: following twice answers 200 again and
      leaves the one edge. */
  method FollowUser(db: Db, ctx: Local, idParam: string, appendFails: bool) returns (status: int)
    requires db.Valid()
    requires !ctx.StrVal?
    modifies db`follows
    ensures db.Valid()
    ensures status != OK ==> db.follows == old(db.follows)
    ensures ctx.Unset? ==> status == UNAUTHORIZED
    ensures ctx.UIntVal? && Strconv.ParseUint32(idParam).Failed? ==> status == BAD_REQUEST
    ensures ctx.UIntVal? && Strconv.ParseUint32(idParam).Parsed? ==>
              var target := Strconv.ParseUint32(idParam).value;
              if ctx.n == target then status == BAD_REQUEST
              else if ctx.n !in db.users || target !in db.users then status == NOT_FOUND
              else status == OK &&
                   db.follows == old(db.follows) + (if appendFails then {} else {Follow(ctx.n, target)})
  {
    if ctx.Unset? {
      return UNAUTHORIZED;
    }
    var follower := ctx.n;
    var parsed := Strconv.ParseUint32(idParam);
    if parsed.Failed? {
      return BAD_REQUEST;
    }
    var target := parsed.value;
    if follower == target {
      return BAD_REQUEST;
    }
    if follower !in db.users {
      return NOT_FOUND;
    }
    if target !in db.users {
      return NOT_FOUND;
    }
    if !appendFails {
      db.follows := db.follows + {Follow(follower, target)};
    }
    return OK;
  }

  /** `First(&follower, followerID)` with the context value: a `uint` is a
      primary key, any other value is read as a path string would be. */
  function FindCaller(users: map<nat, User>, ctx: Local): (r: Option<nat>)
    requires !ctx.Unset?
    ensures r.Some? ==> r.value in users
    ensures ctx.UIntVal? ==> (r.Some? <==> ctx.n in users) && (r.Some? ==> r.value == ctx.n)
    ensures ctx.StrVal? ==> r == FindByPath(users, ctx.s)
  {
    match ctx
    case UIntVal(n) => if n in users then Some(n) else None
    case StrVal(s) => FindByPath(users, s)
  }

  /** UnfollowUser. The self-unfollow guard compares the context value with
      the path string, which can only match when the context holds that very
      string; a `uint` caller never trips it. `deleteFails` is whether the
      join-table DELETE failed, which the handler ignores. */
  method UnfollowUser(db: Db, ctx: Local, idParam: string, deleteFails: bool) returns (status: int)
    requires db.Valid()
    modifies db`follows
    ensures db.Valid()
    ensures status != OK ==> db.follows == old(db.follows)
    ensures ctx.Unset? ==> status == UNAUTHORIZED
    ensures !ctx.Unset? && LocalEqualsString(ctx, idParam) ==> status == BAD_REQUEST
    ensures !ctx.Unset? && !LocalEqualsString(ctx, idParam) ==>
              if FindCaller(db.users, ctx).None? || FindByPath(db.users, idParam).None? then
                status == NOT_FOUND
              else
                var edge := Follow(FindCaller(db.users, ctx).value, FindByPath(db.users, idParam).value);
                status == OK &&
                db.follows == old(db.follows) - (if deleteFails then {} else {edge})
    ensures ctx.UIntVal? && ctx.n in db.users && FindByPath(db.users, idParam) == Some(ctx.n) ==>
              status == OK && db.follows == old(db.follows)
  {
    if ctx.Unset? {
      return UNAUTHORIZED;
    }
    if LocalEqualsString(ctx, idParam) {
      return BAD_REQUEST;
    }
    var follower := FindCaller(db.users, ctx);
    if follower.None? {
      return NOT_FOUND;
    }
    var target := FindByPath(db.users, idParam);
    if target.None? {
      return NOT_FOUND;
    }
    if !deleteFails {
      db.follows := db.follows - {Follow(follower.value, target.value)};
    }
    return OK;
  }

  /** Following and then unfollowing the same existing user restores the
      follow relation whenever the edge was not there before. */
  method FollowThenUnfollow(db: Db, follower: nat, target: nat)
      returns (followStatus: int, unfollowStatus: int)
    requires db.Valid()
    requires follower in db.users && target in db.users && follower != target
    requires target <= Strconv.MaxUint32
    requires Follow(follower, target) !in db.follows
    modifies db`follows
    ensures followStatus == OK && unfollowStatus == OK
    ensures db.follows == old(db.follows)
  {
    var idParam := Strconv.Format(target);
    Strconv.ParseUint32OfFormat(target);
    FindByDecimal(db.users, target);
    followStatus := FollowUser(db, UIntVal(follower), idParam, false);
    unfollowStatus := UnfollowUser(db, UIntVal(follower), idParam, false);
  }
}
