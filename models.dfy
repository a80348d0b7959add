/** The records of the social feed (models/models.go) as rows of the store,
    the JSON shapes the handlers send back, and the derived facts read from
    the rows: like counts and the follower relation. */
module Models {

  /** A row of `users`. `password` holds the bcrypt hash; the JSON shape
      `UserJson` has no field for it (the `json:"-"` tag). */
  datatype User = User(username: string, password: string)

  /** A row of `posts`. Username and LikesCount are not columns. */
  datatype Post = Post(content: string, userID: nat)

  /** A row of `comments`. Username and LikesCount are not columns. */
  datatype Comment = Comment(content: string, userID: nat, postID: nat)

  /** A row of `post_likes` (UserID, PostID) or of `comment_likes`
      (UserID, CommentID); both tables have this one shape. */
  datatype Like = Like(userID: nat, targetID: nat)

  /** A row of the `user_followers` join table that backs both
      `User.Followers` and `User.Followings`. */
  datatype Follow = Follow(followerID: nat, followingID: nat)

  /** The JSON a handler sends for a comment; `username` and `likesCount` are
      filled in by the handler, not read from a column. */
  datatype CommentJson = CommentJson(id: nat, content: string, userID: nat, username: string,
                                     postID: nat, likesCount: int)

  /** The JSON a handler sends for a post, with its preloaded comments. */
  datatype PostJson = PostJson(id: nat, content: string, userID: nat, username: string,
                               comments: seq<CommentJson>, likesCount: int)

  /** The JSON a handler sends for a user, with its preloaded posts, comments,
      followers and followings (the latter two by id). No password field. */
  datatype UserJson = UserJson(id: nat, username: string, posts: seq<PostJson>,
                               comments: seq<CommentJson>, followers: seq<nat>, followings: seq<nat>)

  /** The JSON of a user row with nothing preloaded. */
  function UserToJson(id: nat, u: User): UserJson
  {
    UserJson(id, u.username, [], [], [], [])
  }

  /** The password hash never reaches the JSON: two rows that differ only in
      their password serialise identically. */
  lemma PasswordNotSerialized(id: nat, u: User, otherHash: string)
    ensures UserToJson(id, u) == UserToJson(id, u.(password := otherHash))
  {
  }

  /** The username the handlers copy from a preloaded owner: a missing (or
      soft-deleted) owner preloads as the zero User, whose username is "". */
  function OwnerName(users: map<nat, User>, id: nat): string
  {
    if id in users then users[id].username else ""
  }

  // ---- like tables ----

  /** `COUNT(*)` of the like rows whose target is `target`. */
  function LikeCount(rows: seq<Like>, target: nat): (n: nat)
    ensures n <= |rows|
  {
    if rows == [] then 0
    else (if rows[0].targetID == target then 1 else 0) + LikeCount(rows[1..], target)
  }

  /** The users who like `target`. */
  function Likers(rows: seq<Like>, target: nat): set<nat>
  {
    set l | l in rows && l.targetID == target :: l.userID
  }

  /** At most one row per (user, target) pair: what the `uniqueIndex` tags on
      PostLike and CommentLike are meant to guarantee. */
  predicate NoDuplicateLikes(rows: seq<Like>)
  {
    forall i, j :: 0 <= i < j < |rows| ==> rows[i] != rows[j]
  }

  /** `DELETE FROM likes WHERE user_id = ? AND target = ?`: every row equal to
      `l` goes, every other row stays, in order. */
  function WithoutLike(rows: seq<Like>, l: Like): (r: seq<Like>)
    ensures forall x :: x in r <==> x in rows && x != l
    ensures |r| <= |rows|
  {
    if rows == [] then []
    else (if rows[0] == l then [] else [rows[0]]) + WithoutLike(rows[1..], l)
  }

  lemma {:induction false} LikeCountAppend(rows: seq<Like>, x: Like, target: nat)
    ensures LikeCount(rows + [x], target) ==
            LikeCount(rows, target) + (if x.targetID == target then 1 else 0)
  {
    if rows != [] {
      assert (rows + [x])[1..] == rows[1..] + [x];
      LikeCountAppend(rows[1..], x, target);
    }
  }

  lemma LikersOfCons(rows: seq<Like>, target: nat)
    requires rows != []
    ensures Likers(rows, target) ==
            (if rows[0].targetID == target then {rows[0].userID} else {}) + Likers(rows[1..], target)
  {
    assert forall l :: l in rows <==> l == rows[0] || l in rows[1..];
  }

  /** Under the one-row-per-pair invariant, a like count is the number of
      distinct users who like the target. */
  lemma {:induction false} LikeCountCountsLikers(rows: seq<Like>, target: nat)
    requires NoDuplicateLikes(rows)
    ensures LikeCount(rows, target) == |Likers(rows, target)|
  {
    if rows != [] {
      var tail := rows[1..];
      assert NoDuplicateLikes(tail) by {
        forall i, j | 0 <= i < j < |tail| ensures tail[i] != tail[j] {
          assert tail[i] == rows[i + 1] && tail[j] == rows[j + 1];
        }
      }
      LikeCountCountsLikers(tail, target);
      LikersOfCons(rows, target);
      assert rows[0].targetID == target ==> rows[0].userID !in Likers(tail, target);
    }
  }

  /** A new pair keeps the table free of duplicates. */
  lemma AddingNewLikeKeepsNoDuplicates(rows: seq<Like>, l: Like)
    requires NoDuplicateLikes(rows) && l !in rows
    ensures NoDuplicateLikes(rows + [l])
  {
    var r := rows + [l];
    forall i, j | 0 <= i < j < |r| ensures r[i] != r[j] {
      if j == |rows| { assert r[i] == rows[i]; }
    }
  }

  lemma {:induction false} WithoutLikeKeepsNoDuplicates(rows: seq<Like>, l: Like)
    requires NoDuplicateLikes(rows)
    ensures NoDuplicateLikes(WithoutLike(rows, l))
  {
    if rows != [] {
      var tail := rows[1..];
      assert NoDuplicateLikes(tail) by {
        forall i, j | 0 <= i < j < |tail| ensures tail[i] != tail[j] {
          assert tail[i] == rows[i + 1] && tail[j] == rows[j + 1];
        }
      }
      WithoutLikeKeepsNoDuplicates(tail, l);
      var rest := WithoutLike(tail, l);
      assert rows[0] !in tail;
      var r := WithoutLike(rows, l);
      if rows[0] != l {
        forall i, j | 0 <= i < j < |r| ensures r[i] != r[j] {
          if i == 0 { assert r[j] == rest[j - 1]; assert rest[j - 1] in rest; }
          else { assert r[i] == rest[i - 1] && r[j] == rest[j - 1]; }
        }
      } else {
        assert r == rest;
      }
    }
  }

  /** Removing the pair `l` from a duplicate-free table lowers its target's
      count by one when `l` was there (and leaves it when it was not); the
      counts of every other target are untouched. */
  lemma {:induction false} WithoutLikeCount(rows: seq<Like>, l: Like, target: nat)
    requires NoDuplicateLikes(rows)
    ensures target != l.targetID ==> LikeCount(WithoutLike(rows, l), target) == LikeCount(rows, target)
    ensures target == l.targetID ==>
      LikeCount(WithoutLike(rows, l), target) == LikeCount(rows, target) - (if l in rows then 1 else 0)
  {
    if rows != [] {
      var tail := rows[1..];
      assert NoDuplicateLikes(tail) by {
        forall i, j | 0 <= i < j < |tail| ensures tail[i] != tail[j] {
          assert tail[i] == rows[i + 1] && tail[j] == rows[j + 1];
        }
      }
      WithoutLikeCount(tail, l, target);
      assert (if rows[0] == l then [] else [rows[0]]) + WithoutLike(tail, l) == WithoutLike(rows, l);
      if rows[0] == l {
        assert l !in tail;
        assert WithoutLike(rows, l) == WithoutLike(tail, l);
      } else {
        var r := WithoutLike(rows, l);
        assert r[0] == rows[0] && r[1..] == WithoutLike(tail, l);
        assert l in rows <==> l in tail;
      }
    }
  }

  /** Liking and then unliking restores the table exactly. */
  lemma {:induction false} UnlikeUndoesLike(rows: seq<Like>, l: Like)
    requires l !in rows
    ensures WithoutLike(rows + [l], l) == rows
  {
    if rows == [] {
      assert WithoutLike([l], l) == [] + WithoutLike([], l);
    } else {
      assert (rows + [l])[0] == rows[0] && (rows + [l])[1..] == rows[1..] + [l];
      UnlikeUndoesLike(rows[1..], l);
      assert [rows[0]] + rows[1..] == rows;
    }
  }

  // ---- the follow relation ----

  /** The users `User.Followers` preloads: the join rows whose following side
      is `id`. */
  function Followers(follows: set<Follow>, id: nat): set<nat>
  {
    set f | f in follows && f.followingID == id :: f.followerID
  }

  /** The users `User.Followings` preloads: the same join rows read from the
      follower side. */
  function Followings(follows: set<Follow>, id: nat): set<nat>
  {
    set f | f in follows && f.followerID == id :: f.followingID
  }

  /** Both associations come from one table with its key columns swapped, so
      u follows v exactly when v is among u's followings. */
  lemma FollowersMirrorFollowings(follows: set<Follow>, u: nat, v: nat)
    ensures u in Followers(follows, v) <==> v in Followings(follows, u)
    ensures u in Followers(follows, v) <==> Follow(u, v) in follows
  {
    if u in Followers(follows, v) {
      var f :| f in follows && f.followingID == v && f.followerID == u;
      assert f == Follow(u, v);
    }
    if Follow(u, v) in follows {
      assert u in Followers(follows, v);
      assert v in Followings(follows, u);
    }
  }

  // ---- the order in which the store lists rows ----

  /** A set of naturals with a member at most `k` has a least member; by
      induction on `k`. */
  lemma {:induction false} HasMinimumBelow(s: set<nat>, k: nat)
    requires exists x :: x in s && x <= k
    ensures exists m :: m in s && forall x :: x in s ==> m <= x
    decreases k
  {
    if exists x :: x in s && x < k {
      var x :| x in s && x < k;
      assert x <= k - 1;
      HasMinimumBelow(s, k - 1);
    } else {
      var x :| x in s && x <= k;
      assert k in s && forall z :: z in s ==> k <= z;
    }
  }

  lemma HasMinimum(s: set<nat>)
    requires s != {}
    ensures exists m :: m in s && forall x :: x in s ==> m <= x
  {
    var y :| y in s;
    HasMinimumBelow(s, y);
  }

  function MinId(s: set<nat>): (m: nat)
    requires s != {}
    ensures m in s && forall x :: x in s ==> m <= x
  {
    HasMinimum(s);
    var m :| m in s && forall x :: x in s ==> m <= x; m
  }

  /** The ids of `s` in ascending order: the primary-key order in which the
      store returns preloaded rows. */
  function SortedIds(s: set<nat>): (r: seq<nat>)
    ensures forall x :: x in r <==> x in s
    ensures forall i, j :: 0 <= i < j < |r| ==> r[i] < r[j]
    ensures |r| == |s|
    decreases |s|
  {
    if s == {} then []
    else
      var m := MinId(s);
      [m] + SortedIds(s - {m})
  }

  /** The ids of the comments on post `postID`. */
  function CommentsOf(comments: map<nat, Comment>, postID: nat): set<nat>
  {
    set id | id in comments && comments[id].postID == postID
  }
}
