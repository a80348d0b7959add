# Social-feed backend: request handlers over an abstract store

This project models the request-handling core of a small social-feed HTTP
backend written in Go with Fiber, GORM and jwt-go. The backend has accounts,
posts, comments, likes on posts and comments, a follower graph and JWT
sessions. The model covers:

- the session middleware `JWTMiddleware` and the token life cycle:
  `Signin` issues two tokens, `RefreshToken` re-issues an access token, and
  the `/refresh` route sits behind the middleware;
- every handler of `handlers/auth.go`, `handlers/posts.go` and
  `handlers/comments.go` except the ones listed under "Left out". Each
  handler that reads or writes the database is a method that takes the
  store explicitly, returns the HTTP status, and changes only the tables its
  `modifies` clause names. `RefreshToken` touches no table and is the pure
  function `Jwt.Refresh` over tokens;
- the records of `models/models.go`: rows, JSON shapes, like tables, the
  follower relation, and the values derived at read time (like counts and
  owner names);
- the helpers from Go's `strconv` and `strings` that the handlers rely on:
  `ParseUint(s, 10, 32)`, `Atoi`, and `Split` on one space.

The database is the class `Store.Db`. It has one map per table of live
(not soft-deleted) rows, keyed by primary key. The two like tables are
sequences of rows, so "at most one row per pair" is an invariant the handlers
must keep. The follow join table is a set. The auto-increment counters are
fields. `Db.Valid()` is the store invariant, and every state-changing
handler preserves it.

Library calls are modelled as inputs to the members that use them:

- bcrypt: the hash generated for the request, and a `verify` predicate.
- jwt-go: `decode` reads a token string, `live` gives the expiry verdict,
  and `sign` is `SignedString`.
- The clock: `now`.
- The page of rows a list query returns.
- Write failures: one boolean per INSERT or DELETE that the handler checks
  or ignores.

Modules, in dependency order:

- `Wrappers`: `Option`.
- `Http`: status codes, and the dynamic `c.Locals("userID")` value.
- `Strconv`, `Text`: the Go library helpers above.
- `Models`: rows, JSON shapes, like counts, followers, primary-key order.
- `Jwt`: tokens, the middleware, `Signin`'s token claims, `RefreshToken`.
- `Store`: the `Db` class, and the lookup `First(&row, pathString)`.
- `Requests`: the caller and path-id guards shared by the handlers.
- `Listing`: the sort whitelist and the offset of the list handlers.
- `Auth`, `Posts`, `Comments`: the handlers.

Behaviour of the code that one might expect otherwise, and that the model
keeps:

- DeleteUser does not cascade: the user's posts, comments, likes and follow
  rows stay.
- FollowUser does not refuse an existing edge; following twice answers 200.
- A repeated like answers 208 (Already Reported), not 409.
- UnfollowUser answers 200 when there was no edge to remove.
- DeleteComment answers 200 even when its DELETE fails.

## Model

| member | source | states |
|---|---|---|
| Jwt.ParseWithClaims | handlers/middleware.go:29-34 | parsing succeeds exactly when the token decodes, is HMAC, verifies under the secret, is live and its userID claim unmarshals into a uint; the claims are then its expiry and that uint, and the token is valid |
| Jwt.AccessToken | handlers/auth.go:70-74 | the access token is HS256, signed with the secret, carries the username and userID, and expires 900 seconds after now |
| Jwt.RefreshTokenFor | handlers/auth.go:83-86 | the refresh token is HS256, signed with the secret, carries the userID and no username, and expires 86400 seconds after now |
| Jwt.RefreshRoute | cmd/main.go:38 | a request the middleware refuses gets 401 and no token; a request it lets through gets exactly the RefreshToken answer (so its 200, 400, 401 and 500 outcomes are those of Jwt.Refresh) |
| Auth.ParsedCredentials | models/models.go:8 | a JSON body leaves the password empty (the `json:"-"` tag), a form body carries it |
| Auth.JsonSigninIgnoresPassword | handlers/auth.go:19-68 | an account registered over JSON stores the hash of "" and any JSON sign-in under its name succeeds, whatever password either request sent |
| Jwt.Authenticate | handlers/middleware.go:17-51 | the middleware lets a request through only with a positive user id |
| Jwt.WellFormedSplit | handlers/middleware.go:23-24 | splitting on a space gives exactly ["Bearer", t] iff the header is "Bearer " followed by a token with no space |
| Jwt.HeaderShapeDecides | handlers/middleware.go:18-26 | an empty header is refused as missing; any header not of the one accepted shape (lower-case "bearer", two spaces) is refused as badly formatted; a well-formed one passes both checks |
| Jwt.AuthenticateAccepts | handlers/middleware.go:28-47 | for a well-formed header the request goes on iff the token decodes, is HMAC, verifies, is live and carries a positive uint userID, and the id stored for the handler is that claim |
| Jwt.AuthenticateRefusals | handlers/middleware.go:29-50 | a non-HMAC, badly signed or expired token is refused as invalid, an undecodable one too, and a verified one whose userID is absent or 0 is refused for its user id |
| Jwt.IssuedAccessTokenAuthenticates | handlers/auth.go:70-81 | the access token Signin issues (HS256, username, userID, exp = now + 900) passes the middleware with that user's id while live |
| Jwt.Refresh | handlers/auth.go:236-271 | a new token is returned exactly on 200, and the status is one of 200, 400, 401, 500 (when each one is given: Jwt.RefreshRefusals and Jwt.RefreshAccepts) |
| Jwt.RefreshAccepts | handlers/auth.go:242-270 | a non-empty form value that decodes to a verified token with a userID claim gets 200 with the minted HS256 token (that claim, no username, exp now + 15 min) and its signed form when signing succeeds, and 500 with no token otherwise |
| Jwt.IssuedRefreshTokenRefreshes | handlers/auth.go:83-88 | the refresh token Signin issues, sent while live, gets 200 and a new access token for the same user expiring 15 minutes later |
| Jwt.RefreshRefusals | handlers/auth.go:237-256 | an empty form value is 400; an undecodable, non-HMAC, unverified, expired or userID-less token is 401 with no token issued |
| Jwt.RefreshCopiesUserID | handlers/auth.go:258-267 | a refreshed token is HS256, copies the userID claim verbatim, has no username, expires at now + 900, and its encoding is what the signer produced |
| Jwt.AccessTokenAlsoRefreshes | handlers/auth.go:242-261 | a live access token is accepted as a refresh token, since nothing marks a token as a refresh token |
| Jwt.RefreshedTokenAuthenticates | handlers/auth.go:253-261 | a refreshed token passes the middleware exactly when the copied userID claim is a positive uint, with that id |
| Jwt.DeadAccessTokenBlocksRefresh | cmd/main.go:38 | because /refresh sits behind the middleware, a request whose bearer token has expired gets 401 whatever the form carries |
| Jwt.RefreshTokenAuthenticates | handlers/middleware.go:28-47 | the refresh token Signin issues, sent as a bearer token while live, passes the middleware with the user's id: nothing tells it apart from an access token |
| Jwt.RefreshWorksWithDeadAccessToken | cmd/main.go:38 | after the access token has expired but while the refresh token is live, sending the refresh token as both bearer and form value gets 200 and a new access token for the user |
| Text.Split | handlers/middleware.go:23 | strings.Split gives at least one piece |
| Text.JoinSplit | handlers/middleware.go:23 | joining the pieces with the separator gives back the header |
| Text.SplitPiecesLackSep | handlers/middleware.go:23 | no piece contains the separator |
| Text.SplitInTwo | handlers/middleware.go:23-24 | two pieces a, b exactly when the string is a + sep + b with sep in neither |
| Strconv.ParseUintMeaning | handlers/posts.go:162-166 | ParseUint(s, 10, 32) accepts exactly the non-empty all-digit strings whose value is at most 2^32 - 1, and returns that value |
| Strconv.ParseUintRangeError | handlers/comments.go:166-169 | a range error means some leading run of digits already exceeds the maximum |
| Strconv.ParseUint32OfFormat | handlers/auth.go:188 | the 32-bit parser inverts decimal formatting on its range |
| Strconv.DecimalOfFormat | handlers/auth.go:188 | the decimal value of a formatted number is the number |
| Strconv.ParseUint | handlers/posts.go:162 | the empty string is a syntax error, and a parsed value never exceeds the bit size's maximum |
| Strconv.ParseUint32 | handlers/posts.go:162-166 | a parsed path id is at most 2^32 - 1 |
| Strconv.Format | handlers/auth.go:188 | decimal notation is a non-empty digit string |
| Strconv.ParseInt | handlers/comments.go:21 | ParseInt(s, 10, 64) lies in the int64 range and is 0 on a syntax error |
| Strconv.Atoi | handlers/comments.go:21 | Atoi's value lies in the int64 range and is 0 on a syntax error |
| Strconv.AtoiOfFormatInt | handlers/comments.go:21 | Atoi inverts decimal formatting on the whole int64 range |
| Strconv.AtoiAccepts | handlers/comments.go:21-24 | Atoi succeeds only on an optionally signed non-empty digit string |
| Models.PasswordNotSerialized | models/models.go:8 | a user's JSON does not depend on the stored password hash |
| Models.LikeCount | handlers/posts.go:97-99 | a like count never exceeds the number of like rows |
| Models.LikeCountAppend | handlers/posts.go:180-186 | inserting a like row raises its target's count by one and leaves every other count |
| Models.LikeCountCountsLikers | models/models.go:35-43 | when no pair is stored twice, a target's count is the number of distinct users who like it |
| Models.AddingNewLikeKeepsNoDuplicates | handlers/posts.go:168-182 | inserting a pair that is not yet stored keeps the table free of duplicate pairs |
| Models.WithoutLike | handlers/posts.go:216 | deleting a pair removes every row equal to it and keeps every other row |
| Models.WithoutLikeKeepsNoDuplicates | handlers/posts.go:216 | deleting a pair keeps the table free of duplicates |
| Models.WithoutLikeCount | handlers/posts.go:210-220 | deleting a stored pair lowers its target's count by one and leaves every other count, when no pair is stored twice |
| Models.UnlikeUndoesLike | handlers/posts.go:177-220 | appending a new pair and then deleting it gives back the original table |
| Models.FollowersMirrorFollowings | models/models.go:11-12 | u is among v's followers iff v is among u's followings iff the join row (u, v) is stored |
| Models.MinId | handlers/auth.go:53 | the least member of a non-empty id set |
| Models.SortedIds | handlers/posts.go:110 | preloaded rows come in ascending primary-key order, each id exactly once |
| Store.Db.constructor | database/database.go:20-50 | a freshly migrated store is empty and valid |
| Store.Db.RemovePost | handlers/posts.go:120 | the soft delete of one post keeps the store valid and removes exactly that row |
| Store.Db.RemoveComment | handlers/comments.go:124 | the soft delete of one comment keeps the store valid and removes exactly that row |
| Store.Db.Valid | models/models.go:35-43 | the store invariant (keys positive and below their counter, no self-follow, at most one like row per (user, target) pair as the uniqueIndex tags intend) leaves every next id unused, so an INSERT never overwrites a row |
| Store.PathKey | handlers/posts.go:93 | a path string names a primary key only when Atoi accepts it with a non-negative value |
| Store.FindByPath | handlers/posts.go:93-95 | First(&row, s) finds a row iff the string names a key present in the table, and then that key |
| Store.FindByDecimal | handlers/comments.go:101 | a key written in decimal finds exactly its row |
| Requests.CallerOf | handlers/posts.go:22-34 | the caller is missing iff the context is unset, and usable iff it holds a positive uint, which is then its id |
| Requests.CallerRefusal | handlers/posts.go:25-34 | a missing caller is 401, and only it; any other unusable caller is 400 |
| Requests.LikeRequestOf | handlers/posts.go:150-166 | a refusal by the shared guards is always 401 or 400 |
| Requests.LikeRequestMeaning | handlers/posts.go:150-166 | the guards pass exactly for a positive uint caller and a decimal path id of at most 2^32 - 1, giving that (user, target) pair; a missing caller is 401 |
| Listing.Offset | handlers/posts.go:70 | the offset is an int64 congruent to (page - 1) * pageSize modulo 2^64 |
| Listing.PlanList | handlers/comments.go:57-77 | the plan's offset and limit are int64 values; its iff with the whitelist is Listing.PlanListWhitelist |
| Listing.WrapInt64 | handlers/posts.go:70 | Go's 64-bit int arithmetic gives the value in the int64 range congruent to the mathematical one, and the value itself when it fits |
| Listing.PlanListWhitelist | handlers/posts.go:58-71 | a list request is refused iff the sort field (default created_at) is outside {created_at, content, likes_count}; the sort order is passed into ORDER BY unchecked |
| Listing.OffsetInRange | handlers/comments.go:76 | within the int64 range the offset is (page - 1) * pageSize and non-negative for pages from 1 on |
| Listing.PlanListOfDecimals | handlers/comments.go:57-77 | pages given in decimal give offset (page - 1) * pageSize and limit pageSize |
| Listing.PlanListDefaults | handlers/posts.go:52-56 | with no query values the plan is offset 0, limit 10, order "created_at desc" |
| Listing.NonNumericPage | handlers/posts.go:52 | a non-numeric page is taken as 0, so the offset is -pageSize |
| Auth.Signup | handlers/auth.go:19-42 | 400 on a bad body, 500 when hashing fails, otherwise 200 with the hash stored in place of the password at the next id, or nothing stored (and id 0 shown) when the INSERT fails |
| Auth.FirstByUsername | handlers/auth.go:53 | the lookup finds a user iff one has that name, and then the one with the lowest id |
| Auth.Signin | handlers/auth.go:44-100 | 400 on a bad body; 401 for an unknown name or a wrong password; 500 when signing fails; otherwise 200 with the signed access token (username, id, now + 900) and refresh token (id, now + 86400) |
| Auth.SignupThenSignin | handlers/auth.go:19-100 | signing up under a fresh name and signing in with that password gives both tokens for the new id |
| Auth.DuplicateNameShadowed | handlers/auth.go:35-53 | a second account under a taken name is never the one sign-in picks |
| Auth.LoadedComments | handlers/auth.go:105 | each preloaded comment carries the id it was loaded for, its stored content, owner and post, an empty username and a likes count of 0 |
| Auth.CountedUserMeaning | handlers/auth.go:109-136 | filling in counts changes only counts, and each count is the number of like rows for that id |
| Auth.CountComments | handlers/auth.go:117-124 | the loop over a post's comments fills in each comment's count |
| Auth.CountPosts | handlers/auth.go:110-125 | the loop over a user's posts fills in each post's count and its comments' counts |
| Auth.LoadedUsers | handlers/auth.go:105 | Find(&users) gives one entry per stored user, the i-th being the user with the i-th smallest id, loaded with all five preloads |
| Auth.LoadedUsersOnce | handlers/auth.go:105 | every stored user appears exactly once, in ascending id order, with its own username |
| Auth.CountUsers | handlers/auth.go:109-136 | the two passes fill in every count of every user |
| Auth.ListUsers | handlers/auth.go:102-139 | 200 with every user as preloaded, every count filled in |
| Auth.DeleteUser | handlers/auth.go:154-178 | 404 for an unknown id; 500 with nothing changed when the delete fails; otherwise 200 and only that user removed; its posts, comments, likes and follows stay |
| Auth.FollowUser | handlers/auth.go:180-209 | 401 without a caller; 400 for a bad id or a self-follow; 404 unless both users exist; otherwise 200 and the edge added (once) unless the INSERT failed, which is ignored |
| Auth.FindCaller | handlers/auth.go:223 | a uint context value finds exactly that user when it is stored and nothing otherwise; any other value is looked up as a path string would be; what is found is a stored user |
| Auth.UnfollowUser | handlers/auth.go:211-234 | 401 without a caller; 400 only when the context holds the path string itself; 404 unless both users exist; otherwise 200 and the edge removed, whether or not it existed; a uint caller unfollowing itself gets 200 and nothing changes |
| Auth.FollowThenUnfollow | handlers/auth.go:180-234 | following an existing user and then unfollowing them gives back the original follow relation |
| Posts.CreatePost | handlers/posts.go:16-49 | 500 on a bad body; 401/400 for a missing or non-positive caller; 400 for a caller with no row; 500 when the INSERT fails; otherwise 200 and the post stored at the next id with the caller as owner, whatever the body said; the reply echoes the body's `username` and `likes_count` |
| Posts.PostViewCountsLikers | handlers/posts.go:97-102 | a shown post's likes count is the number of distinct users who like it |
| Posts.PostView | handlers/posts.go:97-102 | a shown post has its row's id, content and owner, the owner's username copied from the user row and the count of its like rows |
| Posts.GetPost | handlers/posts.go:89-105 | 404 unless the path names a post; otherwise the post with its owner's name and its like count |
| Posts.ListPosts | handlers/posts.go:51-87 | 400 for a sort field off the whitelist, 500 when the query fails, otherwise every listed post with its owner's name and like count |
| Posts.FirstFailure | handlers/posts.go:114-118 | the index of the first failing comment: every one before it succeeds |
| Posts.PrefixMembers | handlers/posts.go:114 | the comments deleted before index k are exactly the first k of the loop |
| Posts.PrefixOfSorted | handlers/posts.go:110-114 | running the loop to the end covers every preloaded comment |
| Posts.DeleteComments | handlers/posts.go:114-118 | the loop deletes the comments in order and stops at the first failure, leaving exactly the ones before it deleted |
| Posts.CascadeCompletes | handlers/posts.go:114-120 | when no comment fails, the cascade removes exactly the post's comments |
| Posts.DeletePostComments | handlers/posts.go:110-118 | the cascade over the post's comments in primary-key order |
| Posts.DeletePost | handlers/posts.go:107-125 | 404 for an unknown post; otherwise the comments before the first failing one are gone; 500 with the post kept if a comment or the post fails to delete; 200 with the post gone only after every comment is |
| Posts.LikePost | handlers/posts.go:150-187 | 401/400 from the guards; 208 for a pair already stored; 500 when the INSERT fails; otherwise exactly that pair appended, the target's count up by one and all others unchanged; the post is never looked up |
| Posts.UnlikePost | handlers/posts.go:189-221 | 401/400 from the guards; 404 for a pair not stored; 500 when the DELETE fails; otherwise only that pair removed and its target's count down by one |
| Posts.LikeThenUnlikePost | handlers/posts.go:150-221 | liking and then unliking a post gives back the original like table |
| Comments.CommentTarget | handlers/comments.go:21-24 | the post id is read with Atoi and refused exactly when Atoi reports an error |
| Comments.CommentTargetOfDecimal | handlers/comments.go:21 | a decimal post id names that post |
| Comments.CreateComment | handlers/comments.go:14-53 | 500 on a bad body; 400 for a non-integer post id; 401/400 for the caller; 404 for a post that does not exist; 500 when the INSERT fails; otherwise 200 and the comment stored under the context's user and the path's post; the reply echoes the body's `username` and `likes_count` |
| Comments.CommentViewCountsLikers | handlers/comments.go:105-110 | a shown comment's likes count is the number of distinct users who like it |
| Comments.CommentView | handlers/comments.go:105-110 | a shown comment has its row's id, content, owner and post, the owner's username copied from the user row and the count of its like rows |
| Comments.GetComment | handlers/comments.go:97-113 | 404 unless the path names a comment; otherwise the comment with its owner's name and its like count |
| Comments.ListComments | handlers/comments.go:55-95 | 400 for a sort field off the whitelist, 500 when the query fails, otherwise every listed comment with its owner's name and like count |
| Comments.DeleteComment | handlers/comments.go:115-129 | 404 for an unknown comment; otherwise 200 whether or not the DELETE fails, with exactly that comment removed when it succeeds and nothing changed when it fails |
| Comments.LikeComment | handlers/comments.go:153-190 | 401/400 from the guards; 208 for a pair already stored; 500 when the INSERT fails; otherwise exactly that pair appended and only its target's count up by one; the comment is never looked up |
| Comments.UnlikeComment | handlers/comments.go:192-222 | 401/400 from the guards; 404 for a pair not stored; 500 when the DELETE fails; otherwise only that pair removed and its target's count down by one |
| Comments.LikeCommentTwice | handlers/comments.go:171-175 | liking the same comment twice answers 200 and then 208, and stores one row |

## Left out

- I/O: the HTTP server, JSON body parsing, the response bodies' messages and the MySQL connection. A body that fails to parse is an `Option` input. The route table is modelled only for `/refresh`, through `Jwt.RefreshRoute`.
- SQL execution: `Offset`, `Limit` and `Order` are not run against rows. The list handlers return the query plan, and the page of ids the store found is an input. A failed query (such as ordering by `likes_count`, which is not a column) is `None` there.
- Read errors other than "record not found" (the 500 branches of Signin, DeleteUser, LikePost, LikeComment and the count queries of ListComments and ListUsers). Only the paths the handlers take on success or on not found are modelled.
- Posts.GetPost, Posts.ListPosts, Comments.GetComment: the error of their like-count query (handlers/posts.go:79, handlers/posts.go:98, handlers/comments.go:106) is ignored by the handlers, which then show a `LikesCount` of 0; the model always shows the stored count, because a failing count is a database fault it does not model.
- Jwt.Verifies: jwt-go also rejects a token whose `nbf` or `iat` claim lies in the future; `Token` carries only `exp`, so those two checks are not modelled (with the secret a constant in the source, anyone can mint tokens that pass, which the model does not capture either).
- Posts.ListPosts: nothing forces `rows` to be `None` when the plan orders by `likes_count`; that a store cannot order by a missing column is the caller's duty, not a requirement of the method.
- Store.PathKey: a path id that Atoi does not accept becomes a raw SQL condition in GORM; the model treats it as matching no row.
- Primary keys or associations supplied in a request body (the `ID` of `gorm.Model`, nested posts or users) are not modelled; bodies carry only the fields the handlers read or echo back.
- Posts.CreatePost / Comments.CreateComment: a post body's nested `comments` are inserted too by GORM's default association saving and returned in the reply; the model stores no comment and the reply's `comments` is `[]`, because the body carries no nested rows.
- Auth.Signin: the two `time.Now()` calls are taken as one instant `now`.
- Auth.Signup / Auth.Signin: body decoding itself is not modelled; the parsed body is an input. For a JSON body that input has an empty password (`Auth.ParsedCredentials`), so Signin's 401 for a wrong password protects only accounts registered through a form body, as `Auth.JsonSigninIgnoresPassword` shows.
- Auth.FirstByUsername: usernames are compared by exact string equality; a case-insensitive column collation (MySQL's default) would also match names differing in case, and would widen what `Auth.DuplicateNameShadowed` covers.
- Models.SortedIds: `Preload` and `Find` issue no ORDER BY, so ascending primary-key order is an assumption about what the database returns, not something the code promises; the order of the DeletePost cascade (`Posts.CascadeOrder`) and of ListUsers' associations rests on it.
- `bcrypt` and HMAC-SHA256 internals, and jwt-go's exact expiry boundary: they are modelled as the inputs `hashed`, `verify`, `sign`, `decode` and `live`.
- The float64 representation JSON gives to numeric claims: claims are integers here.
- Auth.FollowUser: the handler's unchecked `.(uint)` assertion panics on a context value of any other type; the model requires the context to be unset or a `uint`.
- The race between a like handler's existence check and its INSERT, and whether the `uniqueIndex` tags produce a database constraint: the model is sequential, and duplicates are kept out by the handlers' own check.
- `fmt.Printf` logging.
- GetUsers, UpdatePost and UpdateComment: they are not part of this model (the field merge of GORM's `Updates` is library behaviour).
- `TestApi` is referenced by the route table but is not part of this model.
- The second `main.go`, `ECOM/` and `database/database.go` hold wiring, stubs and connection setup, and are not part of this model.
- CreatePost re-reads the post's owner after the INSERT; the JSON of that owner is not shown (`json:"-"`), so it is left out.
