/** Properties of the facade that relate a write to later reads: the round
    trips a caller of the facade relies on, and what the collision of
    timestamp identifiers does to them. */
module ApiProperties {
  import opened Wrappers
  import opened Types
  import opened ArrayOps
  import opened Ids
  import opened MockApi

  /** After a signup with a free username, logging in with the same
      credentials returns the new account without its password. */
  lemma LoginAfterSignup(users: seq<User>, username: string, password: string, now: nat)
    requires !UsernameTaken(users, username)
    ensures Login(users + [NewUser(username, password, now)], username, password) ==
            Ok(WithoutPassword(NewUser(username, password, now)))
  {
    FindAppend(users, NewUser(username, password, now), (u: User) => Matches(u, username, password));
  }

  /** After that signup, any other password is refused. */
  lemma WrongPasswordAfterSignup(users: seq<User>, username: string, password: string, other: string, now: nat)
    requires !UsernameTaken(users, username)
    requires other != password
    ensures Login(users + [NewUser(username, password, now)], username, other) == Err(InvalidCredentials)
  {
    var all := users + [NewUser(username, password, now)];
    forall i | 0 <= i < |all| ensures !Matches(all[i], username, other) {
      if i < |users| {
        assert all[i] == users[i];
      }
    }
  }

  /** Storing the id `login` returned as the session key makes `getCurrentUser`
      return that same account, provided ids are non-empty and distinct. */
  lemma CurrentUserAfterLogin(users: seq<User>, username: string, password: string)
    requires forall i, j :: 0 <= i < j < |users| ==> users[i].id != users[j].id
    requires forall i :: 0 <= i < |users| ==> users[i].id != ""
    requires Login(users, username, password).Ok?
    ensures GetCurrentUser(Some(Login(users, username, password).value.id), users) ==
            Some(Login(users, username, password).value)
  {
    var u := Login(users, username, password).value;
    var i :| 0 <= i < |users| && Matches(users[i], username, password) && u == WithoutPassword(users[i]);
    UserByUniqueId(users, i);
  }

  /** Two signups within the same millisecond share an id. Logging in as the
      newer account and storing its id as the session then makes
      `getCurrentUser` return the account stored first instead. */
  lemma SameMillisecondSignupLosesSession(users: seq<User>, username: string, password: string, now: nat)
    requires !UsernameTaken(users, username)
    requires exists i :: 0 <= i < |users| && users[i].id == IdOf(now)
    ensures var all := users + [NewUser(username, password, now)];
            Login(all, username, password).Ok? &&
            Login(all, username, password).value.id == IdOf(now) &&
            GetCurrentUser(Some(IdOf(now)), all) == GetUserById(users, IdOf(now)) &&
            GetCurrentUser(Some(IdOf(now)), all) != Some(Login(all, username, password).value)
  {
    var all := users + [NewUser(username, password, now)];
    LoginAfterSignup(users, username, password, now);
    FindAppend(users, NewUser(username, password, now), UserWithId(IdOf(now)));
    assert GetUserById(all, IdOf(now)) == GetUserById(users, IdOf(now));
    var older := GetUserById(users, IdOf(now));
    var j :| 0 <= j < |users| && users[j].id == IdOf(now) && older.value == WithoutPassword(users[j]);
    assert users[j].username != username;
    assert older.value.username != username;
  }

  /** With distinct ids, looking up a stored user's id finds that user. */
  lemma UserByUniqueId(users: seq<User>, i: nat)
    requires forall i, j :: 0 <= i < j < |users| ==> users[i].id != users[j].id
    requires i < |users|
    ensures GetUserById(users, users[i].id) == Some(WithoutPassword(users[i]))
  {
    var r := GetUserById(users, users[i].id);
    var j :| 0 <= j < |users| && users[j].id == users[i].id &&
             (forall k :: 0 <= k < j ==> users[k].id != users[i].id) &&
             r.value == WithoutPassword(users[j]);
    assert !(j < i) && !(i < j);
  }

  /** The facade stamps every post with the clock reading it was created at. */
  predicate Stamped(p: Post) {
    p.createdAt >= 0 && p.id == IdOf(p.createdAt)
  }

  /** `createPost` then `getPostById` with the new id returns the new post,
      provided every stored post was created at an earlier clock reading. */
  lemma CreatedPostIsFound(posts: seq<Post>, title: string, content: string, author: User,
                           coverImage: Option<string>, now: nat)
    requires forall i :: 0 <= i < |posts| ==> Stamped(posts[i]) && posts[i].createdAt < now
    ensures GetPostById(posts + [NewPost(title, content, author, coverImage, now)], IdOf(now)) ==
            Some(NewPost(title, content, author, coverImage, now))
  {
    forall i | 0 <= i < |posts| ensures posts[i].id != IdOf(now) {
      IdOfInjective(posts[i].createdAt, now);
    }
    FindAppend(posts, NewPost(title, content, author, coverImage, now), PostWithId(IdOf(now)));
  }

  /** Two posts created within the same millisecond share an id, and then
      `getPostById` keeps returning the one stored first: the new post is unreachable
      by id. */
  lemma SameMillisecondPostIsShadowed(posts: seq<Post>, title: string, content: string, author: User,
                                      coverImage: Option<string>, now: nat)
    requires exists i :: 0 <= i < |posts| && posts[i].id == IdOf(now)
    ensures GetPostById(posts + [NewPost(title, content, author, coverImage, now)], IdOf(now)) ==
            GetPostById(posts, IdOf(now))
  {
    FindAppend(posts, NewPost(title, content, author, coverImage, now), PostWithId(IdOf(now)));
  }

  /** `updatePost` then `getPostById` returns the edited post: new title,
      content and cover image (removed for null), same id, author and
      creation time. */
  lemma UpdatedPostIsFound(posts: seq<Post>, postId: string, title: string, content: string,
                           coverImage: Option<string>)
    requires PostIndex(posts, postId) >= 0
    ensures var k := PostIndex(posts, postId);
            var r := GetPostById(posts[k := Edited(posts[k], title, content, coverImage)], postId);
            r.Some? && r.value.title == title && r.value.content == content &&
            r.value.coverImage == coverImage && r.value.id == postId &&
            r.value.authorId == posts[k].authorId &&
            r.value.authorUsername == posts[k].authorUsername &&
            r.value.createdAt == posts[k].createdAt
  {
    var k := PostIndex(posts, postId);
    var updated := posts[k := Edited(posts[k], title, content, coverImage)];
    assert posts == posts[..k] + [posts[k]] + posts[k + 1..];
    assert updated == posts[..k] + [updated[k]] + posts[k + 1..];
    FindAppend(posts[..k], updated[k], PostWithId(postId));
    FindAppend(posts[..k], posts[k], PostWithId(postId));
    FindConcatFound(posts[..k] + [updated[k]], posts[k + 1..], PostWithId(postId));
  }

  /** With distinct post ids, after `deletePost` the post can no longer be found. */
  lemma DeletedPostIsGone(posts: seq<Post>, postId: string)
    requires forall i, j :: 0 <= i < j < |posts| ==> posts[i].id != posts[j].id
    ensures GetPostById(RemovePost(posts, postId), postId).None?
  {
    var k := PostIndex(posts, postId);
    var r := RemovePost(posts, postId);
    if k >= 0 {
      forall i | 0 <= i < |r| ensures r[i].id != postId {
        if i < k {
          assert r[i] == posts[i];
        } else {
          assert r[i] == posts[i + 1];
        }
      }
    }
  }

  /** `deletePost` does not affect the lookup of any other id. */
  lemma DeleteKeepsOtherPosts(posts: seq<Post>, postId: string, other: string)
    requires other != postId
    ensures GetPostById(RemovePost(posts, postId), other) == GetPostById(posts, other)
  {
    var k := PostIndex(posts, postId);
    if k >= 0 {
      assert posts == posts[..k] + [posts[k]] + posts[k + 1..];
      FindSkips(posts[..k], posts[k], posts[k + 1..], PostWithId(other));
    }
  }

  /** After `deletePost`, no comment on the deleted id is listed. */
  lemma DeleteLeavesNoComments(comments: seq<Comment>, postId: string)
    ensures GetCommentsByPostId(CommentsKept(comments, postId), postId) == []
  {
  }

  /** `deletePost` leaves the comment list of every other post unchanged. */
  lemma DeleteKeepsOtherComments(comments: seq<Comment>, postId: string, other: string)
    requires other != postId
    ensures GetCommentsByPostId(CommentsKept(comments, postId), other) ==
            GetCommentsByPostId(comments, other)
  {
    FilterAbsorbs(comments, NotOnPost(postId), OnPost(other));
  }

  /** The comments `deletePost` keeps stay in their stored relative order. */
  lemma CommentsKeptInOrder(a: seq<Comment>, b: seq<Comment>, postId: string)
    ensures CommentsKept(a + b, postId) == CommentsKept(a, postId) + CommentsKept(b, postId)
  {
    FilterConcat(a, b, NotOnPost(postId));
  }

  /** `addComment` then `getCommentsByPostId` lists the new comment once more
      than before, and nothing else changes. */
  lemma AddedCommentIsListed(comments: seq<Comment>, text: string, postId: string, author: User, now: nat)
    ensures multiset(GetCommentsByPostId(comments + [NewComment(text, postId, author, now)], postId)) ==
            multiset(GetCommentsByPostId(comments, postId)) + multiset{NewComment(text, postId, author, now)}
  {
    var c := NewComment(text, postId, author, now);
    FilterConcat(comments, [c], OnPost(postId));
    assert Filter([c], OnPost(postId)) == [c];
  }
}
