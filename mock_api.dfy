/** The in-memory persistence facade `api` (services/mockApi.ts): three ordered
    collections of users, posts and comments plus the current-session key.
    Reads are pure functions of a snapshot of the collections, as the source
    reads a fresh copy and runs `find`, `filter` and `sort` on it; writes are
    methods of `Api` that replace the collections they change. */
module MockApi {
  import opened Wrappers
  import opened Types
  import opened ArrayOps
  import opened Ids

  /** The facade's errors; the source throws 'Username already exists',
      'Invalid username or password' and 'Post not found'. */
  datatype ApiError = DuplicateUsername | InvalidCredentials | NotFound

  datatype Result<T> = Ok(value: T) | Err(error: ApiError)

  // ---------------------------------------------------------------------------
  // The persisted keys and initData

  /** The key-value store as the facade sees it: each collection key is absent
      or holds an array of records; `currentUserId` is absent or holds a string. */
  datatype Storage = Storage(
    users: Option<seq<User>>,
    posts: Option<seq<Post>>,
    comments: Option<seq<Comment>>,
    currentUserId: Option<string>)

  /** Seeds one key with an empty array when it is absent. */
  function Seed<T>(slot: Option<seq<T>>): Option<seq<T>> {
    if slot.None? then Some([]) else slot
  }

  /** `initData`: every collection key is present afterwards, and a key that was
      already present keeps its value. */
  function InitData(store: Storage): (r: Storage)
    ensures r.users.Some? && r.posts.Some? && r.comments.Some?
    ensures store.users.Some? ==> r.users == store.users
    ensures store.posts.Some? ==> r.posts == store.posts
    ensures store.comments.Some? ==> r.comments == store.comments
    ensures r.currentUserId == store.currentUserId
  {
    store.(users := Seed(store.users), posts := Seed(store.posts), comments := Seed(store.comments))
  }

  /** `JSON.parse(localStorage.getItem(key) || '[]')`: an absent key reads as empty. */
  function Load<T>(slot: Option<seq<T>>): (r: seq<T>)
    ensures slot.None? ==> r == []
    ensures slot.Some? ==> r == slot.value
  {
    if slot.Some? then slot.value else []
  }

  /** Running `initData` a second time changes nothing. */
  lemma InitDataIdempotent(store: Storage)
    ensures InitData(InitData(store)) == InitData(store)
  {
  }

  /** `initData` never changes what the facade reads from any key. */
  lemma InitDataInvisible(store: Storage)
    ensures Load(InitData(store).users) == Load(store.users)
    ensures Load(InitData(store).posts) == Load(store.posts)
    ensures Load(InitData(store).comments) == Load(store.comments)
  {
  }

  // ---------------------------------------------------------------------------
  // The callbacks the source passes to find, filter and sort

  function UserWithId(userId: string): User -> bool {
    (u: User) => u.id == userId
  }

  function PostWithId(postId: string): Post -> bool {
    (p: Post) => p.id == postId
  }

  function ByAuthor(userId: string): Post -> bool {
    (p: Post) => p.authorId == userId
  }

  function OnPost(postId: string): Comment -> bool {
    (c: Comment) => c.postId == postId
  }

  function NotOnPost(postId: string): Comment -> bool {
    (c: Comment) => c.postId != postId
  }

  /** Sort key for `(a, b) => b.createdAt - a.createdAt`: newest first. */
  function NewestFirst(p: Post): int {
    -p.createdAt
  }

  /** Sort key for `(a, b) => a.createdAt - b.createdAt`: oldest first. */
  function OldestFirst(c: Comment): int {
    c.createdAt
  }

  // ---------------------------------------------------------------------------
  // Users

  /** JavaScript truthiness of a `string | null` value: present and not the
      empty string. */
  predicate Truthy(s: Option<string>)
    ensures Truthy(s) <==> s != None && s != Some("")
  {
    s.Some? && s.value != ""
  }

  /** `const { password, ...userWithoutPassword } = user`. */
  function WithoutPassword(u: User): (r: User)
    ensures r.password.None?
    ensures r.id == u.id && r.username == u.username && r.createdAt == u.createdAt
  {
    u.(password := None)
  }

  predicate UsernameTaken(users: seq<User>, username: string) {
    exists i :: 0 <= i < |users| && users[i].username == username
  }

  ghost predicate UniqueUsernames(users: seq<User>) {
    forall i, j :: 0 <= i < j < |users| ==> users[i].username != users[j].username
  }

  /** The record `signup` stores for a new account created at clock reading `now`. */
  function NewUser(username: string, password: string, now: nat): (u: User)
    ensures u.createdAt == now && u.id == IdOf(u.createdAt)
    ensures Matches(u, username, password)
  {
    User(IdOf(now), username, Some(password), now)
  }

  /** Exact match of both the username and the stored password. */
  predicate Matches(u: User, username: string, password: string) {
    u.username == username && u.password == Some(password)
  }

  /** `api.login`: the first user whose username and password both match,
      without its password; `InvalidCredentials` when there is none. */
  function Login(users: seq<User>, username: string, password: string): (r: Result<User>)
    ensures r.Ok? <==> exists i :: 0 <= i < |users| && Matches(users[i], username, password)
    ensures r.Ok? ==> exists i :: 0 <= i < |users| && Matches(users[i], username, password) &&
                        (forall j :: 0 <= j < i ==> !Matches(users[j], username, password)) &&
                        r.value == WithoutPassword(users[i])
    ensures r.Ok? ==> r.value.password.None? && r.value.username == username
    ensures r.Err? ==> r.error == InvalidCredentials
  {
    match Find(users, (u: User) => Matches(u, username, password))
    case None => Err(InvalidCredentials)
    case Some(u) => Ok(WithoutPassword(u))
  }

  /** `api.getUserById`: the first user with that id, without its password. */
  function GetUserById(users: seq<User>, userId: string): (r: Option<User>)
    ensures r.None? <==> forall i :: 0 <= i < |users| ==> users[i].id != userId
    ensures r.Some? ==> exists i :: 0 <= i < |users| && users[i].id == userId &&
                          (forall j :: 0 <= j < i ==> users[j].id != userId) &&
                          r.value == WithoutPassword(users[i])
    ensures r.Some? ==> r.value.password.None? && r.value.id == userId
  {
    match Find(users, UserWithId(userId))
    case None => None
    case Some(u) => Some(WithoutPassword(u))
  }

  /** `api.getCurrentUser`: nothing when the session key is absent or empty
      (`!userId`), otherwise the first user with the stored id, if one is
      still stored, without its password. */
  function GetCurrentUser(currentUserId: Option<string>, users: seq<User>): (r: Option<User>)
    ensures r.Some? <==> Truthy(currentUserId) &&
                         exists i :: 0 <= i < |users| && users[i].id == currentUserId.value
    ensures Truthy(currentUserId) ==> r == GetUserById(users, currentUserId.value)
  {
    if !Truthy(currentUserId) then None
    else GetUserById(users, currentUserId.value)
  }

  // ---------------------------------------------------------------------------
  // Posts

  /** `api.getPosts`: all posts, newest first. */
  function GetPosts(posts: seq<Post>): (r: seq<Post>)
    ensures multiset(r) == multiset(posts)
    ensures forall i, j :: 0 <= i < j < |r| ==> r[i].createdAt >= r[j].createdAt
  {
    SortBy(posts, NewestFirst)
  }

  /** `api.getPostById`: the first post with that id. */
  function GetPostById(posts: seq<Post>, postId: string): (r: Option<Post>)
    ensures r.None? <==> forall i :: 0 <= i < |posts| ==> posts[i].id != postId
    ensures r.Some? ==> exists i :: 0 <= i < |posts| && posts[i] == r.value &&
                          r.value.id == postId &&
                          forall j :: 0 <= j < i ==> posts[j].id != postId
  {
    Find(posts, PostWithId(postId))
  }

  /** `api.getPostsByUserId`: exactly the posts by that author, newest first. */
  function GetPostsByUserId(posts: seq<Post>, userId: string): (r: seq<Post>)
    ensures forall i :: 0 <= i < |r| ==> r[i].authorId == userId
    ensures forall p :: multiset(r)[p] == if p.authorId == userId then multiset(posts)[p] else 0
    ensures forall i, j :: 0 <= i < j < |r| ==> r[i].createdAt >= r[j].createdAt
  {
    var byAuthor := Filter(posts, ByAuthor(userId));
    var r := SortBy(byAuthor, NewestFirst);
    assert forall p :: multiset(r)[p] == multiset(byAuthor)[p];
    assert forall p :: multiset(byAuthor)[p] == if p.authorId == userId then multiset(posts)[p] else 0 by {
      forall p ensures multiset(byAuthor)[p] == if p.authorId == userId then multiset(posts)[p] else 0 {
        FilterCount(posts, ByAuthor(userId), p);
      }
    }
    r
  }

  /** The record `createPost` appends at clock reading `now`. */
  function NewPost(title: string, content: string, author: User, coverImage: Option<string>, now: nat): (p: Post)
    ensures p.createdAt == now && p.id == IdOf(p.createdAt)
    ensures p.title == title && p.content == content
    ensures p.authorId == author.id && p.authorUsername == author.username
    ensures p.coverImage.Some? <==> coverImage.Some? && coverImage.value != ""
    ensures p.coverImage.Some? ==> p.coverImage == coverImage
  {
    Post(IdOf(now), title, content, author.id, author.username, now,
         if Truthy(coverImage) then coverImage else None)
  }

  /** The post after `updatePost`: title and content overwritten, the cover image
      set to the given string (even an empty one) or removed for null. */
  function Edited(post: Post, title: string, content: string, coverImage: Option<string>): (r: Post)
    ensures r.title == title && r.content == content
    ensures coverImage.Some? ==> r.coverImage == coverImage
    ensures coverImage.None? ==> r.coverImage.None?
    ensures r.id == post.id && r.authorId == post.authorId
    ensures r.authorUsername == post.authorUsername && r.createdAt == post.createdAt
  {
    post.(title := title, content := content, coverImage := coverImage)
  }

  /** `posts.findIndex(p => p.id === postId)`. */
  function PostIndex(posts: seq<Post>, postId: string): (k: int)
    ensures -1 <= k < |posts|
    ensures k == -1 <==> forall i :: 0 <= i < |posts| ==> posts[i].id != postId
    ensures k >= 0 ==> posts[k].id == postId && forall i :: 0 <= i < k ==> posts[i].id != postId
  {
    FindIndex(posts, PostWithId(postId))
  }

  /** The posts after `deletePost`: the first post with that id spliced out. */
  function RemovePost(posts: seq<Post>, postId: string): (r: seq<Post>)
    ensures PostIndex(posts, postId) == -1 ==> r == posts
    ensures PostIndex(posts, postId) >= 0 ==>
              |r| == |posts| - 1 &&
              multiset(r) == multiset(posts) - multiset{posts[PostIndex(posts, postId)]}
  {
    var k := PostIndex(posts, postId);
    if k == -1 then posts
    else
      assert posts == posts[..k] + [posts[k]] + posts[k + 1..];
      posts[..k] + posts[k + 1..]
  }

  // ---------------------------------------------------------------------------
  // Comments

  /** `api.getCommentsByPostId`: exactly the comments on that post, oldest first. */
  function GetCommentsByPostId(comments: seq<Comment>, postId: string): (r: seq<Comment>)
    ensures forall i :: 0 <= i < |r| ==> r[i].postId == postId
    ensures forall c :: multiset(r)[c] == if c.postId == postId then multiset(comments)[c] else 0
    ensures forall i, j :: 0 <= i < j < |r| ==> r[i].createdAt <= r[j].createdAt
  {
    var onPost := Filter(comments, OnPost(postId));
    var r := SortBy(onPost, OldestFirst);
    assert forall c :: multiset(r)[c] == multiset(onPost)[c];
    assert forall c :: multiset(onPost)[c] == if c.postId == postId then multiset(comments)[c] else 0 by {
      forall c ensures multiset(onPost)[c] == if c.postId == postId then multiset(comments)[c] else 0 {
        FilterCount(comments, OnPost(postId), c);
      }
    }
    r
  }

  /** The comments `deletePost` keeps: all those not on the deleted post. */
  function CommentsKept(comments: seq<Comment>, postId: string): (r: seq<Comment>)
    ensures forall i :: 0 <= i < |r| ==> r[i].postId != postId
    ensures forall c :: multiset(r)[c] == if c.postId != postId then multiset(comments)[c] else 0
  {
    var r := Filter(comments, NotOnPost(postId));
    assert forall c :: multiset(r)[c] == if c.postId != postId then multiset(comments)[c] else 0 by {
      forall c ensures multiset(r)[c] == if c.postId != postId then multiset(comments)[c] else 0 {
        FilterCount(comments, NotOnPost(postId), c);
      }
    }
    r
  }

  /** The record `addComment` appends at clock reading `now`. */
  function NewComment(text: string, postId: string, author: User, now: nat): (c: Comment)
    ensures c.createdAt == now && c.id == IdOf(c.createdAt)
    ensures c.text == text && c.postId == postId
    ensures c.authorId == author.id && c.authorUsername == author.username
  {
    Comment(IdOf(now), text, postId, author.id, author.username, now)
  }

  // ---------------------------------------------------------------------------
  // The facade's state and its writes

  class Api {
    var users: seq<User>
    var posts: seq<Post>
    var comments: seq<Comment>
    var currentUserId: Option<string>

    /** Opens the store: runs `initData`, then reads every key. */
    constructor Open(store: Storage)
      ensures users == Load(store.users) && posts == Load(store.posts)
      ensures comments == Load(store.comments) && currentUserId == store.currentUserId
    {
      var seeded := InitData(store);
      InitDataInvisible(store);
      users := seeded.users.value;
      posts := seeded.posts.value;
      comments := seeded.comments.value;
      currentUserId := seeded.currentUserId;
    }

    /** `api.signup`: rejects a username already stored; otherwise appends the
        new account and returns it without its password. */
    method Signup(username: string, password: string, now: nat) returns (r: Result<User>)
      modifies this
      ensures UsernameTaken(old(users), username) ==>
                r == Err(DuplicateUsername) && users == old(users)
      ensures !UsernameTaken(old(users), username) ==>
                users == old(users) + [NewUser(username, password, now)] &&
                r == Ok(WithoutPassword(NewUser(username, password, now)))
      ensures UniqueUsernames(old(users)) ==> UniqueUsernames(users)
      ensures posts == old(posts) && comments == old(comments)
      ensures currentUserId == old(currentUserId)
    {
      if Find(users, (u: User) => u.username == username).Some? {
        return Err(DuplicateUsername);
      }
      var newUser := NewUser(username, password, now);
      SignupKeepsUsernamesUnique(users, newUser);
      users := users + [newUser];
      r := Ok(WithoutPassword(newUser));
    }

    /** `api.createPost`: appends a post by `author`, keeping the cover image
        only when it is a non-empty string. */
    method CreatePost(title: string, content: string, author: User, coverImage: Option<string>, now: nat)
      returns (p: Post)
      modifies this
      ensures p == NewPost(title, content, author, coverImage, now)
      ensures p.id == IdOf(now) && p.createdAt == now
      ensures p.title == title && p.content == content
      ensures p.authorId == author.id && p.authorUsername == author.username
      ensures p.coverImage == if Truthy(coverImage) then coverImage else None
      ensures posts == old(posts) + [p]
      ensures users == old(users) && comments == old(comments)
      ensures currentUserId == old(currentUserId)
    {
      p := Post(IdOf(now), title, content, author.id, author.username, now, None);
      if Truthy(coverImage) {
        p := p.(coverImage := coverImage);
      }
      posts := posts + [p];
    }

    /** `api.updatePost`: `NotFound` when no post has the id; otherwise edits
        the first post with that id in place and returns it. */
    method UpdatePost(postId: string, title: string, content: string, coverImage: Option<string>)
      returns (r: Result<Post>)
      modifies this
      ensures PostIndex(old(posts), postId) == -1 ==>
                r == Err(NotFound) && posts == old(posts)
      ensures PostIndex(old(posts), postId) >= 0 ==>
                var k := PostIndex(old(posts), postId);
                r == Ok(Edited(old(posts)[k], title, content, coverImage)) &&
                posts == old(posts)[k := r.value]
      ensures users == old(users) && comments == old(comments)
      ensures currentUserId == old(currentUserId)
    {
      var k := FindIndex(posts, PostWithId(postId));
      if k == -1 {
        return Err(NotFound);
      }
      var post := posts[k];
      post := post.(title := title, content := content);
      if coverImage.Some? {
        post := post.(coverImage := coverImage);
      } else {
        post := post.(coverImage := None);
      }
      posts := posts[k := post];
      r := Ok(posts[k]);
    }

    /** `api.deletePost`: splices out the first post with the id, if any, then
        drops every comment on that id whether or not a post was found. */
    method DeletePost(postId: string)
      modifies this
      ensures posts == RemovePost(old(posts), postId)
      ensures comments == CommentsKept(old(comments), postId)
      ensures users == old(users) && currentUserId == old(currentUserId)
    {
      var k := FindIndex(posts, PostWithId(postId));
      if k > -1 {
        posts := posts[..k] + posts[k + 1..];
      }
      comments := Filter(comments, NotOnPost(postId));
    }

    /** `api.addComment`: appends a comment by `author` on `postId`, which is not
        checked against the stored posts. */
    method AddComment(text: string, postId: string, author: User, now: nat) returns (c: Comment)
      modifies this
      ensures c == NewComment(text, postId, author, now)
      ensures comments == old(comments) + [c]
      ensures users == old(users) && posts == old(posts)
      ensures currentUserId == old(currentUserId)
    {
      c := Comment(IdOf(now), text, postId, author.id, author.username, now);
      comments := comments + [c];
    }

    /** Stores the session key after a successful login (context/AuthContext.tsx). */
    method SetSession(userId: string)
      modifies this
      ensures currentUserId == Some(userId)
      ensures users == old(users) && posts == old(posts) && comments == old(comments)
    {
      currentUserId := Some(userId);
    }

    /** Removes the session key on logout (context/AuthContext.tsx). */
    method ClearSession()
      modifies this
      ensures currentUserId.None?
      ensures users == old(users) && posts == old(posts) && comments == old(comments)
    {
      currentUserId := None;
    }
  }

  // ---------------------------------------------------------------------------
  // Properties relating writes and reads

  /** Appending an account whose username is not taken keeps usernames distinct. */
  lemma SignupKeepsUsernamesUnique(users: seq<User>, u: User)
    requires !UsernameTaken(users, u.username)
    ensures UniqueUsernames(users) ==> UniqueUsernames(users + [u])
  {
  }
}
