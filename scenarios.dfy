/** The facade's end-to-end scenarios, stated against the `Api` class from an
    empty store: each result follows from the write methods' contracts and the
    properties proved about the reads. */
module Scenarios {
  import opened Wrappers
  import opened Types
  import opened MockApi
  import opened ApiProperties

  /** signup("alice", "pw1") succeeds; logging in with "pw1" succeeds, with
      "wrong" fails with `InvalidCredentials`, and a second signup as "alice"
      fails with `DuplicateUsername`. */
  method SignupThenLogin(now: nat) returns (good: Result<User>, bad: Result<User>, again: Result<User>)
    ensures good.Ok? && good.value.username == "alice" && good.value.password.None?
    ensures bad == Err(InvalidCredentials)
    ensures again == Err(DuplicateUsername)
  {
    var api := new Api.Open(Storage(None, None, None, None));
    var created := api.Signup("alice", "pw1", now);
    LoginAfterSignup([], "alice", "pw1", now);
    WrongPasswordAfterSignup([], "alice", "pw1", "wrong", now);
    good := Login(api.users, "alice", "pw1");
    bad := Login(api.users, "alice", "wrong");
    assert api.users[0].username == "alice";
    again := api.Signup("alice", "other", now + 1);
  }

  /** createPost("T", "C", author, cover) then updatePost(id, "T2", "C2", null)
      then getPostById(id) gives title "T2", content "C2" and no cover image. */
  method EditRemovesCover(author: User, now: nat) returns (found: Option<Post>)
    ensures found.Some?
    ensures found.value.title == "T2" && found.value.content == "C2"
    ensures found.value.coverImage.None? && found.value.authorId == author.id
  {
    var api := new Api.Open(Storage(None, None, None, None));
    var p := api.CreatePost("T", "C", author, Some("data:image/png;base64,AA"), now);
    assert api.posts == [p];
    var r := api.UpdatePost(p.id, "T2", "C2", None);
    UpdatedPostIsFound([p], p.id, "T2", "C2", None);
    found := GetPostById(api.posts, p.id);
  }

  /** addComment("hi", postId, author) then deletePost(postId) then
      getCommentsByPostId(postId) gives no comments, whether or not a post
      with that id existed. */
  method DeleteCascades(author: User, postId: string, now: nat) returns (listed: seq<Comment>)
    ensures listed == []
  {
    var api := new Api.Open(Storage(None, None, None, None));
    var c := api.AddComment("hi", postId, author, now);
    api.DeletePost(postId);
    DeleteLeavesNoComments([c], postId);
    listed := GetCommentsByPostId(api.comments, postId);
  }
}
