/** The three record shapes stored by the persistence facade (types.ts).
    Timestamps are the caller's clock reading in milliseconds, kept as an
    integer instead of an ISO-8601 string. */
module Types {
  import opened Wrappers

  /** A user account; `password` is optional because records handed back to
      callers have it removed. */
  datatype User = User(id: string, username: string, password: Option<string>, createdAt: int)

  /** A blog post with the author's id and username copied in at creation. */
  datatype Post = Post(
    id: string,
    title: string,
    content: string,
    authorId: string,
    authorUsername: string,
    createdAt: int,
    coverImage: Option<string>)

  /** A comment; `postId` refers to a post but is not checked against the posts. */
  datatype Comment = Comment(
    id: string,
    text: string,
    postId: string,
    authorId: string,
    authorUsername: string,
    createdAt: int)
}
