# Mock persistence facade of a blogging client, in Dafny

This project models `api`, the persistence facade of a browser blogging
client (services/mockApi.ts). The facade keeps three ordered collections in
a local key-value store: users, posts and comments. It also keeps one
session key, `currentUserId`. Its operations are signup, login, lookups by
id, filtered and sorted queries, appending posts and comments, editing a
post, and deleting a post together with its comments.

Layout, one module per file:

- `wrappers.dfy` (`Wrappers`): `Option`, used for optional fields, `T | null` parameters and failed lookups.
- `types.dfy` (`Types`): the `User`, `Post` and `Comment` records of types.ts. Timestamps are integers.
- `array_ops.dfy` (`ArrayOps`): the JavaScript array operations the facade uses (`findIndex`, `find`, `filter`, `sort` with a numeric comparator) as pure functions, with their lemmas.
- `ids.dfy` (`Ids`): record ids are `Date.now().toString()`, so an id is the clock reading in decimal. Parsing it back proves that different clock readings give different ids.
- `mock_api.dfy` (`MockApi`): the store and `initData`; the reads, which are pure functions of a snapshot of the collections; and the class `Api`, whose fields are the collections and whose methods are the writes.
- `api_properties.dfy` (`ApiProperties`): lemmas that relate each write to later reads.
- `scenarios.dfy` (`Scenarios`): the facade's end-to-end scenarios, stated against an `Api` object.

How the source maps onto the model:

- The clock is a parameter `now: nat`. It gives both the id (`IdOf(now)`) and `createdAt`.
- Errors are `Result` values: `DuplicateUsername`, `InvalidCredentials` and `NotFound`.
- A read builds a fresh copy of a collection and runs `find`, `filter` or `sort` on it. The model makes each read a function of the collection.
- A write loads a collection, changes it with `push`, a field assignment or `splice`, and saves it back. The model makes each write a method that replaces the field.
- JavaScript truthiness is kept. `getCurrentUser` treats an empty session id as no session. `createPost` stores a cover image only when it is a non-empty string. `updatePost` stores any string, including `""`, and removes the cover image for `null`.
- `getPostsByUserId` filters by author and then sorts newest first, as the code does.
- `createPost` stores a cover image only when it is a non-empty string (services/mockApi.ts:105).
- `updatePost` is the only operation that fails with `NotFound` (services/mockApi.ts:117-118). No comment operation can fail.
- Ids are timestamp-derived. Two records created in the same millisecond share an id, and `getPostById` then returns the one stored first (`SameMillisecondPostIsShadowed`). The round trip `CreatedPostIsFound` therefore assumes the clock has moved past every stored post.
- The same collision hits accounts. Two signups in the same millisecond share an id. Logging in as the newer account and storing its id as the session then makes `getCurrentUser` return the older account (`SameMillisecondSignupLosesSession`). `CurrentUserAfterLogin` therefore assumes distinct user ids.

## Model

| member | source | states |
|---|---|---|
| ArrayOps.FindIndex | services/mockApi.ts:116 | `findIndex` gives -1 exactly when no element matches; otherwise it gives an index that matches with no match before it |
| ArrayOps.Find | services/mockApi.ts:50 | `find` gives nothing exactly when no element matches; otherwise it gives the element at the first matching index |
| ArrayOps.FindAppend | services/mockApi.ts:108 | after a `push`, `find` still gives the earlier match if there was one; otherwise it gives the pushed element if that matches |
| ArrayOps.FindIndexSkips | services/mockApi.ts:142 | splicing out an element that does not match keeps the first match, with its index shifted when it came after the element |
| ArrayOps.FindSkips | services/mockApi.ts:142 | splicing out an element that does not match does not change what `find` gives |
| ArrayOps.FindConcatFound | services/mockApi.ts:116 | elements after the first match do not change what `find` gives |
| ArrayOps.Filter | services/mockApi.ts:148 | `filter` gives at most as many elements as its input, and each of them satisfies the predicate |
| ArrayOps.FilterCount | services/mockApi.ts:91 | `filter` keeps each element that satisfies the predicate as often as it occurs in the input, and drops every other element |
| ArrayOps.FilterConcat | services/mockApi.ts:148 | `filter` keeps relative order: it distributes over concatenation |
| ArrayOps.FilterAbsorbs | services/mockApi.ts:148 | filtering by a weaker predicate first and then by a stronger one is the same as filtering by the stronger one alone |
| ArrayOps.Insert | services/mockApi.ts:81 | inserting into a sorted sequence keeps it sorted and adds exactly that element |
| ArrayOps.SortBy | services/mockApi.ts:81 | `sort` with a key comparator gives a permutation of its input that is non-decreasing by the key |
| Ids.DecimalString | services/mockApi.ts:36 | `toString` of a clock reading is a non-empty string of decimal digits |
| Ids.ParseDecimalString | services/mockApi.ts:36 | reading the decimal id back gives the clock reading again |
| Ids.IdOf | services/mockApi.ts:36 | a record id is a non-empty decimal string that reads back as the clock reading it was made from |
| Ids.IdOfInjective | services/mockApi.ts:98 | two ids are equal exactly when they come from the same clock reading |
| MockApi.InitData | services/mockApi.ts:3-13 | afterwards every collection key is present, a key that was present keeps its value, and the session key is untouched |
| MockApi.Load | services/mockApi.ts:19-21 | an absent key reads as an empty collection; a present key reads as the array it holds |
| MockApi.InitDataIdempotent | services/mockApi.ts:3-13 | running `initData` twice is the same as running it once |
| MockApi.InitDataInvisible | services/mockApi.ts:3-21 | `initData` never changes what the facade reads from a key, because an absent key already reads as empty |
| MockApi.Truthy | services/mockApi.ts:105 | a string-or-null value is falsy exactly when it is null or the empty string; the same test guards the session id at services/mockApi.ts:61 |
| MockApi.WithoutPassword | services/mockApi.ts:43-44 | the returned user has no password and keeps the id, username and creation time; the same destructuring is at :54, :65 and :74 |
| MockApi.NewUser | services/mockApi.ts:35-40 | the new account is created at the clock reading, its id is that reading in decimal, and it matches the given username and password |
| MockApi.Login | services/mockApi.ts:47-56 | succeeds exactly when some stored user matches both username and password; it returns the first such user without the password, and otherwise fails with `InvalidCredentials` |
| MockApi.GetUserById | services/mockApi.ts:69-76 | gives nothing exactly when no user has that id; otherwise it gives the first user with that id, without the password |
| MockApi.GetCurrentUser | services/mockApi.ts:58-67 | gives a user exactly when the session id is present, not empty, and held by some stored user; that user is the one `getUserById` finds |
| MockApi.GetPosts | services/mockApi.ts:79-82 | gives a permutation of the stored posts, ordered non-increasing by `createdAt` |
| MockApi.GetPostById | services/mockApi.ts:84-87 | gives nothing exactly when no post has that id; otherwise it gives the first stored post with that id |
| MockApi.GetPostsByUserId | services/mockApi.ts:89-92 | gives exactly the posts with that `authorId`, each as often as it is stored, ordered non-increasing by `createdAt` |
| MockApi.NewPost | services/mockApi.ts:97-107 | the new post is created at the clock reading with the matching id, has the given title and content, copies the author's id and username, and has a cover image exactly when a non-empty string was given, which it then holds |
| MockApi.Edited | services/mockApi.ts:120-128 | the edited post has the new title and content; a string cover image, even an empty one, is set and null removes it; id, author and creation time are kept |
| MockApi.PostIndex | services/mockApi.ts:116-119 | gives -1 exactly when no post has the id; otherwise the index of the first post with that id |
| MockApi.RemovePost | services/mockApi.ts:139-144 | if no post has the id, the posts are unchanged; otherwise exactly one record goes, the first post with that id |
| MockApi.GetCommentsByPostId | services/mockApi.ts:153-156 | gives exactly the comments with that `postId`, each as often as it is stored, ordered non-decreasing by `createdAt` |
| MockApi.NewComment | services/mockApi.ts:161-168 | the new comment is created at the clock reading with the matching id, has the given text and post id, and copies the author's id and username |
| MockApi.CommentsKept | services/mockApi.ts:146-149 | after a delete, no comment has the deleted id, and every other comment survives as often as it was stored |
| MockApi.SignupKeepsUsernamesUnique | services/mockApi.ts:31-41 | appending a user whose username is not taken keeps usernames pairwise distinct |
| MockApi.Api.Open | services/mockApi.ts:3-21 | opening the store runs `initData`; the collections are then what each key held, or empty when the key was absent |
| MockApi.Api.Signup | services/mockApi.ts:29-45 | fails with `DuplicateUsername` and leaves users unchanged exactly when the username is taken; otherwise appends one new user and returns it without the password; distinct usernames stay distinct; other state is unchanged |
| MockApi.Api.CreatePost | services/mockApi.ts:94-111 | appends exactly the post `NewPost` describes at the end, with the author's id and username copied in, and a cover image only when a non-empty string is given; other state is unchanged |
| MockApi.Api.UpdatePost | services/mockApi.ts:113-133 | fails with `NotFound` and leaves posts unchanged when no id matches; otherwise replaces only the first matching post with its edited version (title, content and cover image set, cover image removed for null) and returns it |
| MockApi.Api.DeletePost | services/mockApi.ts:135-150 | never fails; removes at most the first post with the id, and every comment on that id even when no post existed; users and session are unchanged |
| MockApi.Api.AddComment | services/mockApi.ts:158-172 | appends exactly one comment at the end, with the author's id and username copied in; other state is unchanged |
| MockApi.Api.SetSession | context/AuthContext.tsx:35-38 | stores the logged-in user's id as the session key and changes no collection |
| MockApi.Api.ClearSession | context/AuthContext.tsx:40-43 | removes the session key and changes no collection |
| ApiProperties.LoginAfterSignup | services/mockApi.ts:29-56 | after a signup with a free username, login with the same credentials returns the new account without its password |
| ApiProperties.WrongPasswordAfterSignup | services/mockApi.ts:47-53 | after that signup, login with any other password fails with `InvalidCredentials` |
| ApiProperties.CurrentUserAfterLogin | services/mockApi.ts:58-67 | with ids distinct and non-empty, storing the id that login returned as the session makes `getCurrentUser` return the same account |
| ApiProperties.SameMillisecondSignupLosesSession | services/mockApi.ts:29-67 | after a signup in the same millisecond as a stored account, login as the new account succeeds with that shared id, but `getCurrentUser` for that id returns the stored account, not the new one |
| ApiProperties.UserByUniqueId | services/mockApi.ts:69-76 | with ids distinct, looking up a stored user's id finds that user |
| ApiProperties.CreatedPostIsFound | services/mockApi.ts:94-111 | `getPostById` with a new post's id returns that post, when every stored post was created at an earlier clock reading |
| ApiProperties.SameMillisecondPostIsShadowed | services/mockApi.ts:84-111 | when a stored post already has the new id, `getPostById` keeps returning the stored one |
| ApiProperties.UpdatedPostIsFound | services/mockApi.ts:113-133 | after an update, `getPostById` returns the post with the new title, content and cover image, and with the same id, author and creation time |
| ApiProperties.DeletedPostIsGone | services/mockApi.ts:135-144 | with post ids distinct, the deleted post can no longer be found |
| ApiProperties.DeleteKeepsOtherPosts | services/mockApi.ts:139-144 | a delete does not change the lookup of any other id |
| ApiProperties.DeleteLeavesNoComments | services/mockApi.ts:146-156 | after a delete, no comment on the deleted id is listed |
| ApiProperties.DeleteKeepsOtherComments | services/mockApi.ts:146-156 | a delete leaves every other post's comment list unchanged |
| ApiProperties.CommentsKeptInOrder | services/mockApi.ts:148 | the comments that survive a delete keep their stored relative order |
| ApiProperties.AddedCommentIsListed | services/mockApi.ts:153-172 | after `addComment`, the post's comment list holds the new comment once more and is otherwise unchanged |
| Scenarios.SignupThenLogin | services/mockApi.ts:29-56 | signup as "alice" then login with the right password succeeds; a wrong password fails with `InvalidCredentials`; a second signup as "alice" fails with `DuplicateUsername` |
| Scenarios.EditRemovesCover | services/mockApi.ts:94-133 | create then update with a null cover image, then look up: new title and content, no cover image |
| Scenarios.DeleteCascades | services/mockApi.ts:135-172 | add a comment, delete its post, list that post's comments: the list is empty |

## Left out

- The artificial latency (`delay`, services/mockApi.ts:17) and the async/Promise wrapping are not modelled. Each operation is one synchronous step.
- The lost-update race is not modelled. Overlapping async writes can clobber each other's read-modify-write; the model runs one call at a time.
- `deletePost` is modelled as one step. The source saves posts and comments in two separate writes, so a crash between them is not modelled.
- The JSON encoding in `localStorage` is not modelled (services/mockApi.ts:19-25). Each key is either absent or holds a decoded array, so a key holding the empty string is not represented.
- `Date` is not modelled. The ISO-8601 `createdAt` strings and their parsing in the sort comparators become the integer clock reading.
- The source reads the clock twice per record: `Date.now()` for the id and `new Date()` for `createdAt` (services/mockApi.ts:36 and :39, :98 and :103, :162 and :167). The model uses one reading `now` for both.
- `IdOf` assumes the clock reading is below 10^21. Above that, JavaScript's `toString` switches to exponent notation.
- UpdatePost: the TypeScript type admits only a string or `null` for the cover image. A caller passing `undefined`, which the code would leave unchanged, is not modelled.
- GetPosts: does not state the order of posts with equal `createdAt`, because the sort's tie order is not part of what the facade promises.
- GetPostsByUserId: does not state the order of posts with equal `createdAt`, for the same reason.
- GetCommentsByPostId: does not state the order of comments with equal `createdAt`, for the same reason.
- The React pages, components, routing and form checks are not part of this model. They are rendering and form state.
- The React state of context/AuthContext.tsx is not modelled. Only its writes of the session key are mirrored, by `SetSession` and `ClearSession`.
- services/geminiService.ts is not part of this model. It calls an external generative-AI service whose behaviour cannot be seen.
- Passwords are stored and compared in plaintext, as in the source.
