# blog-flow core in Dafny

A model of the logic at the heart of the blog-flow application, a blog with an
Express/Mongoose back end and a React front end. Every rule is a pure function over
strings, naturals and sequences, with the properties the application relies on proved
about it.

- **Slug derivation** (`Slug`). This is the four-step pipeline shared by the Post,
  Category and Tag documents:
  1. lower-case the text;
  2. delete every character outside `[a-zA-Z0-9 ]`;
  3. turn each whitespace run into a hyphen;
  4. collapse hyphen runs.

  The model proves these facts about it:
  - the output alphabet is `[a-z0-9-]`;
  - there are never two hyphens in a row;
  - the slug holds exactly the source's letters and digits;
  - there is one hyphen per whitespace run that survives step 2;
  - step 4 changes nothing.
- **The three documents** (`PostModel`, `CategoryModel`, `TagModel`). This covers:
  - field defaults and the `trim` and `lowercase` setters;
  - the schema's required and maximum-length checks, which run before the pre-save hook;
  - the hook itself: slug, read time at 200 words a minute, and the automatic excerpt.
    Because `excerpt` is required and validation comes first, the excerpt branch never
    fires on a save; the hook is also modelled on its own, where it can.
- **The post handlers** (`PostController`), over a store that is a sequence of posts:
  - the published and category filters;
  - newest-first ordering, skip/limit paging and the page count;
  - the view counter;
  - creation bound to the authenticated user;
  - update and delete behind the author-or-admin gate, existence being checked before
    ownership;
  - the published posts of one category.
- **Request validation** (`Validation`). This covers the post, category and user rule
  sets and the all-or-nothing gate. A missing field is checked as the empty string. A
  custom message belongs only to the check right before it.
- **The client store** (`BlogStore`). Each action is a transition from state and server
  reply to the new state and the action's result:
  - login, register and logout;
  - loading, creating, updating and deleting posts;
  - loading and creating categories;
  - clearing the error.
- **The forms**:
  - the post editor (`PostForm`): required fields, per-field edits, the comma-separated
    tag box and its round trip, and submit;
  - the new-category form (`CategoryForm`): the blank-name guard, the fallback slug, and
    the reset after submitting.

Shared pieces:
- `Text` holds JavaScript's `trim`, ASCII `toLowerCase`, `split(/\s+/)`, `split(',')`,
  `join` and `replace(/\s+/g, h)`. Whitespace is the ECMAScript WhiteSpace and
  LineTerminator set.
- `Lists` holds order-preserving filtering.
- `Results` holds `Option`, `Result` and field errors.

Outside effects are inputs, never computed:
- the server's reply to a client action;
- the time a post is created;
- a new document's id;
- the authenticated user.

The library predicates `isMongoId` and `isEmail` are function parameters.

## Model

| member | source | states |
|---|---|---|
| Text.Lower | backend/models/Post.js:64 | `toLowerCase` keeps the length, maps each ASCII capital to its small letter and leaves every other character alone |
| Text.TrimProps | backend/models/Post.js:7 | the `trim` setter's result neither starts nor ends with whitespace, holds only characters of the input, is empty exactly when the input is blank, and leaves an already trimmed string unchanged |
| Text.TrimIsInfix | backend/models/Post.js:7 | the `trim` setter's result is the input with a blank prefix and a blank suffix cut off: the input is exactly prefix, result, suffix |
| Text.TrimLeadingWs | frontend/src/components/Posts/PostForm.jsx:94 | leading whitespace never changes what `trim` yields |
| Text.SplitWsShape | backend/models/Post.js:72 | `split(/\s+/)` yields one piece more than the text has whitespace runs, and no piece contains whitespace |
| Text.SplitWsOfJoinedWords | backend/models/Post.js:72 | non-empty whitespace-free words joined by single spaces split back into exactly those words |
| Text.ReplaceRunsIsJoinOfPieces | backend/models/Post.js:66 | replacing each whitespace run by h is the same as joining the `split(/\s+/)` pieces with h |
| Text.ReplaceRunsChars | backend/models/Post.js:66 | every character of the replaced text is h or a non-whitespace character of the input |
| Text.ReplaceRunsNoWs | frontend/src/components/Categories/CategoryList.jsx:24 | replacing runs with a non-whitespace character leaves no whitespace at all |
| Text.ReplaceRunsKeepsText | backend/models/Post.js:66 | apart from the inserted h characters, the result holds exactly the input's non-whitespace text, in order |
| Text.ReplaceRunsCount | backend/models/Post.js:66 | the replacement adds exactly one h per whitespace run |
| Text.ReplaceRunsNoDoubled | backend/models/Post.js:66-67 | when the input holds no hyphen, run replacement never puts two hyphens side by side |
| Text.ReplaceRunsAfterWord | backend/models/Post.js:66 | a whitespace-free prefix passes through the replacement untouched |
| Text.SplitOnShape | frontend/src/components/Posts/PostForm.jsx:94 | `split(',')` yields one piece more than there are commas, no piece holds a comma, and joining the pieces with a comma gives back the input |
| Text.SplitOnAround | frontend/src/components/Posts/PostForm.jsx:94 | splitting at a comma distributes over that comma, so pieces keep their order |
| Lists.Filter | frontend/src/Context/BlogContext.jsx:175 | `filter` keeps exactly the elements that pass, never more than the input |
| Lists.FilterConcat | frontend/src/Context/BlogContext.jsx:175 | filtering commutes with concatenation, so the kept elements stay in their relative order |
| Lists.FilterAllKept | frontend/src/Context/BlogContext.jsx:175 | a filter every element passes returns its input |
| Slug.KeepAllowed | backend/models/Post.js:65 | the second step keeps only characters of `[a-zA-Z0-9 ]` that were in its input |
| Slug.KeptWithoutWsIsAlnum | backend/models/Post.js:65 | after the second step, the non-space characters are exactly the input's ASCII letters and digits |
| Slug.KeepAllowedConcat | backend/models/Post.js:65 | the second step works character by character, distributing over concatenation |
| Slug.CollapseWithoutDoubles | backend/models/Post.js:67 | collapsing hyphen runs is the identity on text without doubled hyphens, so the fourth step never changes the third step's output |
| Slug.Slugify | backend/models/Post.js:63-67 | a slug is exactly the words the second step leaves (its pieces between whitespace runs) joined by single hyphens, so hyphens stand only where the kept text had a whitespace run; it uses only `[a-z0-9-]` and never has two hyphens in a row; without its hyphens it is exactly the lower-cased source's letters and digits; its hyphen count equals the number of whitespace runs left after the second step |
| Slug.SlugOfTwoWords | backend/models/Post.js:63-67 | a source that keeps two lower-case words separated by one space slugs to the words joined by one hyphen |
| Slug.SlugOfOneWord | backend/models/Post.js:63-67 | a source that keeps a single lower-case word slugs to that word |
| Slug.SlugDropsSourceHyphen | backend/models/Post.js:65-66 | a hyphen in the source is deleted rather than kept as a separator: "a-b" slugs to "ab" |
| Slug.SlugOfHelloWorld | backend/models/Post.js:63-67 | "Hello, World!!" slugs to "hello-world" |
| Slug.SlugOfTechNews | backend/models/Category.js:30-34 | the category name "Tech News" slugs to "tech-news" |
| PostModel.NewPost | backend/models/Post.js:3-50 | a new document takes every field the body supplies, the title through the `trim` setter; absent fields default to unpublished, zero views, zero read time, no tags and no slug |
| PostModel.SchemaErrors | backend/models/Post.js:4-28 | the schema reports no error exactly when title (1 to 200 characters), content, excerpt (1 to 500 characters), author and category are all present |
| PostModel.CeilDiv | backend/models/Post.js:73 | `Math.ceil(n / d)` is the least multiple count that covers n |
| PostModel.WordCount | backend/models/Post.js:72 | the piece count is the number of whitespace runs plus one |
| PostModel.ReadTime | backend/models/Post.js:71-74 | the read time is at least one minute and is the least number of 200-word minutes covering the piece count |
| PostModel.ReadTimeOfWords | backend/models/Post.js:72-73 | n space-separated words read in ceil(n/200) minutes: 200 words in one minute, 201 in two |
| PostModel.AutoExcerpt | backend/models/Post.js:77-79 | the generated excerpt is a prefix of the content of at most 150 characters followed by "...": the whole content when it is short enough, exactly 150 characters otherwise |
| PostModel.AutoExcerptWithinBound | backend/models/Post.js:77-79 | a generated excerpt always fits the schema's 500-character bound |
| PostModel.PreSave | backend/models/Post.js:60-82 | the slug is rewritten only for a present, modified title; the read time only for present, modified content; the excerpt is generated only when it is empty and content exists and is never overwritten; nothing else changes |
| PostModel.HookSlugWellFormed | backend/models/Post.js:62-68 | a present, modified title always yields a slug over `[a-z0-9-]` without doubled hyphens |
| PostModel.CreateDocument | backend/models/Post.js:3-82 | creation fails with errors exactly when the schema rejects the new document; a saved post is valid, has the given id and creation time, the trimmed title, the body's content, excerpt, author, category and tags (none if absent), is published only when the body says `true`, has the body's view count or 0, and has its slug and read time derived from title and content |
| PostModel.SavedNewPost | backend/models/Post.js:60-82 | the hook, run on a valid new document with every path modified, derives slug and read time and keeps every supplied field or its default |
| CategoryModel.SchemaErrors | backend/models/Category.js:3-25 | no error exactly when the name is 1 to 50 characters, any description is at most 200, and the creator is present |
| CategoryModel.PreSave | backend/models/Category.js:28-37 | the slug is rederived exactly when the name is present and modified; no other field changes |
| CategoryModel.CreateDocument | backend/models/Category.js:3-37 | creation succeeds exactly when the trimmed name is 1 to 50 characters, any description is at most 200 and a creator is given; the saved category has the given id, the trimmed input name, the input description and creator, and the slug derived from the name, replacing any supplied one |
| CategoryModel.CreateIgnoresSuppliedSlug | backend/models/Category.js:28-37 | a slug in the request body never changes the created category |
| TagModel.StoredName | backend/models/Tag.js:3-11 | a stored tag name is the input with a blank prefix and a blank suffix removed, lower-cased; it is trimmed, has no capitals, is no longer than the input, and is empty exactly when the input is blank |
| TagModel.PreSave | backend/models/Tag.js:19-28 | the slug is rederived exactly when the name is present and modified; no other field changes |
| TagModel.CreateDocument | backend/models/Tag.js:3-28 | creation succeeds exactly when the stored name is 1 to 30 characters; the saved tag has the given id, the input name after the `trim` and `lowercase` setters, the input description, and the slug derived from the name |
| TagModel.StoredNameStable | backend/models/Tag.js:8-9 | the setters are idempotent: assigning a stored name again stores it unchanged |
| TagModel.CreateIgnoresSuppliedSlug | backend/models/Tag.js:19-28 | a slug in the request body never changes the created tag |
| Validation.Validate | backend/middleware/validation.js:4-13 | the gate passes the request on exactly when no rule failed, and otherwise answers 400 with the full error list |
| Validation.PostRules | backend/middleware/validation.js:16-23 | the post rules report nothing exactly when title (1 to 200), content, excerpt (1 to 500) and an object-id category are given; each rule's message appears exactly when its check fails: "Title is required", "Content is required" and "Excerpt is required" for empty fields, the library default "Invalid value" for an over-long title or excerpt, and the category message, which comes last |
| Validation.NonEmptyUpTo | backend/middleware/validation.js:18-20 | a `notEmpty().withMessage(m).isLength({ max })` chain reports m exactly when the value is empty and the default message exactly when it is too long, always on its own path |
| Validation.PostGate | backend/middleware/validation.js:4-23 | a post body reaches the handler exactly when every post rule holds, and otherwise gets a 400 |
| Validation.PostGateImpliesSchemaBounds | backend/middleware/validation.js:18-20 | a body past the post gate has content, an excerpt of 1 to 500 characters, and a title of at most 200 characters after the `trim` setter; it does not promise a non-empty trimmed title |
| Validation.BlankTitlePassesGate | backend/middleware/validation.js:18 | a blank but non-empty title passes the post gate, yet creating the post from the same body fails because the trimmed title is empty |
| Validation.BlankTitleExample | backend/middleware/validation.js:18-21 | such a body exists: a single space as title with content, excerpt and an object-id category meets every post rule |
| Validation.CategoryRules | backend/middleware/validation.js:25-29 | a name passes exactly when it is 1 to 50 characters; an empty name reports only the custom message, and an over-long one only the library's default message |
| Validation.UserRules | backend/middleware/validation.js:31-37 | one error per failing field (username 3 to 30, a valid email, password at least 6), each with its own message, and none exactly when all hold |
| Validation.UserGate | backend/middleware/validation.js:4-37 | a user body reaches the handler exactly when all three user rules hold |
| PostController.PublishedFilter | backend/controllers/postController.js:15-17 | as written: `all` applies no published filter, the string `true` selects published posts, and every other value, including the omitted parameter, selects unpublished posts |
| PostController.IntendedPublishedFilter | backend/controllers/postController.js:10-17 | the corrected filter agrees with the written one on every given value and selects published posts when the parameter is omitted |
| PostController.Select | backend/controllers/postController.js:12-22 | the listing query selects exactly the stored posts matching the published filter and, when given, the category |
| PostController.InsertKeepsOrder | backend/controllers/postController.js:33 | inserting into a newest-first list keeps it newest first |
| PostController.InsertPerm | backend/controllers/postController.js:33 | insertion adds exactly the one post |
| PostController.SortNewestFirst | backend/controllers/postController.js:33 | `sort({ createdAt: -1 })` yields the same posts, as a multiset, ordered newest first |
| PostController.SortedMembers | backend/controllers/postController.js:33 | sorting neither adds nor drops a post |
| PostController.Window | backend/controllers/postController.js:34-35 | `limit`/`skip` yields the items from position skip on, at most limit of them (no bound for limit 0), empty past the end |
| PostController.WindowKeepsOrder | backend/controllers/postController.js:33-35 | a window of a newest-first list is newest first |
| PostController.WindowFacts | backend/controllers/postController.js:29-35 | a window of the sorted selection is ordered and holds only selected posts |
| PostController.ListWith | backend/controllers/postController.js:29-45 | a negative skip fails; otherwise total counts the whole selection, count is the page's length, pages is the ceiling of total over limit (null for limit 0), and data is the window of the newest-first selection |
| PostController.ListedPosts | backend/controllers/postController.js:29-35 | a listed page is newest first, holds only stored posts matching the filters, and never exceeds the limit |
| PostController.GetPosts | backend/controllers/postController.js:8-49 | `getPosts` as written fails exactly on a negative skip; otherwise its page is newest first and holds only stored posts the written published filter and the category match, and the total counts all of them |
| PostController.GetPostsIntended | backend/controllers/postController.js:8-49 | the corrected listing is the written one whenever `published` is given, and otherwise lists posts the corrected filter matches, newest first |
| PostController.TotalIgnoresPaging | backend/controllers/postController.js:37 | the total does not depend on the page or limit asked for |
| PostController.ExplicitPublishedParam | backend/controllers/postController.js:15-17 | `published=all` counts posts in both states; `published=true` lists published posts only |
| PostController.EmptyCategoryIsNoFilter | backend/controllers/postController.js:20-22 | an empty category parameter applies no category filter |
| PostController.DefaultListsUnpublished | backend/controllers/postController.js:10-17 | as written, omitting `published` lists unpublished posts only |
| PostController.DefaultHidesPublishedPost | backend/controllers/postController.js:10-17 | as written, a store with one published post lists nothing when no parameter is given |
| PostController.IntendedDefaultListsPublished | backend/controllers/postController.js:10-17 | with the intended default, omitting `published` lists published posts only |
| PostController.IntendedDefaultShowsPost | backend/controllers/postController.js:10-17 | with the intended default, the one-post store lists its post |
| PostController.PagesCoverSelection | backend/controllers/postController.js:34-43 | pages past the reported page count are empty, and every page from 1 to the page count has posts |
| PostController.PageArithmetic | backend/controllers/postController.js:43 | page p of a ceiling-divided total starts at or past the total when p is beyond the page count, and before it when 1 <= p <= pages |
| PostController.FindIndex | backend/controllers/postController.js:56 | `findById` finds the first post with the id, or reports that no post has it |
| PostController.GetPost | backend/controllers/postController.js:54-76 | a missing id is a 404; a stored post the schema rejects is refused with its validation errors and nothing is written; otherwise the post's views go up by exactly one and nothing else in the store changes |
| PostController.RepeatedViews | backend/controllers/postController.js:65-67 | n reads of a post the schema accepts raise its views by exactly n and change nothing else |
| PostController.ViewOnce | backend/controllers/postController.js:65-67 | one read of a valid post stores it with one more view, and it stays valid |
| PostController.InvalidPostIsNotViewed | backend/controllers/postController.js:66-67 | reading a post the schema rejects fails through the error handler, and any number of such reads leave the store as it was |
| PostController.CreatePost | backend/controllers/postController.js:81-101 | creation succeeds exactly when the document with the user as author is schema-valid; the stored post is exactly what `Post.create` makes of the body with the author replaced by the authenticated user, and it is added to the store; a failure forwards exactly the creation's validation errors |
| PostController.CreateIgnoresBodyAuthor | backend/controllers/postController.js:84 | the author named in the body never affects the created post |
| PostController.ApplyPatch | backend/controllers/postController.js:119-121 | each field the body carries takes the body's value (the title through the `trim` setter) and each field it leaves out keeps the stored value; id and creation time never change; slug, read time and excerpt are not rederived |
| PostController.Patched | backend/controllers/postController.js:119 | a field takes the body's value when the body carries one, and keeps the stored value otherwise |
| PostController.PatchIdempotent | backend/controllers/postController.js:119-121 | sending the same update twice stores what sending it once stores |
| PostController.PatchErrors | backend/controllers/postController.js:119-121 | the update validators report nothing exactly when every field the body sets meets the schema's checks |
| PostController.PatchKeepsSchemaValid | backend/controllers/postController.js:119-121 | a valid update of a valid post gives a valid post |
| PostController.UpdatePost | backend/controllers/postController.js:106-133 | 404 before 401; a non-author non-admin gets 401 and nothing is written; an invalid body is refused with its errors; otherwise exactly the one post is replaced by its patched version |
| PostController.DeletePost | backend/controllers/postController.js:138-160 | 404 before 401; a permitted delete removes exactly the post at the found position and keeps the rest in order |
| PostController.DeleteRemovesExactlyThePost | backend/controllers/postController.js:151 | with unique ids, the deleted post is gone and every other post remains |
| PostController.GetPostsByCategory | backend/controllers/postController.js:165-184 | the result is a newest-first permutation of exactly the published posts of the category |
| BlogStore.ErrorText | frontend/src/Context/BlogContext.jsx:59 | the server's message when it is present and non-empty, otherwise the fallback |
| BlogStore.SignIn | frontend/src/Context/BlogContext.jsx:46-65 | on success the token and user are stored under both keys, the user is set and the error cleared; on failure user and storage are unchanged and the error is recorded; loading always ends false |
| BlogStore.Login | frontend/src/Context/BlogContext.jsx:46-65 | a successful login signs the user in; a failure without a server message reports "Login failed" |
| BlogStore.Register | frontend/src/Context/BlogContext.jsx:67-86 | a successful registration signs the user in; a failure without a server message reports "Registration failed" |
| BlogStore.Logout | frontend/src/Context/BlogContext.jsx:88-94 | both storage keys are removed and user, posts and categories are cleared |
| BlogStore.LoginThenLogout | frontend/src/Context/BlogContext.jsx:46-94 | after logging in and out, whatever the reply, no session is left |
| BlogStore.ReplaceById | frontend/src/Context/BlogContext.jsx:154-156 | every post with the id is replaced by the server's copy; length and the other posts are unchanged |
| BlogStore.RemoveById | frontend/src/Context/BlogContext.jsx:175 | exactly the posts with the id are removed |
| BlogStore.RemoveByIdKeepsOrder | frontend/src/Context/BlogContext.jsx:175 | removal distributes over concatenation, so kept posts stay in relative order |
| BlogStore.RemoveByIdIdempotent | frontend/src/Context/BlogContext.jsx:175 | removing an id twice removes nothing more |
| BlogStore.ReplaceThenRemove | frontend/src/Context/BlogContext.jsx:154-175 | replacing the posts with an id and then removing it is the same as removing it |
| BlogStore.LoadPosts | frontend/src/Context/BlogContext.jsx:97-110 | a listing replaces the posts; a failure records its message, keeps the posts, and is rethrown |
| BlogStore.GetPostById | frontend/src/Context/BlogContext.jsx:112-124 | fetching one post never touches the post list; a failure records its message and is rethrown |
| BlogStore.CreatePost | frontend/src/Context/BlogContext.jsx:126-143 | success puts the new post in front; failure keeps the posts and records the message or "Failed to create post"; nothing else changes and loading ends false |
| BlogStore.UpdatePost | frontend/src/Context/BlogContext.jsx:146-165 | success replaces the posts with the id in place; failure keeps the posts and records the message; nothing else changes |
| BlogStore.DeletePost | frontend/src/Context/BlogContext.jsx:168-184 | success removes exactly the posts with the id; failure keeps the posts and records the message; nothing else changes |
| BlogStore.CreateThenDelete | frontend/src/Context/BlogContext.jsx:126-184 | creating a post with a new id and then deleting it gives back the earlier list |
| BlogStore.DeleteTwice | frontend/src/Context/BlogContext.jsx:175 | deleting the same id again changes no post |
| BlogStore.UpdateThenDelete | frontend/src/Context/BlogContext.jsx:146-184 | an update followed by a delete of that post leaves the list a delete alone leaves |
| BlogStore.LoadCategories | frontend/src/Context/BlogContext.jsx:187-198 | a listing replaces the categories; a failure records its message and is not rethrown |
| BlogStore.CreateCategory | frontend/src/Context/BlogContext.jsx:200-217 | success appends the new category at the end; failure keeps the categories and records the message; posts never change |
| BlogStore.ClearError | frontend/src/Context/BlogContext.jsx:244 | the error is cleared and nothing else changes |
| BlogStore.FailureThenClear | frontend/src/Context/BlogContext.jsx:126-244 | a failed mutation followed by clearing the error leaves the store as it was, apart from loading ending false |
| PostForm.ValidateForm | frontend/src/components/Posts/PostForm.jsx:61-82 | the form is valid exactly when no error is recorded; each blank title, content or excerpt and an empty category gets its one fixed message, and passing fields get no entry |
| PostForm.HandleChange | frontend/src/components/Posts/PostForm.jsx:46-59 | only the named field takes the new value (the checkbox takes `checked`); only that field's error is blanked, and only when one is shown |
| PostForm.ParseTags | frontend/src/components/Posts/PostForm.jsx:94 | every parsed tag is non-empty, trimmed and comma-free, and there are at most one more tags than commas |
| PostForm.ParseTagsAroundComma | frontend/src/components/Posts/PostForm.jsx:94 | parsing distributes over a comma, so tags come out in the order typed |
| PostForm.ParseOneTag | frontend/src/components/Posts/PostForm.jsx:94 | a single plain name parses to itself |
| PostForm.ParseTagsLeadingSpace | frontend/src/components/Posts/PostForm.jsx:94 | whitespace in front of the box does not change what it parses to |
| PostForm.EmptyBoxHasNoTags | frontend/src/components/Posts/PostForm.jsx:94 | an empty box yields no tags |
| PostForm.TagsRoundTrip | frontend/src/components/Posts/PostForm.jsx:38-94 | non-empty, trimmed, comma-free names joined with ", " parse back to exactly those names |
| PostForm.LoadForEditing | frontend/src/components/Posts/PostForm.jsx:30-44 | the editor takes the post's fields, and its tag box is the tag names joined with ", ", or empty when there is no tag array |
| PostForm.LoadedTagsRoundTrip | frontend/src/components/Posts/PostForm.jsx:38-94 | for plain tag names, the box loaded for editing parses back to the names, and an unchanged submit sends exactly those tags |
| PostForm.Submit | frontend/src/components/Posts/PostForm.jsx:84-103 | an invalid form is blocked with its errors and calls neither create nor update; otherwise update is called exactly when there is an id, sending the form's fields with the parsed tags |
| PostForm.AfterSave | frontend/src/components/Posts/PostForm.jsx:105-113 | success returns to the post list; any other outcome alerts a non-empty message, the store's own when it has one |
| CategoryForm.HandleChange | frontend/src/components/Categories/CategoryList.jsx:32-38 | only the named field takes the new value |
| CategoryForm.FallbackSlug | frontend/src/components/Categories/CategoryList.jsx:24 | the fallback slug is the lower-cased name's pieces between whitespace runs joined by single hyphens, so hyphens stand exactly where the runs were; it has no whitespace, is no longer than the name, is empty exactly when the name is, and adds one hyphen per run |
| CategoryForm.SlugToSend | frontend/src/components/Categories/CategoryList.jsx:24 | a typed slug is sent verbatim, and an empty one is replaced by the fallback |
| CategoryForm.Submit | frontend/src/components/Categories/CategoryList.jsx:14-30 | a blank name alerts and leaves the view alone; otherwise the form goes out with a non-empty slug and is then emptied and hidden |
| CategoryForm.SubmitAfterSendAlerts | frontend/src/components/Categories/CategoryList.jsx:14-30 | a form that was sent is reset, so a second submit straight away only alerts |
| CategoryForm.SubmitIgnoresShown | frontend/src/components/Categories/CategoryList.jsx:14-30 | what a submit sends or alerts depends on the form alone, not on whether it is shown |
| CategoryForm.FallbackKeepsEdges | frontend/src/components/Categories/CategoryList.jsx:24 | unlike the server's slug, the fallback keeps punctuation and is not trimmed: " A&B " gives "-a&b-" |

## Left out

- Search: the `search` parameter's `$text` query needs MongoDB's text index and
  stemming, which are not modelled. The listing query has no search field.
- Population, ObjectId casting, unique indexes and the `timestamps` option are not
  modelled. Ids and references are strings, and creation time is a parameter.
- Authentication is not modelled:
  - JWT signing, bcrypt password checks and the `protect`/`authorize` middleware;
  - the User model and `backend/controllers/authController.js`.

  The authenticated user is an input to the handlers.
- Category handlers: the category controller is not part of this model. Only the
  Category document and the client's category actions are modelled.
- Query parsing: a non-numeric or negative `limit` is not modelled (`limit` is a
  natural). Nor is JavaScript's string-to-number coercion of `page` and `limit`.
- Validation.PostRules: `isMongoId` is a parameter and not the library's concrete
  object-id check.
- Validation.UserRules: `isEmail` is a parameter and not the library's concrete
  address check.
- A request body whose values are not strings, such as arrays or numbers, is not
  modelled.
- Text.Lower: lower-casing is ASCII-only. JavaScript's full Unicode case mapping and
  its UTF-16 string lengths are not modelled, so the slug alphabet is proved for
  characters as Dafny sees them.
- The `featuredImage` and `likes` fields carry no logic and are not modelled.
- Client plumbing is not modelled:
  - the axios client, its interceptors and the `window.location` redirect;
  - `checkAuth`, and `loadInitialData` with its `Promise.all`;
  - the interleaving of concurrent async actions.

  Each action is one sequential transition, with browser storage part of the state.
- Server wiring is not modelled: routes, Express setup, rate limiting and the setup
  script.
- UI rendering is not modelled: layout, lists, the single-post page and date
  formatting.
- PostController.UpdatePost: the update validators are modelled as the schema's checks
  on the fields the body sets. Mongoose's cast errors for ill-typed values are not
  modelled.
- PostModel.PreSave: the hook's excerpt branch is modelled as written, but no save
  reaches it with an empty excerpt: validation of the required `excerpt` runs first and
  refuses the document (PostModel.CreateDocument, PostController.GetPost).
- PostController.SortNewestFirst: posts with equal creation times keep their store
  order. MongoDB promises no order among such ties, so the model fixes one order where
  the database may return another.

## Findings

| source | as written | input that shows it | evidently intended | confidence | as-written member | corrected member |
|---|---|---|---|---|---|---|
| backend/controllers/postController.js:10-17 | `published` defaults to the boolean `true`, which is neither `'all'` nor `=== 'true'`, so the default filter selects `published: false` | a store holding one published post, listed with no query parameters, returns no posts (total 0) | omitting `published` lists the published posts | not executed | PostController.DefaultHidesPublishedPost | PostController.IntendedDefaultShowsPost |

`PostController.DefaultListsUnpublished` states the as-written behaviour for every store.
`PostController.IntendedDefaultListsPublished` states the corrected behaviour for every
store, and `PostController.GetPostsIntended` is the corrected listing.
