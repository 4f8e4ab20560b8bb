/**
 * The client-side store (frontend/src/Context/BlogContext.jsx) as a state-transition
 * function. Each action takes the state and the server's reply and yields the state
 * after the action has finished, together with what the action returns to its caller.
 * The browser's two storage keys are part of the state.
 */
module BlogStore {
  import opened Results
  import opened Text
  import opened PostModel
  import opened CategoryModel
  import PostController
  import Lists

  /** The signed-in user as the server describes it. */
  datatype User = User(id: String, username: String, email: String, role: String)

  /** The two browser storage keys, `token` and `user`. */
  datatype Storage = Storage(token: Option<String>, user: Option<User>)

  datatype State = State(
    user: Option<User>,
    posts: seq<Post>,
    categories: seq<Category>,
    loading: bool,
    error: Option<String>,
    storage: Storage)

  /** A server call's outcome: the payload, or a failure carrying the body's `error`
      field when there is one. */
  datatype Reply<T> = Delivered(data: T) | Refused(serverError: Option<String>)

  /** What an action hands back: `{success: true, data}`, `{success: false, error}`,
      or a rethrown exception. */
  datatype Outcome<T> = Succeeded(data: T) | Failed(error: String) | Thrown

  datatype Step<T> = Step(state: State, outcome: Outcome<T>)

  /** The token and user a login or registration returns. */
  datatype Session = Session(token: String, user: User)

  const Initial: State := State(None, [], [], false, None, Storage(None, None))

  /** `error.response?.data?.error || fallback`: the server's message unless it is missing
      or empty. */
  function ErrorText(serverError: Option<String>, fallback: String): (m: String)
    ensures serverError.Some? && serverError.value != [] ==> m == serverError.value
    ensures serverError.None? || serverError.value == [] ==> m == fallback
    ensures fallback != [] ==> m != []
  {
    if serverError.Some? && serverError.value != [] then serverError.value else fallback
  }

  /** The end of every action that reports an error: the message is recorded and the
      loading flag cleared. */
  function Fail<T>(s: State, message: String): (r: Step<T>)
    ensures r.state == s.(loading := false, error := Some(message))
    ensures r.outcome == Failed(message)
  {
    Step(s.(loading := false, error := Some(message)), Failed(message))
  }

  // ---------------------------------------------------------------------------
  // Authentication
  // ---------------------------------------------------------------------------

  function SignIn(s: State, reply: Reply<Session>, fallback: String): (r: Step<User>)
    ensures !r.state.loading
    ensures r.state.posts == s.posts && r.state.categories == s.categories
    ensures reply.Delivered? ==>
      && r.state.storage == Storage(Some(reply.data.token), Some(reply.data.user))
      && r.state.user == Some(reply.data.user)
      && r.state.error.None?
      && r.outcome == Succeeded(reply.data.user)
    ensures reply.Refused? ==>
      && r.state.user == s.user && r.state.storage == s.storage
      && r.state.error == Some(ErrorText(reply.serverError, fallback))
      && r.outcome == Failed(ErrorText(reply.serverError, fallback))
  {
    match reply
    case Delivered(session) =>
      Step(s.(user := Some(session.user), loading := false, error := None,
              storage := Storage(Some(session.token), Some(session.user))),
           Succeeded(session.user))
    case Refused(e) => Fail(s, ErrorText(e, fallback))
  }

  /** `login`. */
  function Login(s: State, reply: Reply<Session>): (r: Step<User>)
    ensures reply.Delivered? ==>
      && r.state.user == Some(reply.data.user)
      && r.state.storage.token == Some(reply.data.token) && r.outcome.Succeeded?
    ensures reply == Refused(None) ==> r.outcome == Failed("Login failed") && r.state.user == s.user
    ensures !r.state.loading
  {
    SignIn(s, reply, "Login failed")
  }

  /** `register`: the same transitions as `login`, with its own fallback message. */
  function Register(s: State, reply: Reply<Session>): (r: Step<User>)
    ensures reply.Delivered? ==>
      && r.state.user == Some(reply.data.user)
      && r.state.storage.token == Some(reply.data.token) && r.outcome.Succeeded?
    ensures reply == Refused(None) ==> r.outcome == Failed("Registration failed") && r.state.user == s.user
    ensures !r.state.loading
  {
    SignIn(s, reply, "Registration failed")
  }

  /** `logout`: both storage keys go, and so do the user, the posts and the categories. */
  function Logout(s: State): (r: State)
    ensures r.storage == Storage(None, None)
    ensures r.user.None? && r.posts == [] && r.categories == []
    ensures r.loading == s.loading && r.error == s.error
  {
    s.(user := None, posts := [], categories := [], storage := Storage(None, None))
  }

  /** Logging in and then out leaves no session behind, whatever the reply was. */
  lemma LoginThenLogout(s: State, reply: Reply<Session>)
    ensures var t := Logout(Login(s, reply).state);
      t.user.None? && t.storage == Storage(None, None) && t.posts == [] && t.categories == []
  {
  }

  // ---------------------------------------------------------------------------
  // Posts
  // ---------------------------------------------------------------------------

  /** `prev.map(post => post._id === id ? updated : post)`. */
  function ReplaceById(posts: seq<Post>, id: String, updated: Post): (r: seq<Post>)
    ensures |r| == |posts|
    ensures forall i :: 0 <= i < |r| ==> r[i] == if posts[i].id == id then updated else posts[i]
  {
    seq(|posts|, i requires 0 <= i < |posts| => if posts[i].id == id then updated else posts[i])
  }

  /** `prev.filter(post => post._id !== id)`. */
  function RemoveById(posts: seq<Post>, id: String): (r: seq<Post>)
    ensures |r| <= |posts|
    ensures forall x :: x in r <==> x in posts && x.id != id
  {
    Lists.Filter(posts, (p: Post) => p.id != id)
  }

  /** Removal works piece by piece, so the posts it keeps stay in their relative order;
      a list without the id is left as it is. */
  lemma RemoveByIdKeepsOrder(a: seq<Post>, b: seq<Post>, id: String)
    ensures RemoveById(a + b, id) == RemoveById(a, id) + RemoveById(b, id)
    ensures (forall i :: 0 <= i < |a| ==> a[i].id != id) ==> RemoveById(a, id) == a
  {
    Lists.FilterConcat(a, b, (p: Post) => p.id != id);
    if forall i :: 0 <= i < |a| ==> a[i].id != id {
      Lists.FilterAllKept(a, (p: Post) => p.id != id);
    }
  }

  /** Removing twice removes nothing more. */
  lemma RemoveByIdIdempotent(posts: seq<Post>, id: String)
    ensures RemoveById(RemoveById(posts, id), id) == RemoveById(posts, id)
  {
    var r := RemoveById(posts, id);
    assert forall i :: 0 <= i < |r| ==> r[i] in r;
    RemoveByIdKeepsOrder(r, [], id);
    assert r + [] == r;
  }

  /** Replacing the post with an id and then removing that id is the same as removing it. */
  lemma {:induction false} ReplaceThenRemove(posts: seq<Post>, id: String, updated: Post)
    requires updated.id == id
    ensures RemoveById(ReplaceById(posts, id, updated), id) == RemoveById(posts, id)
  {
    if posts != [] {
      var rest := ReplaceById(posts[1..], id, updated);
      assert ReplaceById(posts, id, updated) == [ReplaceById(posts, id, updated)[0]] + rest;
      ReplaceThenRemove(posts[1..], id, updated);
      RemoveByIdKeepsOrder([ReplaceById(posts, id, updated)[0]], rest, id);
      RemoveByIdKeepsOrder([posts[0]], posts[1..], id);
      assert posts == [posts[0]] + posts[1..];
    }
  }

  /** `loadPosts`: a listing replaces the posts; a failure records the message and is rethrown. */
  function LoadPosts(s: State, reply: Reply<PostController.Page>): (r: Step<PostController.Page>)
    ensures !r.state.loading
    ensures reply.Delivered? ==>
      && r.state == s.(posts := reply.data.data, loading := false)
      && r.outcome == Succeeded(reply.data)
    ensures reply.Refused? ==>
      r.state == s.(loading := false, error := Some(ErrorText(reply.serverError, "Failed to load posts")))
      && r.outcome.Thrown?
  {
    match reply
    case Delivered(page) => Step(s.(posts := page.data, loading := false), Succeeded(page))
    case Refused(e) => Step(s.(loading := false, error := Some(ErrorText(e, "Failed to load posts"))), Thrown)
  }

  /** `getPostById`: the post list is never touched. */
  function GetPostById(s: State, reply: Reply<Post>): (r: Step<Post>)
    ensures r.state.posts == s.posts && !r.state.loading
    ensures reply.Delivered? ==> r.state == s.(loading := false) && r.outcome == Succeeded(reply.data)
    ensures reply.Refused? ==>
      && r.state.error == Some(ErrorText(reply.serverError, "Failed to load post"))
      && r.outcome.Thrown?
  {
    match reply
    case Delivered(p) => Step(s.(loading := false), Succeeded(p))
    case Refused(e) => Step(s.(loading := false, error := Some(ErrorText(e, "Failed to load post"))), Thrown)
  }

  /** `createPost`: the new post goes in front. */
  function CreatePost(s: State, reply: Reply<Post>): (r: Step<Post>)
    ensures !r.state.loading
    ensures reply.Delivered? ==>
      && r.state.posts == [reply.data] + s.posts
      && r.state.error.None? && r.outcome == Succeeded(reply.data)
    ensures reply.Refused? ==>
      && r.state.posts == s.posts
      && r.state.error == Some(ErrorText(reply.serverError, "Failed to create post"))
      && r.outcome == Failed(ErrorText(reply.serverError, "Failed to create post"))
    ensures r.state.(posts := s.posts, loading := s.loading, error := s.error) == s
  {
    match reply
    case Delivered(p) => Step(s.(posts := [p] + s.posts, loading := false, error := None), Succeeded(p))
    case Refused(e) => Fail(s, ErrorText(e, "Failed to create post"))
  }

  /** `updatePost`: every post with the id is replaced by the server's copy; length, order
      and the other posts stay as they were. */
  function UpdatePost(s: State, id: String, reply: Reply<Post>): (r: Step<Post>)
    ensures !r.state.loading
    ensures reply.Delivered? ==>
      && |r.state.posts| == |s.posts|
      && (forall i :: 0 <= i < |s.posts| && s.posts[i].id == id ==> r.state.posts[i] == reply.data)
      && (forall i :: 0 <= i < |s.posts| && s.posts[i].id != id ==> r.state.posts[i] == s.posts[i])
      && r.state.error.None? && r.outcome == Succeeded(reply.data)
    ensures reply.Refused? ==>
      && r.state.posts == s.posts
      && r.state.error == Some(ErrorText(reply.serverError, "Failed to update post"))
      && r.outcome == Failed(ErrorText(reply.serverError, "Failed to update post"))
    ensures r.state.(posts := s.posts, loading := s.loading, error := s.error) == s
  {
    match reply
    case Delivered(p) =>
      Step(s.(posts := ReplaceById(s.posts, id, p), loading := false, error := None), Succeeded(p))
    case Refused(e) => Fail(s, ErrorText(e, "Failed to update post"))
  }

  /** `deletePost`: exactly the posts with the id disappear. */
  function DeletePost(s: State, id: String, reply: Reply<()>): (r: Step<()>)
    ensures !r.state.loading
    ensures reply.Delivered? ==>
      && (forall x :: x in r.state.posts <==> x in s.posts && x.id != id)
      && r.state.posts == RemoveById(s.posts, id)
      && r.state.error.None? && r.outcome.Succeeded?
    ensures reply.Refused? ==>
      && r.state.posts == s.posts
      && r.state.error == Some(ErrorText(reply.serverError, "Failed to delete post"))
      && r.outcome == Failed(ErrorText(reply.serverError, "Failed to delete post"))
    ensures r.state.(posts := s.posts, loading := s.loading, error := s.error) == s
  {
    match reply
    case Delivered(_) => Step(s.(posts := RemoveById(s.posts, id), loading := false, error := None), Succeeded(()))
    case Refused(e) => Fail(s, ErrorText(e, "Failed to delete post"))
  }

  /** Creating a post whose id is new and then deleting it gives back the earlier list. */
  lemma CreateThenDelete(s: State, p: Post)
    requires forall i :: 0 <= i < |s.posts| ==> s.posts[i].id != p.id
    ensures DeletePost(CreatePost(s, Delivered(p)).state, p.id, Delivered(())).state.posts == s.posts
  {
    RemoveByIdKeepsOrder([p], s.posts, p.id);
    RemoveByIdKeepsOrder(s.posts, [], p.id);
    assert s.posts + [] == s.posts;
    assert RemoveById([p], p.id) == [];
  }

  /** Deleting the same id a second time changes no post. */
  lemma DeleteTwice(s: State, id: String)
    ensures var once := DeletePost(s, id, Delivered(())).state;
      DeletePost(once, id, Delivered(())).state.posts == once.posts
  {
    RemoveByIdIdempotent(s.posts, id);
  }

  /** An update followed by a delete of the same post leaves the list a delete alone leaves. */
  lemma UpdateThenDelete(s: State, p: Post)
    ensures var updated := UpdatePost(s, p.id, Delivered(p)).state;
      DeletePost(updated, p.id, Delivered(())).state.posts == DeletePost(s, p.id, Delivered(())).state.posts
  {
    ReplaceThenRemove(s.posts, p.id, p);
  }

  // ---------------------------------------------------------------------------
  // Categories and errors
  // ---------------------------------------------------------------------------

  /** `loadCategories`: a failure records the message but is not rethrown. */
  function LoadCategories(s: State, reply: Reply<seq<Category>>): (r: State)
    ensures !r.loading && r.posts == s.posts
    ensures reply.Delivered? ==> r == s.(categories := reply.data, loading := false)
    ensures reply.Refused? ==>
      r == s.(loading := false, error := Some(ErrorText(reply.serverError, "Failed to load categories")))
  {
    match reply
    case Delivered(cs) => s.(categories := cs, loading := false)
    case Refused(e) => s.(loading := false, error := Some(ErrorText(e, "Failed to load categories")))
  }

  /** `createCategory`: the new category goes at the end. */
  function CreateCategory(s: State, reply: Reply<Category>): (r: Step<Category>)
    ensures !r.state.loading && r.state.posts == s.posts
    ensures reply.Delivered? ==>
      && r.state.categories == s.categories + [reply.data]
      && r.state.error.None? && r.outcome == Succeeded(reply.data)
    ensures reply.Refused? ==>
      && r.state.categories == s.categories
      && r.state.error == Some(ErrorText(reply.serverError, "Failed to create category"))
      && r.outcome == Failed(ErrorText(reply.serverError, "Failed to create category"))
  {
    match reply
    case Delivered(c) => Step(s.(categories := s.categories + [c], loading := false, error := None), Succeeded(c))
    case Refused(e) => Fail(s, ErrorText(e, "Failed to create category"))
  }

  /** `clearError`. */
  function ClearError(s: State): (r: State)
    ensures r.error.None?
    ensures r.(error := s.error) == s
  {
    s.(error := None)
  }

  /** A failed mutation followed by `clearError` leaves the store as it was, except that
      loading is off. */
  lemma FailureThenClear(s: State, id: String, e: Option<String>)
    requires s.error.None?
    ensures ClearError(CreatePost(s, Refused(e)).state) == s.(loading := false)
    ensures ClearError(UpdatePost(s, id, Refused(e)).state) == s.(loading := false)
    ensures ClearError(DeletePost(s, id, Refused(e)).state) == s.(loading := false)
    ensures ClearError(CreateCategory(s, Refused(e)).state) == s.(loading := false)
  {
  }
}
