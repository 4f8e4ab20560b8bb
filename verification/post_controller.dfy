/**
 * The post handlers (backend/controllers/postController.js) over a store that
 * is a sequence of posts: listing with the published and category filters and
 * skip/limit paging, single-post reads that count a view, creation bound to the
 * authenticated user, the author-or-admin gate on update and delete, and the
 * published posts of one category.
 */
module PostController {
  import opened Results
  import opened Text
  import opened PostModel
  import Lists

  /** The authenticated user a protected request carries. */
  datatype Actor = Actor(id: String, role: String)

  /** Why a handler did not succeed. */
  datatype Failure =
    | Respond(status: nat, message: String)  // an ErrorResponse with an explicit status
    | Forward(cause: Cause)                   // `next(error)` on a store error

  /** Store errors handed to the error-handling middleware. */
  datatype Cause = SchemaInvalid(errors: seq<FieldError>) | NegativeSkip

  /** The store after a single-post operation, and the post it returns. */
  datatype Stored = Stored(store: seq<Post>, post: Post)

  /** The body of a listing response. `pages` is None where `Math.ceil(total / 0)`
      is Infinity or NaN, which JSON writes as null. */
  datatype Page = Page(count: nat, total: nat, pages: Option<nat>, data: seq<Post>)

  /** The `published` query parameter: left out, or given as a string. */
  datatype PublishedParam = Omitted | Given(value: String)

  /** The listing query. An empty `category` is the same as leaving it out. */
  datatype Query = Query(page: Option<int>, limit: Option<nat>, category: String, published: PublishedParam)

  /** The condition on the published flag a listing applies. */
  datatype StateFilter = AnyState | OnlyState(published: bool)

  const DefaultPage: int := 1
  const DefaultLimit: nat := 10
  const AdminRole: String := "admin"
  const PostNotFound: String := "Post not found"
  const CannotUpdate: String := "Not authorized to update this post"
  const CannotDelete: String := "Not authorized to delete this post"

  // ---------------------------------------------------------------------------
  // Filtering
  // ---------------------------------------------------------------------------

  /** The published filter as the handler computes it: `'all'` applies none, the string
      `'true'` selects published posts, and every other value selects unpublished ones.
      That includes the parameter's default, the boolean `true`, which is not `=== 'true'`. */
  function PublishedFilter(p: PublishedParam): (f: StateFilter)
    ensures f.AnyState? <==> p == Given("all")
    ensures f.OnlyState? ==> (f.published <==> p == Given("true"))
    ensures p == Omitted ==> f == OnlyState(false)
  {
    match p
    case Omitted => OnlyState(false)
    case Given(v) => if v == "all" then AnyState else OnlyState(v == "true")
  }

  /** The published filter with the default the listing evidently means: published posts only. */
  function IntendedPublishedFilter(p: PublishedParam): (f: StateFilter)
    ensures p.Given? ==> f == PublishedFilter(p)
    ensures f.AnyState? <==> p == Given("all")
    ensures f.OnlyState? ==> (f.published <==> p == Omitted || p == Given("true"))
  {
    match p
    case Omitted => OnlyState(true)
    case Given(_) => PublishedFilter(p)
  }

  predicate Matches(p: Post, f: StateFilter, category: String) {
    && (f.AnyState? || p.published == f.published)
    && (category == [] || p.category == category)
  }

  /** The posts of the store a listing query selects, in store order. */
  function Select(store: seq<Post>, f: StateFilter, category: String): (r: seq<Post>)
    ensures forall x :: x in r <==> x in store && Matches(x, f, category)
  {
    Lists.Filter(store, (p: Post) => Matches(p, f, category))
  }

  /** The published posts of one category, in store order. */
  function PublishedIn(store: seq<Post>, categoryId: String): (r: seq<Post>)
    ensures forall x :: x in r <==> x in store && x.published && x.category == categoryId
  {
    Lists.Filter(store, (p: Post) => p.published && p.category == categoryId)
  }

  // ---------------------------------------------------------------------------
  // Newest-first ordering (`sort({ createdAt: -1 })`)
  // ---------------------------------------------------------------------------

  predicate NewestFirst(s: seq<Post>) {
    forall i, j :: 0 <= i < j < |s| ==> s[i].createdAt >= s[j].createdAt
  }

  /** p put in front of the first post of s that is no newer than it. */
  function Insert(p: Post, s: seq<Post>): (r: seq<Post>)
    ensures |r| == |s| + 1
    ensures r[0] == p || (s != [] && r[0] == s[0])
  {
    if s == [] then [p]
    else if p.createdAt >= s[0].createdAt then [p] + s
    else [s[0]] + Insert(p, s[1..])
  }

  lemma {:induction false} InsertKeepsOrder(p: Post, s: seq<Post>)
    requires NewestFirst(s)
    ensures NewestFirst(Insert(p, s))
  {
    if s != [] && p.createdAt < s[0].createdAt {
      NewestFirstTail(s);
      InsertKeepsOrder(p, s[1..]);
      ConsNewest(s[0], Insert(p, s[1..]));
    } else if s != [] {
      ConsNewest(p, s);
    }
  }

  lemma {:induction false} InsertPerm(p: Post, s: seq<Post>)
    ensures multiset(Insert(p, s)) == multiset(s) + multiset{p}
  {
    if s != [] && p.createdAt < s[0].createdAt {
      InsertPerm(p, s[1..]);
      assert s == [s[0]] + s[1..];
    }
  }

  lemma NewestFirstTail(s: seq<Post>)
    requires s != [] && NewestFirst(s)
    ensures NewestFirst(s[1..])
    ensures s[1..] != [] ==> s[0].createdAt >= s[1].createdAt
  {
    forall i, j | 0 <= i < j < |s| - 1
      ensures s[1..][i].createdAt >= s[1..][j].createdAt
    {
      assert s[1..][i] == s[i + 1] && s[1..][j] == s[j + 1];
    }
  }

  /** A post no older than the head of an ordered list may go in front of it. */
  lemma ConsNewest(p: Post, s: seq<Post>)
    requires NewestFirst(s)
    requires s == [] || p.createdAt >= s[0].createdAt
    ensures NewestFirst([p] + s)
  {
    var r := [p] + s;
    forall i, j | 0 <= i < j < |r|
      ensures r[i].createdAt >= r[j].createdAt
    {
      assert r[j] == s[j - 1];
      if i > 0 {
        assert r[i] == s[i - 1];
      } else {
        assert s[0].createdAt >= s[j - 1].createdAt;
      }
    }
  }

  /** Sorting neither adds nor drops a post. */
  lemma SortedMembers(s: seq<Post>)
    ensures forall x :: x in SortNewestFirst(s) <==> x in s
  {
    assert forall x :: x in SortNewestFirst(s) <==> x in multiset(SortNewestFirst(s));
  }

  /** The posts of s, newest first: an ordered permutation of s. */
  function SortNewestFirst(s: seq<Post>): (r: seq<Post>)
    ensures |r| == |s|
    ensures NewestFirst(r)
    ensures multiset(r) == multiset(s)
  {
    if s == [] then []
    else
      InsertKeepsOrder(s[0], SortNewestFirst(s[1..]));
      InsertPerm(s[0], SortNewestFirst(s[1..]));
      assert s == [s[0]] + s[1..];
      Insert(s[0], SortNewestFirst(s[1..]))
  }

  // ---------------------------------------------------------------------------
  // Listing
  // ---------------------------------------------------------------------------

  function PageOf(q: Query): int {
    match q.page case Some(n) => n case None => DefaultPage
  }

  function LimitOf(q: Query): nat {
    match q.limit case Some(n) => n case None => DefaultLimit
  }

  /** `.limit(limit).skip(skip)` on an ordered result: at most `limit` items (no bound
      when `limit` is 0) starting at position `skip`. */
  function Window(s: seq<Post>, skip: nat, limit: nat): (r: seq<Post>)
    ensures limit > 0 ==> |r| <= limit
    ensures skip >= |s| ==> r == []
    ensures skip < |s| && limit == 0 ==> |r| == |s| - skip
    ensures skip < |s| && limit > 0 ==> |r| == if skip + limit <= |s| then limit else |s| - skip
    ensures forall i :: 0 <= i < |r| ==> r[i] == s[skip + i]
  {
    if skip >= |s| then []
    else if limit == 0 || skip + limit > |s| then s[skip..]
    else s[skip..skip + limit]
  }

  lemma WindowKeepsOrder(s: seq<Post>, skip: nat, limit: nat)
    requires NewestFirst(s)
    ensures NewestFirst(Window(s, skip, limit))
  {
    var r := Window(s, skip, limit);
    forall i, j | 0 <= i < j < |r|
      ensures r[i].createdAt >= r[j].createdAt
    {
      assert r[i] == s[skip + i] && r[j] == s[skip + j];
    }
  }

  /** A window of the ordered selection is ordered and holds only selected posts. */
  lemma WindowFacts(selected: seq<Post>, sorted: seq<Post>, skip: nat, limit: nat)
    requires sorted == SortNewestFirst(selected)
    ensures NewestFirst(Window(sorted, skip, limit))
    ensures forall x :: x in Window(sorted, skip, limit) ==> x in selected
  {
    SortedMembers(selected);
    WindowKeepsOrder(sorted, skip, limit);
    var data := Window(sorted, skip, limit);
    forall x | x in data
      ensures x in selected
    {
      var i :| 0 <= i < |data| && data[i] == x;
      assert x == sorted[skip + i];
    }
  }

  /** The computed skip `(page - 1) * limit` is not negative: exactly when a listing succeeds. */
  predicate SkipOk(q: Query) {
    (PageOf(q) - 1) * LimitOf(q) >= 0
  }

  /** n is the ceiling of total / limit. */
  predicate CeilingOf(n: nat, total: nat, limit: nat) {
    n * limit >= total && (n == 0 || (n - 1) * limit < total)
  }

  /** The listing, for a given published filter. It fails when the computed skip
      `(page - 1) * limit` is negative, which the store refuses. Otherwise `total`
      counts every selected post whatever the page, `data` is the window of the
      newest-first selection starting at the skip, and `pages` is the ceiling of
      total over limit. */
  function ListWith(store: seq<Post>, q: Query, f: StateFilter): (r: Result<Page, Failure>)
    ensures r.Err? <==> !SkipOk(q)
    ensures r.Err? ==> r.error == Forward(NegativeSkip)
    ensures r.Ok? ==> r.value.total == |Select(store, f, q.category)|
    ensures r.Ok? ==> r.value.count == |r.value.data|
    ensures r.Ok? && LimitOf(q) > 0 ==> r.value.pages.Some? && CeilingOf(r.value.pages.value, r.value.total, LimitOf(q))
    ensures r.Ok? && LimitOf(q) == 0 ==> r.value.pages.None?
    ensures r.Ok? ==>
      r.value.data == Window(SortNewestFirst(Select(store, f, q.category)), (PageOf(q) - 1) * LimitOf(q), LimitOf(q))
  {
    var limit := LimitOf(q);
    var skip := (PageOf(q) - 1) * limit;
    if skip < 0 then Err(Forward(NegativeSkip))
    else
      var data := Window(SortNewestFirst(Select(store, f, q.category)), skip, limit);
      Ok(Page(|data|, |Select(store, f, q.category)|,
              if limit == 0 then None else Some(CeilDiv(|Select(store, f, q.category)|, limit)), data))
  }

  /** A listed page is newest first, holds only stored posts the filter matches, and
      never more than the limit. */
  lemma ListedPosts(store: seq<Post>, q: Query, f: StateFilter)
    requires SkipOk(q)
    ensures NewestFirst(ListWith(store, q, f).value.data)
    ensures forall x :: x in ListWith(store, q, f).value.data ==> x in store && Matches(x, f, q.category)
    ensures LimitOf(q) > 0 ==> |ListWith(store, q, f).value.data| <= LimitOf(q)
  {
    var selected := Select(store, f, q.category);
    var skip: nat := (PageOf(q) - 1) * LimitOf(q);
    var data := Window(SortNewestFirst(selected), skip, LimitOf(q));
    assert ListWith(store, q, f).value.data == data;
    WindowFacts(selected, SortNewestFirst(selected), skip, LimitOf(q));
    assert forall x :: x in data ==> x in selected;
  }

  /** `getPosts` as written: a negative skip fails; otherwise the page is newest first,
      holds only stored posts the published filter and the category match, and the total
      counts every such post. */
  function GetPosts(store: seq<Post>, q: Query): (r: Result<Page, Failure>)
    ensures r.Err? <==> !SkipOk(q)
    ensures r.Ok? ==> r.value.total == |Select(store, PublishedFilter(q.published), q.category)|
    ensures r.Ok? ==> NewestFirst(r.value.data)
    ensures r.Ok? ==> forall x :: x in r.value.data ==>
      x in store && Matches(x, PublishedFilter(q.published), q.category)
  {
    if SkipOk(q) then
      ListedPosts(store, q, PublishedFilter(q.published));
      ListWith(store, q, PublishedFilter(q.published))
    else ListWith(store, q, PublishedFilter(q.published))
  }

  /** `getPosts` with the intended default for `published`: it differs from the handler as
      written only when the parameter is left out. */
  function GetPostsIntended(store: seq<Post>, q: Query): (r: Result<Page, Failure>)
    ensures q.published.Given? ==> r == GetPosts(store, q)
    ensures r.Err? <==> !SkipOk(q)
    ensures r.Ok? ==> NewestFirst(r.value.data)
    ensures r.Ok? ==> forall x :: x in r.value.data ==>
      x in store && Matches(x, IntendedPublishedFilter(q.published), q.category)
  {
    if SkipOk(q) then
      ListedPosts(store, q, IntendedPublishedFilter(q.published));
      ListWith(store, q, IntendedPublishedFilter(q.published))
    else ListWith(store, q, IntendedPublishedFilter(q.published))
  }

  /** The total does not depend on the page or the limit asked for. */
  lemma TotalIgnoresPaging(store: seq<Post>, q1: Query, q2: Query)
    requires q1.category == q2.category && q1.published == q2.published
    requires SkipOk(q1) && SkipOk(q2)
    ensures GetPosts(store, q1).value.total == GetPosts(store, q2).value.total
  {
  }

  /** `published=all` lists both states; `published=true` lists published posts only. */
  lemma {:induction false} ExplicitPublishedParam(store: seq<Post>, q: Query)
    requires SkipOk(q)
    ensures q.published == Given("all") ==>
      GetPosts(store, q).value.total == |Lists.Filter(store, (p: Post) => q.category == [] || p.category == q.category)|
    ensures q.published == Given("true") ==> forall x :: x in GetPosts(store, q).value.data ==> x.published
  {
    ListedPosts(store, q, PublishedFilter(q.published));
    if q.published == Given("all") {
      assert Select(store, AnyState, q.category)
        == Lists.Filter(store, (p: Post) => q.category == [] || p.category == q.category) by {
        Lists.FilterSameKeep(store, (p: Post) => Matches(p, AnyState, q.category),
          (p: Post) => q.category == [] || p.category == q.category);
      }
    }
  }

  /** An empty category parameter applies no category filter. */
  lemma {:induction false} EmptyCategoryIsNoFilter(store: seq<Post>, f: StateFilter)
    ensures Select(store, f, []) == Lists.Filter(store, (p: Post) => f.AnyState? || p.published == f.published)
  {
    Lists.FilterSameKeep(store, (p: Post) => Matches(p, f, []), (p: Post) => f.AnyState? || p.published == f.published);
  }

  /** As written, omitting `published` lists unpublished posts only. */
  lemma DefaultListsUnpublished(store: seq<Post>, q: Query)
    requires q.published == Omitted && SkipOk(q)
    ensures forall x :: x in GetPosts(store, q).value.data ==> !x.published
  {
    ListedPosts(store, q, PublishedFilter(q.published));
  }

  /** A store holding one published post, listed with every parameter left out, shows nothing. */
  lemma {:induction false} DefaultHidesPublishedPost(p: Post)
    requires p.published
    ensures GetPosts([p], Query(None, None, [], Omitted)) == Ok(Page(0, 0, Some(0), []))
  {
    var q := Query(None, None, [], Omitted);
    assert !Matches(p, OnlyState(false), []);
    assert Select([p], OnlyState(false), []) == [];
  }

  /** With the intended default, omitting `published` lists published posts only. */
  lemma IntendedDefaultListsPublished(store: seq<Post>, q: Query)
    requires q.published == Omitted && SkipOk(q)
    ensures forall x :: x in GetPostsIntended(store, q).value.data ==> x.published
  {
    ListedPosts(store, q, IntendedPublishedFilter(q.published));
  }

  /** With the intended default, the one-post store of `DefaultHidesPublishedPost` shows
      its post. */
  lemma {:induction false} IntendedDefaultShowsPost(p: Post)
    requires p.published
    ensures GetPostsIntended([p], Query(None, None, [], Omitted)) == Ok(Page(1, 1, Some(1), [p]))
  {
    assert Matches(p, OnlyState(true), []);
    assert Select([p], OnlyState(true), []) == [p] by {
      assert [p][1..] == [];
    }
    assert SortNewestFirst([p]) == [p];
  }

  /** Pages past the last one are empty, and every page up to the last one has posts. */
  lemma {:induction false} PagesCoverSelection(store: seq<Post>, q: Query)
    requires LimitOf(q) > 0 && SkipOk(q)
    ensures var r := GetPosts(store, q).value;
      PageOf(q) > r.pages.value ==> r.data == []
    ensures var r := GetPosts(store, q).value;
      1 <= PageOf(q) <= r.pages.value ==> r.data != []
  {
    var f := PublishedFilter(q.published);
    assert GetPosts(store, q) == ListWith(store, q, f);
    var r := ListWith(store, q, f).value;
    var sorted := SortNewestFirst(Select(store, f, q.category));
    var skip: nat := (PageOf(q) - 1) * LimitOf(q);
    assert r.data == Window(sorted, skip, LimitOf(q)) && |sorted| == r.total;
    PageArithmetic(PageOf(q), r.pages.value, LimitOf(q), r.total);
  }

  /** Where page `page` of a ceiling-divided total starts, relative to the total. */
  lemma PageArithmetic(page: int, n: nat, limit: nat, total: nat)
    requires limit > 0 && CeilingOf(n, total, limit)
    ensures page > n ==> (page - 1) * limit >= total
    ensures 1 <= page <= n ==> (page - 1) * limit < total
  {
    if page > n {
      MulMono(n, page - 1, limit);
    }
    if 1 <= page <= n {
      MulMono(page - 1, n - 1, limit);
    }
  }

  lemma MulMono(a: int, b: int, c: nat)
    requires 0 <= a <= b
    ensures a * c <= b * c
  {
  }

  // ---------------------------------------------------------------------------
  // Single posts
  // ---------------------------------------------------------------------------

  /** The position of the first post with the given id, if any. */
  function FindIndex(store: seq<Post>, id: String): (r: Option<nat>)
    ensures r.Some? ==> r.value < |store| && store[r.value].id == id
    ensures r.Some? ==> forall j :: 0 <= j < r.value ==> store[j].id != id
    ensures r.None? <==> forall j :: 0 <= j < |store| ==> store[j].id != id
  {
    if store == [] then None
    else if store[0].id == id then Some(0)
    else match FindIndex(store[1..], id)
      case None => None
      case Some(i) => Some(i + 1)
  }

  /** The author-or-admin gate. */
  predicate MayModify(p: Post, actor: Actor) {
    p.author == actor.id || actor.role == AdminRole
  }

  /** `getPost`: a missing id is a 404; otherwise the post's view counter goes up by one and
      the post is saved. Saving validates every path of the loaded document before the
      pre-save hook runs, so a stored post the schema rejects is refused with its errors and
      no view is counted; for a valid post the hook, with no path modified, changes nothing. */
  function GetPost(store: seq<Post>, id: String): (r: Result<Stored, Failure>)
    ensures r.Err? <==> FindIndex(store, id).None? || !SchemaValid(store[FindIndex(store, id).value])
    ensures FindIndex(store, id).None? ==> r == Err(Respond(404, PostNotFound))
    ensures FindIndex(store, id).Some? && !SchemaValid(store[FindIndex(store, id).value]) ==>
      var i := FindIndex(store, id).value;
      r == Err(Forward(SchemaInvalid(SchemaErrors(store[i].(views := store[i].views + 1)))))
    ensures r.Ok? ==> var i := FindIndex(store, id).value;
      && r.value.post == store[i].(views := store[i].views + 1)
      && r.value.store == store[i := r.value.post]
  {
    match FindIndex(store, id)
    case None => Err(Respond(404, PostNotFound))
    case Some(i) =>
      var viewed := store[i].(views := store[i].views + 1);
      var errs := SchemaErrors(viewed);
      if errs != [] then Err(Forward(SchemaInvalid(errs)))
      else
        var saved := PreSave(viewed, false, false);
        UnmodifiedSaveKeepsPost(store[i], viewed);
        Ok(Stored(store[i := saved], saved))
  }

  /** Counting a view does not change what the schema says about a post, and the hook,
      with no path modified, leaves a post with an excerpt as it is. */
  lemma UnmodifiedSaveKeepsPost(p: Post, viewed: Post)
    requires viewed == p.(views := viewed.views)
    ensures SchemaValid(viewed) <==> SchemaValid(p)
    ensures SchemaValid(viewed) ==> PreSave(viewed, false, false) == viewed
  {
  }

  /** The store after n consecutive reads of one post. */
  function ViewTimes(store: seq<Post>, id: String, n: nat): seq<Post>
    decreases n
  {
    if n == 0 then store
    else match GetPost(store, id)
      case Err(_) => store
      case Ok(s) => ViewTimes(s.store, id, n - 1)
  }

  /** n reads of a post the schema accepts raise its view counter by exactly n and change
      nothing else in the store. */
  lemma {:induction false} RepeatedViews(store: seq<Post>, id: String, n: nat, i: nat)
    requires FindIndex(store, id) == Some(i) && SchemaValid(store[i])
    ensures |ViewTimes(store, id, n)| == |store|
    ensures ViewTimes(store, id, n) == store[i := store[i].(views := store[i].views + n)]
    decreases n
  {
    if n > 0 {
      var bumped := store[i].(views := store[i].views + 1);
      var next := store[i := bumped];
      var m: nat := n - 1;
      ViewStep(store, id, n, m, i, bumped);
      FindIndexAfterUpdate(store, id, i, bumped);
      RepeatedViews(next, id, m, i);
      var last := store[i].(views := store[i].views + n);
      assert next[i].(views := next[i].views + m) == last;
      UpdateTwice(store, i, bumped, last);
    } else {
      assert store[i].(views := store[i].views + n) == store[i];
    }
  }

  /** The first of n reads of a valid post stores it with one more view; the rest read on. */
  lemma ViewStep(store: seq<Post>, id: String, n: nat, m: nat, i: nat, bumped: Post)
    requires n == m + 1 && FindIndex(store, id) == Some(i) && SchemaValid(store[i])
    requires bumped == store[i].(views := store[i].views + 1)
    ensures SchemaValid(bumped)
    ensures ViewTimes(store, id, n) == ViewTimes(store[i := bumped], id, m)
  {
    ViewOnce(store, id, i);
  }

  lemma UpdateTwice<T>(s: seq<T>, i: nat, a: T, b: T)
    requires i < |s|
    ensures s[i := a][i := b] == s[i := b]
  {
  }

  /** One read of a valid post stores it with one more view. */
  lemma ViewOnce(store: seq<Post>, id: String, i: nat)
    requires FindIndex(store, id) == Some(i) && SchemaValid(store[i])
    ensures var bumped := store[i].(views := store[i].views + 1);
      SchemaValid(bumped) && GetPost(store, id) == Ok(Stored(store[i := bumped], bumped))
  {
  }

  /** Reading a post the schema rejects fails and leaves its view counter where it was. */
  lemma InvalidPostIsNotViewed(store: seq<Post>, id: String, n: nat, i: nat)
    requires FindIndex(store, id) == Some(i) && !SchemaValid(store[i])
    ensures GetPost(store, id).Err? && GetPost(store, id).error.Forward?
    ensures ViewTimes(store, id, n) == store
  {
  }

  lemma FindIndexAfterUpdate(store: seq<Post>, id: String, i: nat, p: Post)
    requires FindIndex(store, id) == Some(i) && p.id == id
    ensures FindIndex(store[i := p], id) == Some(i)
  {
    var s := store[i := p];
    assert s[i].id == id;
  }

  /** `createPost`: the author is always the authenticated user, whatever the body says;
      a valid post is added to the store and returned. */
  function CreatePost(store: seq<Post>, actor: Actor, body: PostInput, id: String, now: int)
    : (r: Result<Stored, Failure>)
    ensures r.Ok? <==> SchemaValid(NewPost(body.(author := Some(actor.id)), id, now))
    ensures r.Ok? ==> r.value.post.author == actor.id
    ensures r.Ok? ==> r.value.store == store + [r.value.post]
    ensures r.Ok? ==> r.value.post.id == id && SchemaValid(r.value.post)
    ensures r.Ok? ==> CreateDocument(body.(author := Some(actor.id)), id, now) == Ok(r.value.post)
    ensures r.Err? ==> r.error.Forward? && r.error.cause.SchemaInvalid?
    ensures r.Err? ==> CreateDocument(body.(author := Some(actor.id)), id, now) == Err(r.error.cause.errors)
  {
    match CreateDocument(body.(author := Some(actor.id)), id, now)
    case Err(errs) => Err(Forward(SchemaInvalid(errs)))
    case Ok(p) => Ok(Stored(store + [p], p))
  }

  /** Whatever author the body names, the created post is the same. */
  lemma CreateIgnoresBodyAuthor(store: seq<Post>, actor: Actor, body: PostInput, other: Option<String>,
                                id: String, now: int)
    ensures CreatePost(store, actor, body, id, now) == CreatePost(store, actor, body.(author := other), id, now)
  {
    assert body.(author := Some(actor.id)) == body.(author := other).(author := Some(actor.id));
  }

  /** The fields an update request may carry; None leaves the field as it is. */
  datatype PostPatch = PostPatch(
    title: Option<String>,
    content: Option<String>,
    excerpt: Option<String>,
    author: Option<String>,
    category: Option<String>,
    tags: Option<seq<String>>,
    published: Option<bool>,
    slug: Option<String>,
    readTime: Option<nat>,
    views: Option<nat>)

  /** The body's value for a field when it carries one, otherwise the stored value. */
  function Patched<T>(o: Option<T>, current: T): (v: T)
    ensures o.Some? ==> v == o.value
    ensures o.None? ==> v == current
  {
    match o case Some(v) => v case None => current
  }

  /** `findByIdAndUpdate(id, body)`: every field the body carries replaces the stored one
      (a title through the `trim` setter); the pre-save hook does not run, so slug,
      read time and excerpt are not derived again. */
  function ApplyPatch(p: Post, patch: PostPatch): (q: Post)
    ensures q.id == p.id && q.createdAt == p.createdAt
    ensures q.title == if patch.title.Some? then Trim(patch.title.value) else p.title
    ensures q.content == Patched(patch.content, p.content)
    ensures q.excerpt == Patched(patch.excerpt, p.excerpt)
    ensures q.author == Patched(patch.author, p.author)
    ensures q.category == Patched(patch.category, p.category)
    ensures q.tags == Patched(patch.tags, p.tags)
    ensures q.published == Patched(patch.published, p.published)
    ensures q.slug == if patch.slug.Some? then patch.slug else p.slug
    ensures q.readTime == Patched(patch.readTime, p.readTime)
    ensures q.views == Patched(patch.views, p.views)
    ensures patch == PostPatch(None, None, None, None, None, None, None, None, None, None) ==> q == p
  {
    p.(title := match patch.title case Some(t) => Trim(t) case None => p.title,
       content := Patched(patch.content, p.content),
       excerpt := Patched(patch.excerpt, p.excerpt),
       author := Patched(patch.author, p.author),
       category := Patched(patch.category, p.category),
       tags := Patched(patch.tags, p.tags),
       published := Patched(patch.published, p.published),
       slug := match patch.slug case Some(s) => Some(s) case None => p.slug,
       readTime := Patched(patch.readTime, p.readTime),
       views := Patched(patch.views, p.views))
  }

  /** What the update validators demand: the schema's checks, on the fields the patch sets. */
  predicate PatchValid(patch: PostPatch) {
    && (patch.title.Some? ==> Trim(patch.title.value) != [] && |Trim(patch.title.value)| <= TitleMax)
    && (patch.content.Some? ==> patch.content.value != [])
    && (patch.excerpt.Some? ==> patch.excerpt.value != [] && |patch.excerpt.value| <= ExcerptMax)
    && (patch.author.Some? ==> patch.author.value != [])
    && (patch.category.Some? ==> patch.category.value != [])
  }

  /** The update validators' errors: none exactly when the patch is valid, and none for a
      patch that sets no checked field. */
  function PatchErrors(patch: PostPatch): (errs: seq<FieldError>)
    ensures errs == [] <==> PatchValid(patch)
    ensures (patch.title.None? && patch.content.None? && patch.excerpt.None?
             && patch.author.None? && patch.category.None?) ==> errs == []
  {
    var title := match patch.title case Some(t) => Some(Trim(t)) case None => None;
    (if title.Some? then Check("title", title.value != [], "Title is required")
       + Check("title", |title.value| <= TitleMax, "Title cannot be more than 200 characters") else [])
    + (if patch.content.Some? then Check("content", patch.content.value != [], "Content is required") else [])
    + (if patch.excerpt.Some? then Check("excerpt", patch.excerpt.value != [], "Path `excerpt` is required.")
       + Check("excerpt", |patch.excerpt.value| <= ExcerptMax, "Excerpt cannot be more than 500 characters") else [])
    + (if patch.author.Some? then Check("author", patch.author.value != [], "Author is required") else [])
    + (if patch.category.Some? then Check("category", patch.category.value != [], "Category is required") else [])
  }

  /** A valid patch applied to a post the schema accepts gives a post it accepts. */
  lemma PatchKeepsSchemaValid(p: Post, patch: PostPatch)
    requires SchemaValid(p) && PatchValid(patch)
    ensures SchemaValid(ApplyPatch(p, patch))
  {
  }

  /** Sending the same update twice stores what sending it once stores. */
  lemma PatchIdempotent(p: Post, patch: PostPatch)
    ensures ApplyPatch(ApplyPatch(p, patch), patch) == ApplyPatch(p, patch)
  {
    var q := ApplyPatch(p, patch);
    if patch.title.Some? {
      TrimProps(patch.title.value);
    }
    assert ApplyPatch(q, patch).title == q.title;
    assert ApplyPatch(q, patch).slug == q.slug;
  }

  /** `updatePost`: existence is checked before ownership, a non-author non-admin gets a 401
      and nothing is written, an invalid patch is refused with its validation errors, and a
      permitted update changes only the one post. */
  function UpdatePost(store: seq<Post>, actor: Actor, id: String, patch: PostPatch): (r: Result<Stored, Failure>)
    ensures FindIndex(store, id).None? ==> r == Err(Respond(404, PostNotFound))
    ensures FindIndex(store, id).Some? && !MayModify(store[FindIndex(store, id).value], actor)
      ==> r == Err(Respond(401, CannotUpdate))
    ensures (FindIndex(store, id).Some? && MayModify(store[FindIndex(store, id).value], actor)
             && !PatchValid(patch)) ==> r == Err(Forward(SchemaInvalid(PatchErrors(patch))))
    ensures r.Ok? <==> (FindIndex(store, id).Some? && MayModify(store[FindIndex(store, id).value], actor)
                        && PatchValid(patch))
    ensures r.Ok? ==> var i := FindIndex(store, id).value;
      && MayModify(store[i], actor)
      && r.value.store == store[i := r.value.post]
      && r.value.post == ApplyPatch(store[i], patch)
      && r.value.post.id == id
  {
    match FindIndex(store, id)
    case None => Err(Respond(404, PostNotFound))
    case Some(i) =>
      if !MayModify(store[i], actor) then Err(Respond(401, CannotUpdate))
      else
        var errs := PatchErrors(patch);
        if errs != [] then Err(Forward(SchemaInvalid(errs)))
        else
          var updated := ApplyPatch(store[i], patch);
          Ok(Stored(store[i := updated], updated))
  }

  /** `deletePost`: the same checks in the same order; a permitted delete removes exactly
      the one post and keeps the others in order. */
  function DeletePost(store: seq<Post>, actor: Actor, id: String): (r: Result<seq<Post>, Failure>)
    ensures FindIndex(store, id).None? ==> r == Err(Respond(404, PostNotFound))
    ensures FindIndex(store, id).Some? && !MayModify(store[FindIndex(store, id).value], actor)
      ==> r == Err(Respond(401, CannotDelete))
    ensures FindIndex(store, id).Some? && MayModify(store[FindIndex(store, id).value], actor) ==> r.Ok?
    ensures r.Ok? ==> var i := FindIndex(store, id).value;
      r.value == store[..i] + store[i + 1..] && |r.value| == |store| - 1
  {
    match FindIndex(store, id)
    case None => Err(Respond(404, PostNotFound))
    case Some(i) =>
      if !MayModify(store[i], actor) then Err(Respond(401, CannotDelete))
      else Ok(store[..i] + store[i + 1..])
  }

  /** Ids are unique in the store (MongoDB's `_id`). */
  predicate UniqueIds(store: seq<Post>) {
    forall i, j :: 0 <= i < j < |store| ==> store[i].id != store[j].id
  }

  /** With unique ids, a deleted post is gone and every other post remains. */
  lemma DeleteRemovesExactlyThePost(store: seq<Post>, actor: Actor, id: String)
    requires UniqueIds(store)
    requires DeletePost(store, actor, id).Ok?
    ensures forall x :: x in DeletePost(store, actor, id).value ==> x.id != id
    ensures forall x :: x in store && x.id != id ==> x in DeletePost(store, actor, id).value
  {
    var i := FindIndex(store, id).value;
    var r := DeletePost(store, actor, id).value;
    forall x | x in r
      ensures x.id != id
    {
      var k :| 0 <= k < |r| && r[k] == x;
      if k < i {
        assert r[k] == store[k];
      } else {
        assert r[k] == store[k + 1];
      }
    }
    forall x | x in store && x.id != id
      ensures x in r
    {
      var k :| 0 <= k < |store| && store[k] == x;
      if k < i {
        assert r[k] == x;
      } else {
        assert k != i;
        assert r[k - 1] == x;
      }
    }
  }

  /** `getPostsByCategory`: exactly the published posts of the category, newest first. */
  function GetPostsByCategory(store: seq<Post>, categoryId: String): (r: seq<Post>)
    ensures NewestFirst(r)
    ensures multiset(r) == multiset(PublishedIn(store, categoryId))
    ensures forall x :: x in r <==> x in store && x.published && x.category == categoryId
  {
    SortedMembers(PublishedIn(store, categoryId));
    SortNewestFirst(PublishedIn(store, categoryId))
  }
}
