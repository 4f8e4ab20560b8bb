/**
 * The request-body rule sets and the all-or-nothing gate that runs after them
 * (backend/middleware/validation.js). A field the body leaves out is checked as
 * the empty string, as the validator library does. Each rule's custom message
 * belongs to the check right before it, so a length check without one reports
 * the library's default message.
 */
module Validation {
  import opened Results
  import opened Text
  import PostModel

  /** The outcome of the gate: a 400 response carrying every error, or on to the handler. */
  datatype Gate = Reject(status: nat, errors: seq<FieldError>) | Next

  const DefaultMessage: String := "Invalid value"
  const NameRequired: String := "Category name is required"

  /** `validate`: any failed rule stops the request with a 400 and the whole error list. */
  function Validate(errors: seq<FieldError>): (g: Gate)
    ensures g.Next? <==> errors == []
    ensures g.Reject? ==> g.status == 400 && g.errors == errors
  {
    if errors == [] then Next else Reject(400, errors)
  }

  /** The value a rule sees for a field. */
  function Value(field: Option<String>): String {
    match field case Some(s) => s case None => []
  }

  // ---------------------------------------------------------------------------
  // Post rules
  // ---------------------------------------------------------------------------

  datatype PostBody = PostBody(title: Option<String>, content: Option<String>,
                               excerpt: Option<String>, category: Option<String>)

  /** What the post rules accept. `isMongoId` stands for the library's object-id check. */
  predicate PostBodyValid(b: PostBody, isMongoId: String -> bool) {
    && Value(b.title) != [] && |Value(b.title)| <= 200
    && Value(b.content) != []
    && Value(b.excerpt) != [] && |Value(b.excerpt)| <= 500
    && isMongoId(Value(b.category))
  }

  /** One field's `notEmpty().withMessage(required).isLength({ max })` chain: the custom
      message belongs to the emptiness check, so the length check reports the default. */
  function NonEmptyUpTo(path: String, value: String, required: String, max: nat): (errs: seq<FieldError>)
    requires required != DefaultMessage
    ensures |errs| <= 2
    ensures errs == [] <==> value != [] && |value| <= max
    ensures forall e :: e in errs ==> e.path == path
    ensures (FieldError(path, required) in errs) <==> value == []
    ensures (FieldError(path, DefaultMessage) in errs) <==> |value| > max
  {
    Check(path, value != [], required) + Check(path, |value| <= max, DefaultMessage)
  }

  /** The post rules, field by field in the order they are declared. */
  function PostRules(b: PostBody, isMongoId: String -> bool): (errs: seq<FieldError>)
    ensures errs == [] <==> PostBodyValid(b, isMongoId)
    ensures |errs| <= 6
    ensures (FieldError("title", "Title is required") in errs) <==> Value(b.title) == []
    ensures (FieldError("title", DefaultMessage) in errs) <==> |Value(b.title)| > 200
    ensures (FieldError("content", "Content is required") in errs) <==> Value(b.content) == []
    ensures (FieldError("excerpt", "Excerpt is required") in errs) <==> Value(b.excerpt) == []
    ensures (FieldError("excerpt", DefaultMessage) in errs) <==> |Value(b.excerpt)| > 500
    ensures (FieldError("category", "Valid category ID is required") in errs) <==> !isMongoId(Value(b.category))
    ensures !isMongoId(Value(b.category)) ==> errs[|errs| - 1] == FieldError("category", "Valid category ID is required")
    ensures forall e :: e in errs ==> e.path in {"title", "content", "excerpt", "category"}
  {
    var title := NonEmptyUpTo("title", Value(b.title), "Title is required", 200);
    var content := Check("content", Value(b.content) != [], "Content is required");
    var excerpt := NonEmptyUpTo("excerpt", Value(b.excerpt), "Excerpt is required", 500);
    var category := Check("category", isMongoId(Value(b.category)), "Valid category ID is required");
    PostRuleParts(b, isMongoId, title, content, excerpt, category);
    TitleMessages(b, isMongoId, title, content, excerpt, category);
    ContentMessage(b, isMongoId, title, content, excerpt, category);
    ExcerptMessages(b, isMongoId, title, content, excerpt, category);
    CategoryMessage(b, isMongoId, title, content, excerpt, category);
    title + content + excerpt + category
  }

  lemma PostRuleParts(b: PostBody, isMongoId: String -> bool, title: seq<FieldError>, content: seq<FieldError>,
                      excerpt: seq<FieldError>, category: seq<FieldError>)
    requires title == NonEmptyUpTo("title", Value(b.title), "Title is required", 200)
    requires content == Check("content", Value(b.content) != [], "Content is required")
    requires excerpt == NonEmptyUpTo("excerpt", Value(b.excerpt), "Excerpt is required", 500)
    requires category == Check("category", isMongoId(Value(b.category)), "Valid category ID is required")
    ensures var errs := title + content + excerpt + category;
      && (errs == [] <==> PostBodyValid(b, isMongoId))
      && |errs| <= 6
      && (!isMongoId(Value(b.category)) ==> errs[|errs| - 1] == FieldError("category", "Valid category ID is required"))
      && (forall e :: e in errs ==> e.path in {"title", "content", "excerpt", "category"})
  {
  }

  lemma TitleMessages(b: PostBody, isMongoId: String -> bool, title: seq<FieldError>, content: seq<FieldError>,
      excerpt: seq<FieldError>, category: seq<FieldError>)
    requires title == NonEmptyUpTo("title", Value(b.title), "Title is required", 200)
    requires content == Check("content", Value(b.content) != [], "Content is required")
    requires excerpt == NonEmptyUpTo("excerpt", Value(b.excerpt), "Excerpt is required", 500)
    requires category == Check("category", isMongoId(Value(b.category)), "Valid category ID is required")
    ensures var errs := title + content + excerpt + category;
      && ((FieldError("title", "Title is required") in errs) <==> Value(b.title) == [])
      && ((FieldError("title", DefaultMessage) in errs) <==> |Value(b.title)| > 200)
  {
    assert forall e :: e in content + excerpt + category ==> e.path != "title";
  }

  lemma ContentMessage(b: PostBody, isMongoId: String -> bool, title: seq<FieldError>, content: seq<FieldError>,
      excerpt: seq<FieldError>, category: seq<FieldError>)
    requires title == NonEmptyUpTo("title", Value(b.title), "Title is required", 200)
    requires content == Check("content", Value(b.content) != [], "Content is required")
    requires excerpt == NonEmptyUpTo("excerpt", Value(b.excerpt), "Excerpt is required", 500)
    requires category == Check("category", isMongoId(Value(b.category)), "Valid category ID is required")
    ensures var errs := title + content + excerpt + category;
      (FieldError("content", "Content is required") in errs) <==> Value(b.content) == []
  {
    assert "content" != "excerpt" by {
      assert "content"[0] == 'c' && "excerpt"[0] == 'e';
    }
    assert forall e :: e in title + excerpt + category ==> e.path != "content";
  }

  lemma ExcerptMessages(b: PostBody, isMongoId: String -> bool, title: seq<FieldError>, content: seq<FieldError>,
      excerpt: seq<FieldError>, category: seq<FieldError>)
    requires title == NonEmptyUpTo("title", Value(b.title), "Title is required", 200)
    requires content == Check("content", Value(b.content) != [], "Content is required")
    requires excerpt == NonEmptyUpTo("excerpt", Value(b.excerpt), "Excerpt is required", 500)
    requires category == Check("category", isMongoId(Value(b.category)), "Valid category ID is required")
    ensures var errs := title + content + excerpt + category;
      && ((FieldError("excerpt", "Excerpt is required") in errs) <==> Value(b.excerpt) == [])
      && ((FieldError("excerpt", DefaultMessage) in errs) <==> |Value(b.excerpt)| > 500)
  {
    assert "content" != "excerpt" by {
      assert "content"[0] == 'c' && "excerpt"[0] == 'e';
    }
    assert forall e :: e in title + content + category ==> e.path != "excerpt";
  }

  lemma CategoryMessage(b: PostBody, isMongoId: String -> bool, title: seq<FieldError>, content: seq<FieldError>,
      excerpt: seq<FieldError>, category: seq<FieldError>)
    requires title == NonEmptyUpTo("title", Value(b.title), "Title is required", 200)
    requires content == Check("content", Value(b.content) != [], "Content is required")
    requires excerpt == NonEmptyUpTo("excerpt", Value(b.excerpt), "Excerpt is required", 500)
    requires category == Check("category", isMongoId(Value(b.category)), "Valid category ID is required")
    ensures var errs := title + content + excerpt + category;
      (FieldError("category", "Valid category ID is required") in errs) <==> !isMongoId(Value(b.category))
  {
    assert forall e :: e in title + content + excerpt ==> e.path != "category";
  }

  /** The post gate lets a body through exactly when every post rule holds. */
  lemma PostGate(b: PostBody, isMongoId: String -> bool)
    ensures Validate(PostRules(b, isMongoId)).Next? <==> PostBodyValid(b, isMongoId)
    ensures !PostBodyValid(b, isMongoId) ==> Validate(PostRules(b, isMongoId)).status == 400
  {
  }

  /** A body that passes the post gate meets the Post schema's content and excerpt checks
      and its title length bound once the `trim` setter has run. The schema's required
      title is not implied: the gate checks the title before trimming. */
  lemma PostGateImpliesSchemaBounds(b: PostBody, isMongoId: String -> bool)
    requires Validate(PostRules(b, isMongoId)).Next?
    ensures |Trim(Value(b.title))| <= PostModel.TitleMax
    ensures Value(b.content) != []
    ensures Value(b.excerpt) != [] && |Value(b.excerpt)| <= PostModel.ExcerptMax
  {
    PostGate(b, isMongoId);
  }

  /** A blank but non-empty title passes the post gate, and the document built from the
      same body is still refused, because the trimmed title is empty. */
  lemma BlankTitlePassesGate(b: PostBody, isMongoId: String -> bool, input: PostModel.PostInput,
                             id: String, now: int)
    requires PostBodyValid(b, isMongoId) && Blank(Value(b.title))
    requires input.title == b.title
    ensures Validate(PostRules(b, isMongoId)).Next?
    ensures PostModel.CreateDocument(input, id, now).Err?
  {
    TrimProps(Value(b.title));
    assert PostModel.NewPost(input, id, now).title == [];
  }

  /** Such a body exists: a single space as the title meets every post rule. */
  lemma BlankTitleExample(b: PostBody, isMongoId: String -> bool)
    requires b == PostBody(Some(" "), Some("c"), Some("e"), Some("c1"))
    requires isMongoId("c1")
    ensures PostBodyValid(b, isMongoId) && Blank(Value(b.title))
  {
    assert IsWs(' ');
  }

  // ---------------------------------------------------------------------------
  // Category rules
  // ---------------------------------------------------------------------------

  function CategoryRules(name: Option<String>): (errs: seq<FieldError>)
    ensures errs == [] <==> 0 < |Value(name)| <= 50
    ensures Value(name) == [] <==> errs == [FieldError("name", NameRequired)]
    ensures |Value(name)| > 50 <==> errs == [FieldError("name", DefaultMessage)]
  {
    var errs := Check("name", Value(name) != [], NameRequired) + Check("name", |Value(name)| <= 50, DefaultMessage);
    assert |Value(name)| > 50 ==> errs == [FieldError("name", DefaultMessage)];
    assert NameRequired != DefaultMessage by {
      assert NameRequired[0] == 'C' && DefaultMessage[0] == 'I';
    }
    errs
  }

  // ---------------------------------------------------------------------------
  // User rules
  // ---------------------------------------------------------------------------

  datatype UserBody = UserBody(username: Option<String>, email: Option<String>, password: Option<String>)

  predicate UserBodyValid(b: UserBody, isEmail: String -> bool) {
    && 3 <= |Value(b.username)| <= 30
    && isEmail(Value(b.email))
    && |Value(b.password)| >= 6
  }

  /** The user rules: one error per failing field, in field order. `isEmail` stands for the
      library's address check. */
  function UserRules(b: UserBody, isEmail: String -> bool): (errs: seq<FieldError>)
    ensures errs == [] <==> UserBodyValid(b, isEmail)
    ensures |errs| <= 3
    ensures (FieldError("username", "Username must be between 3-30 characters") in errs)
      <==> !(3 <= |Value(b.username)| <= 30)
    ensures (FieldError("email", "Please enter a valid email") in errs) <==> !isEmail(Value(b.email))
    ensures (FieldError("password", "Password must be at least 6 characters") in errs)
      <==> |Value(b.password)| < 6
  {
    Check("username", 3 <= |Value(b.username)| <= 30, "Username must be between 3-30 characters")
    + Check("email", isEmail(Value(b.email)), "Please enter a valid email")
    + Check("password", |Value(b.password)| >= 6, "Password must be at least 6 characters")
  }

  /** The user gate lets a body through exactly when all three user rules hold. */
  lemma UserGate(b: UserBody, isEmail: String -> bool)
    ensures Validate(UserRules(b, isEmail)).Next? <==> UserBodyValid(b, isEmail)
  {
  }
}
