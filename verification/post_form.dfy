/**
 * The post editor (frontend/src/components/Posts/PostForm.jsx): its fields, the
 * required-field check run before submitting, the per-field edit handler, the
 * comma-separated tag box, and what a submit sends.
 */
module PostForm {
  import opened Results
  import opened Text
  import PostModel
  import BlogStore
  import Lists

  /** The editor's state. `tags` is the raw comma-separated text box. */
  datatype Form = Form(
    title: String,
    content: String,
    excerpt: String,
    category: String,
    tags: String,
    published: bool)

  /** An empty editor; a new post starts out published. */
  const EmptyForm: Form := Form([], [], [], [], [], true)

  /** The text inputs of the editor. */
  datatype TextField = Title | Content | Excerpt | Category | Tags

  /** The error shown under each field, keyed by field. */
  type Errors = map<TextField, String>

  const TitleRequired: String := "Title is required"
  const ContentRequired: String := "Content is required"
  const ExcerptRequired: String := "Excerpt is required"
  const CategoryRequired: String := "Category is required"

  function TextOf(f: Form, field: TextField): String {
    match field
    case Title => f.title
    case Content => f.content
    case Excerpt => f.excerpt
    case Category => f.category
    case Tags => f.tags
  }

  /** What the editor accepts: non-blank title, content and excerpt, and a chosen category. */
  predicate FormValid(f: Form) {
    !Blank(f.title) && !Blank(f.content) && !Blank(f.excerpt) && f.category != []
  }

  /** `validateForm`: one fixed message for each failing field and no entry for the others. */
  function ValidateForm(f: Form): (errors: Errors)
    ensures errors == map[] <==> FormValid(f)
    ensures Title in errors <==> Blank(f.title)
    ensures Content in errors <==> Blank(f.content)
    ensures Excerpt in errors <==> Blank(f.excerpt)
    ensures Category in errors <==> f.category == []
    ensures Tags !in errors
    ensures Title in errors ==> errors[Title] == TitleRequired
    ensures Content in errors ==> errors[Content] == ContentRequired
    ensures Excerpt in errors ==> errors[Excerpt] == ExcerptRequired
    ensures Category in errors ==> errors[Category] == CategoryRequired
  {
    var e0: Errors := map[];
    var e1 := if Blank(f.title) then e0[Title := TitleRequired] else e0;
    var e2 := if Blank(f.content) then e1[Content := ContentRequired] else e1;
    var e3 := if Blank(f.excerpt) then e2[Excerpt := ExcerptRequired] else e2;
    var e4 := if f.category == [] then e3[Category := CategoryRequired] else e3;
    assert Title in e4 ==> e4 != map[];
    assert Content in e4 ==> e4 != map[];
    assert Excerpt in e4 ==> e4 != map[];
    assert Category in e4 ==> e4 != map[];
    e4
  }

  /** An input event: a text input or select typed into, or the `published` checkbox ticked. */
  datatype Change = Typed(name: TextField, value: String) | Ticked(checked: bool)

  datatype Editor = Editor(form: Form, errors: Errors)

  /** `handleChange`: the named field takes the new value, and that field's error, if it
      shows one, is blanked; every other field and error stays. */
  function HandleChange(ed: Editor, change: Change): (r: Editor)
    ensures change.Typed? ==> TextOf(r.form, change.name) == change.value
    ensures change.Typed? ==> forall g :: g != change.name ==> TextOf(r.form, g) == TextOf(ed.form, g)
    ensures change.Typed? ==> r.form.published == ed.form.published
    ensures change.Ticked? ==> r.form == ed.form.(published := change.checked) && r.errors == ed.errors
    ensures r.errors.Keys == ed.errors.Keys
    ensures forall g :: g in ed.errors && !(change.Typed? && g == change.name) ==> r.errors[g] == ed.errors[g]
    ensures change.Typed? && change.name in ed.errors ==> r.errors[change.name] == []
  {
    match change
    case Ticked(b) => Editor(ed.form.(published := b), ed.errors)
    case Typed(name, v) =>
      var form := match name
        case Title => ed.form.(title := v)
        case Content => ed.form.(content := v)
        case Excerpt => ed.form.(excerpt := v)
        case Category => ed.form.(category := v)
        case Tags => ed.form.(tags := v);
      var errors := if name in ed.errors && ed.errors[name] != [] then ed.errors[name := []] else ed.errors;
      Editor(form, errors)
  }

  // ---------------------------------------------------------------------------
  // Tags
  // ---------------------------------------------------------------------------

  /** Each piece trimmed, in order. */
  function TrimAll(pieces: seq<String>): (r: seq<String>)
    ensures |r| == |pieces|
    ensures forall i :: 0 <= i < |r| ==> r[i] == Trim(pieces[i])
  {
    seq(|pieces|, i requires 0 <= i < |pieces| => Trim(pieces[i]))
  }

  predicate NonEmpty(t: String) { t != [] }

  /** A tag as the box yields it, and a name it can carry through a round trip. */
  predicate PlainTag(t: String) {
    t != [] && Trimmed(t) && ',' !in t
  }

  /** `tags.split(',').map(tag => tag.trim()).filter(tag => tag)`. */
  function ParseTags(s: String): (tags: seq<String>)
    ensures forall i :: 0 <= i < |tags| ==> PlainTag(tags[i])
    ensures |tags| <= Count(',', s) + 1
  {
    ParseTagsFacts(s, SplitOn(s, ','), TrimAll(SplitOn(s, ',')));
    Lists.Filter(TrimAll(SplitOn(s, ',')), NonEmpty)
  }

  lemma ParseTagsFacts(s: String, pieces: seq<String>, trimmed: seq<String>)
    requires pieces == SplitOn(s, ',') && trimmed == TrimAll(pieces)
    ensures forall i :: 0 <= i < |Lists.Filter(trimmed, NonEmpty)| ==> PlainTag(Lists.Filter(trimmed, NonEmpty)[i])
    ensures |Lists.Filter(trimmed, NonEmpty)| <= Count(',', s) + 1
  {
    SplitOnShape(s, ',');
    var tags := Lists.Filter(trimmed, NonEmpty);
    forall i | 0 <= i < |tags|
      ensures PlainTag(tags[i])
    {
      assert tags[i] in trimmed;
      var j :| 0 <= j < |trimmed| && trimmed[j] == tags[i];
      TrimProps(pieces[j]);
      assert ',' !in pieces[j];
    }
  }

  lemma TrimAllConcat(a: seq<String>, b: seq<String>)
    ensures TrimAll(a + b) == TrimAll(a) + TrimAll(b)
  {
  }

  /** Parsing distributes over a comma, so tags come out in the order they were typed. */
  lemma ParseTagsAroundComma(a: String, b: String)
    ensures ParseTags(a + [','] + b) == ParseTags(a) + ParseTags(b)
  {
    SplitOnAround(a, b, ',');
    TrimAllConcat(SplitOn(a, ','), SplitOn(b, ','));
    Lists.FilterConcat(TrimAll(SplitOn(a, ',')), TrimAll(SplitOn(b, ',')), NonEmpty);
  }

  /** A single plain name parses to itself. */
  lemma ParseOneTag(t: String)
    requires PlainTag(t)
    ensures ParseTags(t) == [t]
  {
    CountAbsent(',', t);
    SplitOnShape(t, ',');
    var pieces := SplitOn(t, ',');
    assert |pieces| == 1;
    assert Join(pieces, [',']) == pieces[0];
    assert TrimAll(pieces) == [t];
    assert Lists.Filter([t], NonEmpty) == [t] by {
      assert [t][1..] == [];
    }
  }

  /** Whitespace in front of the box's text does not change what it parses to. */
  lemma ParseTagsLeadingSpace(x: String)
    ensures ParseTags([' '] + x) == ParseTags(x)
  {
    var p := SplitOn(x, ',');
    SplitOnOther(' ', x, ',');
    TrimAllLeadingWs(' ', p);
  }

  /** A character other than the delimiter joins the first piece. */
  lemma SplitOnOther(c: char, x: String, d: char)
    requires c != d
    ensures SplitOn([c] + x, d) == [[c] + SplitOn(x, d)[0]] + SplitOn(x, d)[1..]
  {
    assert ([c] + x)[0] == c && ([c] + x)[1..] == x;
  }

  /** Whitespace in front of the first piece is trimmed away. */
  lemma TrimAllLeadingWs(c: char, p: seq<String>)
    requires IsWs(c) && |p| >= 1
    ensures TrimAll([[c] + p[0]] + p[1..]) == TrimAll(p)
  {
    TrimAllCons([c] + p[0], p[1..]);
    TrimAllCons(p[0], p[1..]);
    TrimLeadingWs(c, p[0]);
    HeadTail(p);
  }

  lemma TrimAllCons(x: String, rest: seq<String>)
    ensures TrimAll([x] + rest) == [Trim(x)] + TrimAll(rest)
  {
    assert ([x] + rest)[1..] == rest;
  }

  /** An empty box yields no tags. */
  lemma EmptyBoxHasNoTags()
    ensures ParseTags([]) == []
  {
    assert SplitOn([], ',') == [[]];
    assert TrimAll([[]]) == [[]];
    assert Lists.Filter([[]], NonEmpty) == [];
  }

  lemma JoinCommaSpace(names: seq<String>)
    requires |names| >= 2
    ensures Join(names, ", ") == names[0] + [','] + ([' '] + Join(names[1..], ", "))
  {
    var rest := Join(names[1..], ", ");
    assert Join(names, ", ") == names[0] + ", " + rest;
    CommaSpace(names[0], rest, ", ");
  }

  lemma CommaSpace(x: String, y: String, sep: String)
    requires sep == ", "
    ensures x + sep + y == x + [','] + ([' '] + y)
  {
    assert sep == [','] + [' '];
    assert x + ([','] + [' ']) + y == x + [','] + ([' '] + y);
  }

  /** Round trip of the editor's tag box: the `', '`-joined names it is filled with when
      a post is loaded parse back to the same names, in the same order. */
  lemma {:induction false} TagsRoundTrip(names: seq<String>)
    requires forall i :: 0 <= i < |names| ==> PlainTag(names[i])
    ensures ParseTags(Join(names, ", ")) == names
  {
    if |names| == 0 {
      EmptyBoxHasNoTags();
    } else if |names| == 1 {
      ParseOneTag(names[0]);
    } else {
      TagsRoundTrip(names[1..]);
      RoundTripStep(names);
    }
  }

  lemma NameThenRest(a: String, rest: String)
    requires PlainTag(a)
    ensures ParseTags(a + [','] + ([' '] + rest)) == [a] + ParseTags(rest)
  {
    ParseTagsAroundComma(a, [' '] + rest);
    ParseOneTag(a);
    ParseTagsLeadingSpace(rest);
  }

  lemma HeadTail(s: seq<String>)
    requires |s| >= 1
    ensures [s[0]] + s[1..] == s
  {
  }

  /** One more name in front of a box that already round-trips. */
  lemma RoundTripStep(names: seq<String>)
    requires |names| >= 2 && PlainTag(names[0])
    requires ParseTags(Join(names[1..], ", ")) == names[1..]
    ensures ParseTags(Join(names, ", ")) == names
  {
    JoinCommaSpace(names);
    NameThenRest(names[0], Join(names[1..], ", "));
    HeadTail(names);
  }

  // ---------------------------------------------------------------------------
  // Loading and submitting
  // ---------------------------------------------------------------------------

  /** A post as the editor receives it: `tags` is None when the reply carries no array,
      otherwise the tag names. */
  datatype Loaded = Loaded(title: String, content: String, excerpt: String, category: String,
                           tags: Option<seq<String>>, published: bool)

  /** `loadPostForEditing`: the tag names are joined into the text box with `', '`. */
  function LoadForEditing(p: Loaded): (f: Form)
    ensures f.title == p.title && f.content == p.content && f.excerpt == p.excerpt
    ensures f.category == p.category && f.published == p.published
    ensures p.tags.None? ==> f.tags == []
    ensures p.tags.Some? ==> f.tags == Join(p.tags.value, ", ")
  {
    Form(p.title, p.content, p.excerpt, p.category,
         match p.tags case Some(ts) => Join(ts, ", ") case None => [], p.published)
  }

  /** Loading a post whose tags are plain names and submitting it unchanged sends those
      same tags back. */
  lemma LoadedTagsRoundTrip(p: Loaded, id: String)
    requires p.tags.Some? && forall i :: 0 <= i < |p.tags.value| ==> PlainTag(p.tags.value[i])
    ensures ParseTags(LoadForEditing(p).tags) == p.tags.value
    ensures !Submit(LoadForEditing(p), id).Blocked? ==> Submit(LoadForEditing(p), id).data.tags == p.tags.value
  {
    TagsRoundTrip(p.tags.value);
  }

  /** The body a submit sends: the form's fields, with the tag box parsed. */
  datatype PostData = PostData(title: String, content: String, excerpt: String, category: String,
                               tags: seq<String>, published: bool)

  /** What pressing submit does: stop with errors, or call create or update. */
  datatype Submission = Blocked(errors: Errors) | CallCreate(data: PostData) | CallUpdate(id: String, data: PostData)

  /** `handleSubmit` up to the store call. `id` is the route parameter; an empty one
      means a new post. */
  function Submit(f: Form, id: String): (r: Submission)
    ensures r.Blocked? <==> !FormValid(f)
    ensures r.Blocked? ==> r.errors == ValidateForm(f) && r.errors != map[]
    ensures r.CallUpdate? <==> FormValid(f) && id != []
    ensures r.CallUpdate? ==> r.id == id
    ensures !r.Blocked? ==>
      && r.data.tags == ParseTags(f.tags)
      && r.data.title == f.title && r.data.content == f.content && r.data.excerpt == f.excerpt
      && r.data.category == f.category && r.data.published == f.published
  {
    var errors := ValidateForm(f);
    if errors != map[] then Blocked(errors)
    else
      var data := PostData(f.title, f.content, f.excerpt, f.category, ParseTags(f.tags), f.published);
      if id != [] then CallUpdate(id, data) else CallCreate(data)
  }

  /** What the editor does once the store call has answered. */
  datatype Screen = Navigate(path: String) | Alert(message: String)

  /** After a save: back to the list on success, otherwise an alert with the store's
      message or a fixed fallback. */
  function AfterSave(outcome: BlogStore.Outcome<PostModel.Post>): (r: Screen)
    ensures outcome.Succeeded? <==> r == Navigate("/posts")
    ensures outcome.Failed? && outcome.error != [] ==> r == Alert(outcome.error)
    ensures r.Alert? ==> r.message != []
  {
    match outcome
    case Succeeded(_) => Navigate("/posts")
    case Failed(e) => Alert(if e != [] then e else "Failed to save post")
    case Thrown => Alert("An error occurred while saving the post")
  }
}
