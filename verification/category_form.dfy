/**
 * The new-category form (frontend/src/components/Categories/CategoryList.jsx): its
 * fields, the edit handler, the blank-name guard, the slug it falls back on when
 * none was typed, and the reset after every submit.
 */
module CategoryForm {
  import opened Text

  datatype Form = Form(name: String, slug: String, description: String)

  const EmptyForm: Form := Form([], [], [])

  /** The form and whether it is shown. */
  datatype View = View(form: Form, shown: bool)

  datatype Field = Name | SlugField | Description

  const NameRequired: String := "Category name is required"

  /** `handleChange`: only the named field takes the new value. */
  function HandleChange(f: Form, field: Field, value: String): (r: Form)
    ensures field == Name ==> r.name == value && r.slug == f.slug && r.description == f.description
    ensures field == SlugField ==> r.slug == value && r.name == f.name && r.description == f.description
    ensures field == Description ==> r.description == value && r.name == f.name && r.slug == f.slug
  {
    match field
    case Name => f.(name := value)
    case SlugField => f.(slug := value)
    case Description => f.(description := value)
  }

  /** `name.toLowerCase().replace(/\s+/g, '-')`: the lower-cased name with every run of
      whitespace turned into one hyphen. Nothing else is removed, and the name is not
      trimmed first. */
  function FallbackSlug(name: String): (slug: String)
    ensures slug == Join(SplitWs(Lower(name)), "-")
    ensures NoWs(slug)
    ensures |slug| <= |name|
    ensures slug == [] <==> name == []
    ensures forall i :: 0 <= i < |slug| ==> slug[i] == '-' || (slug[i] in Lower(name) && !IsWs(slug[i]))
    ensures RemoveChar(slug, '-') == RemoveChar(RemoveWs(Lower(name)), '-')
    ensures Count('-', slug) == Count('-', Lower(name)) + Runs(Lower(name))
  {
    FallbackFacts(Lower(name));
    ReplaceRuns(Lower(name), '-')
  }

  lemma FallbackFacts(lowered: String)
    ensures var slug := ReplaceRuns(lowered, '-');
      && slug == Join(SplitWs(lowered), "-")
      && NoWs(slug)
      && |slug| <= |lowered|
      && (slug == [] <==> lowered == [])
      && (forall i :: 0 <= i < |slug| ==> slug[i] == '-' || (slug[i] in lowered && !IsWs(slug[i])))
      && RemoveChar(slug, '-') == RemoveChar(RemoveWs(lowered), '-')
      && Count('-', slug) == Count('-', lowered) + Runs(lowered)
  {
    ReplaceRunsNoWs(lowered, '-');
    ReplaceRunsChars(lowered, '-');
    ReplaceRunsKeepsText(lowered, '-');
    ReplaceRunsCount(lowered, '-');
    ReplaceRunsIsJoinOfPieces(lowered, '-');
    assert "-" == ['-'];
  }

  /** The slug sent: the typed one, verbatim, unless it is empty. */
  function SlugToSend(f: Form): (slug: String)
    ensures f.slug != [] ==> slug == f.slug
    ensures f.slug == [] ==> slug == FallbackSlug(f.name)
  {
    if f.slug != [] then f.slug else FallbackSlug(f.name)
  }

  /** What a submit does beyond the form: an alert, or a call to the store's `createCategory`. */
  datatype Effect = Alerted(message: String) | Sent(data: Form)

  /** `handleSubmit`: a blank name alerts and leaves the view alone; otherwise the form is
      sent with its slug filled in, and the form is then emptied and hidden. The store
      action reports failures itself and never throws, so the reset follows every call. */
  function Submit(v: View): (r: (View, Effect))
    ensures Blank(v.form.name) <==> r.1.Alerted?
    ensures r.1.Alerted? ==> r.0 == v && r.1.message == NameRequired
    ensures r.1.Sent? ==> r.0 == View(EmptyForm, false)
    ensures r.1.Sent? ==> r.1.data == v.form.(slug := SlugToSend(v.form))
    ensures r.1.Sent? ==> r.1.data.slug != []
  {
    if Blank(v.form.name) then (v, Alerted(NameRequired))
    else
      assert v.form.name != [];
      (View(EmptyForm, false), Sent(v.form.(slug := SlugToSend(v.form))))
  }

  /** A sent form is reset, so submitting again straight away only alerts and sends nothing. */
  lemma SubmitAfterSendAlerts(v: View)
    requires Submit(v).1.Sent?
    ensures Submit(Submit(v).0).1 == Alerted(NameRequired)
    ensures Submit(Submit(v).0).0 == View(EmptyForm, false)
  {
  }

  /** Submitting depends on the form only: whether the form is shown does not matter. */
  lemma SubmitIgnoresShown(f: Form, shown: bool)
    ensures Submit(View(f, shown)).1 == Submit(View(f, !shown)).1
  {
  }

  /** The fallback differs from the server's slug rule: it keeps punctuation, and a name
      with surrounding spaces gives a slug with a hyphen at each end. */
  lemma FallbackKeepsEdges(name: String)
    requires name == " A&B "
    ensures FallbackSlug(name) == "-a&b-"
  {
    var w: String := "a&b";
    LowerOfExample(name);
    assert " a&b " == [' '] + w + [' '];
    assert NoWs(w);
    HyphensAroundWord(w);
    assert ['-'] + w + ['-'] == "-a&b-";
  }

  lemma LowerOfExample(name: String)
    requires name == " A&B "
    ensures Lower(name) == " a&b "
  {
    assert Lower(name)[1] == LowerChar('A') == 'a';
  }

  /** A word between two spaces becomes the word between two hyphens. */
  lemma HyphensAroundWord(w: String)
    requires w != [] && NoWs(w)
    ensures ReplaceRuns([' '] + w + [' '], '-') == ['-'] + w + ['-']
  {
    SpaceBeforeWord(w);
    ReplaceRunsAfterWord(w, [' '], '-');
    LoneSpace();
    Bracket(['-'], w, ['-']);
  }

  lemma Bracket(x: String, y: String, z: String)
    ensures x + (y + z) == x + y + z
  {
  }

  lemma SpaceBeforeWord(w: String)
    requires w != [] && NoWs(w)
    ensures ReplaceRuns([' '] + w + [' '], '-') == ['-'] + ReplaceRuns(w + [' '], '-')
  {
    var s := [' '] + w + [' '];
    assert s[1..] == w + [' '];
    assert (w + [' '])[0] == w[0];
    assert DropWs(s) == w + [' '];
  }

  lemma LoneSpace()
    ensures ReplaceRuns([' '], '-') == ['-']
  {
    assert DropWs([' ']) == [];
  }
}
