/**
 * The Tag document (backend/models/Tag.js): a required name stored trimmed and
 * lower-case, at most 30 characters, an optional description, and a slug the
 * pre-save hook derives from the name.
 */
module TagModel {
  import opened Results
  import opened Text
  import Slug

  const NameMax: nat := 30

  datatype Tag = Tag(id: String, name: String, slug: Option<String>, description: Option<String>)

  datatype TagInput = TagInput(name: Option<String>, slug: Option<String>, description: Option<String>)

  /** The `trim` and `lowercase` setters applied to an assigned name. */
  function StoredName(raw: String): (name: String)
    ensures Trimmed(name)
    ensures forall i :: 0 <= i < |name| ==> !IsAsciiUpper(name[i])
    ensures |name| <= |raw|
    ensures name == [] <==> Blank(raw)
    ensures exists pre, mid, post :: raw == pre + mid + post && Blank(pre) && Blank(post) && name == Lower(mid)
  {
    LowerTrimShape(raw);
    LowerTrimIsInfix(raw);
    Lower(Trim(raw))
  }

  lemma LowerTrimShape(raw: String)
    ensures var name := Lower(Trim(raw));
      && Trimmed(name)
      && (forall i :: 0 <= i < |name| ==> !IsAsciiUpper(name[i]))
      && |name| <= |raw|
      && (name == [] <==> Blank(raw))
  {
    TrimProps(raw);
    LowerKeepsTrimmed(Trim(raw));
  }

  lemma LowerTrimIsInfix(raw: String)
    ensures exists pre, mid, post :: raw == pre + mid + post && Blank(pre) && Blank(post) && Lower(Trim(raw)) == Lower(mid)
  {
    TrimIsInfix(raw);
  }

  /** Assigning a stored name again stores it unchanged: the setters are idempotent. */
  lemma StoredNameStable(raw: String)
    ensures StoredName(StoredName(raw)) == StoredName(raw)
  {
    var name := StoredName(raw);
    TrimProps(name);
    assert Lower(name) == name;
  }

  /** A slug in the body never matters: the hook derives it from the name. */
  lemma CreateIgnoresSuppliedSlug(input: TagInput, other: Option<String>, id: String)
    ensures CreateDocument(input, id) == CreateDocument(input.(slug := other), id)
  {
  }

  /** The pre-save hook: the slug is re-derived from the name exactly when the name is
      non-empty and modified, and nothing else changes. */
  function PreSave(t: Tag, nameModified: bool): (u: Tag)
    ensures t.name != [] && nameModified ==> u.slug == Some(Slug.Slugify(t.name))
    ensures !(t.name != [] && nameModified) ==> u == t
    ensures u.(slug := t.slug) == t
  {
    if t.name != [] && nameModified then t.(slug := Some(Slug.Slugify(t.name))) else t
  }

  /** `Tag.create(body)`: the stored name is trimmed, lower-case and 1 to 30 characters
      long; the hook derives the slug from it. */
  function CreateDocument(input: TagInput, id: String): (r: Result<Tag, seq<FieldError>>)
    ensures var name := StoredName(match input.name case Some(n) => n case None => []);
      r.Ok? <==> (name != [] && |name| <= NameMax)
    ensures r.Ok? ==> Trimmed(r.value.name) && 0 < |r.value.name| <= NameMax
    ensures r.Ok? ==> r.value.name == StoredName(match input.name case Some(n) => n case None => [])
    ensures r.Ok? ==> r.value.id == id && r.value.description == input.description
    ensures r.Ok? ==> forall i :: 0 <= i < |r.value.name| ==> !IsAsciiUpper(r.value.name[i])
    ensures r.Ok? ==> r.value.slug == Some(Slug.Slugify(r.value.name))
    ensures r.Err? ==> r.error != []
  {
    var name := StoredName(match input.name case Some(n) => n case None => []);
    if name == [] then Err([FieldError("name", "Tag name is required")])
    else if |name| > NameMax then Err([FieldError("name", "Tag name cannot be more than 30 characters")])
    else Ok(PreSave(Tag(id, name, input.slug, input.description), true))
  }
}
