/**
 * The Category document (backend/models/Category.js): a trimmed, required name of
 * at most 50 characters, an optional description of at most 200, the creator,
 * and a slug the pre-save hook derives from the name.
 */
module CategoryModel {
  import opened Results
  import opened Text
  import Slug

  const NameMax: nat := 50
  const DescriptionMax: nat := 200

  datatype Category = Category(
    id: String,
    name: String,
    slug: Option<String>,
    description: Option<String>,
    createdBy: String)

  /** The fields a create request may carry; None is a field the body leaves out. */
  datatype CategoryInput = CategoryInput(
    name: Option<String>,
    slug: Option<String>,
    description: Option<String>,
    createdBy: Option<String>)

  /** What the schema demands of a category before it is saved. */
  predicate SchemaValid(c: Category) {
    && c.name != [] && |c.name| <= NameMax
    && (c.description.Some? ==> |c.description.value| <= DescriptionMax)
    && c.createdBy != []
  }

  /** The schema's validation errors; empty exactly when the category is valid. */
  function SchemaErrors(c: Category): (errs: seq<FieldError>)
    ensures errs == [] <==> SchemaValid(c)
  {
    Check("name", c.name != [], "Category name is required")
    + Check("name", |c.name| <= NameMax, "Category name cannot be more than 50 characters")
    + Check("description", c.description.None? || |c.description.value| <= DescriptionMax,
            "Description cannot be more than 200 characters")
    + Check("createdBy", c.createdBy != [], "Path `createdBy` is required.")
  }

  /** The pre-save hook: the slug is re-derived from the name exactly when the name is
      non-empty and modified, and nothing else changes. */
  function PreSave(c: Category, nameModified: bool): (d: Category)
    ensures c.name != [] && nameModified ==> d.slug == Some(Slug.Slugify(c.name))
    ensures !(c.name != [] && nameModified) ==> d == c
    ensures d.(slug := c.slug) == c
  {
    if c.name != [] && nameModified then c.(slug := Some(Slug.Slugify(c.name))) else c
  }

  /** `Category.create(body)`: the name goes through the `trim` setter, the document is
      validated, and the hook then derives the slug from the stored name, replacing any
      slug the body supplied. */
  function CreateDocument(input: CategoryInput, id: String): (r: Result<Category, seq<FieldError>>)
    ensures var name := Trim(match input.name case Some(n) => n case None => []);
      r.Ok? <==> (name != [] && |name| <= NameMax
                  && (input.description.Some? ==> |input.description.value| <= DescriptionMax)
                  && input.createdBy.Some? && input.createdBy.value != [])
    ensures r.Ok? ==> Trimmed(r.value.name) && 0 < |r.value.name| <= NameMax
    ensures r.Ok? ==> r.value.name == Trim(match input.name case Some(n) => n case None => [])
    ensures r.Ok? ==> r.value.id == id && r.value.description == input.description
    ensures r.Ok? ==> input.createdBy.Some? && r.value.createdBy == input.createdBy.value
    ensures r.Ok? ==> r.value.slug == Some(Slug.Slugify(r.value.name))
    ensures r.Ok? && r.value.description.Some? ==> |r.value.description.value| <= DescriptionMax
    ensures r.Err? ==> r.error != []
  {
    TrimProps(match input.name case Some(n) => n case None => []);
    var doc := Category(
      id,
      Trim(match input.name case Some(n) => n case None => []),
      input.slug,
      input.description,
      match input.createdBy case Some(u) => u case None => []);
    var errs := SchemaErrors(doc);
    if errs != [] then Err(errs) else Ok(PreSave(doc, true))
  }

  /** A slug in the body never matters: the hook replaces it with one derived from the name. */
  lemma CreateIgnoresSuppliedSlug(input: CategoryInput, other: Option<String>, id: String)
    ensures CreateDocument(input, id) == CreateDocument(input.(slug := other), id)
  {
  }
}
