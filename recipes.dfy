/**
 * A recipe record as the scripts pass it around (a JSON object loaded from the
 * prepared catalog). Each field is `Some` when the key is present.
 */
module Recipes {
  import opened Wrappers

  type Id = string

  datatype Recipe = Recipe(
    recipeId: Option<Id>,
    title: Option<string>,
    tags: Option<string>,
    ingredients: Option<string>,
    duration: Option<real>,
    calories: Option<real>,
    healthCategory: Option<string>,
    relevanceScore: Option<real>)

  /** Python truthiness of an optional text field: present and non-empty. */
  predicate Truthy(v: Option<string>) {
    v.Some? && v.value != ""
  }

  /** Every recipe of the list has a `title` key. */
  predicate AllTitled(recipes: seq<Recipe>) {
    forall j :: 0 <= j < |recipes| ==> recipes[j].title.Some?
  }

  /** Python truthiness of an optional number: present and non-zero. */
  predicate TruthyNumber(v: Option<real>) {
    v.Some? && v.value != 0.0
  }

  /**
   * The renderings the scripts leave to Python's formatter: `{x}` on a float,
   * `{x:.0f}`, `{x:.1f}`, `{x:.3f}` and `str.title()`.
   */
  datatype Formats = Formats(
    plain: real -> string,
    fixed0: real -> string,
    fixed1: real -> string,
    fixed3: real -> string,
    titleCase: string -> string)
}
