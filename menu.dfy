/** `get_menu_item_recommendation(category)`: draw one menu row, from the
    rows whose category matches when a category is given, and render it into
    a recommendation. The random draw of `sample()` is the parameter `draw`:
    the chosen row is the draw taken modulo the number of candidate rows. */
module Menu {
  import opened Text
  import opened Replies

  datatype Option<T> = None | Some(value: T)

  /** One row of the menu table. A missing cell (`NaN`) is `None`. The price
      is kept as the text it renders to. */
  datatype MenuItem = MenuItem(name: string, category: Option<string>, description: Option<string>, price: string)

  const RecommendPrefix := "How about trying our "
  const DefaultDescription := "a delicious choice"
  const NoItemsMessage := "Sorry, " + "I couldn't find any items in that category."

  /** `if category:`: a category filters only when given and non-empty. */
  predicate Filters(category: Option<string>) {
    category.Some? && category.value != ""
  }

  /** `Category.str.contains(category, case=False, na=False)`: a row with no
      category never matches. */
  predicate InCategory(item: MenuItem, category: string) {
    item.category.Some? && Contains(Lower(item.category.value), Lower(category))
  }

  /** The rows of `menu` in `category` (kept in menu order). */
  function FilterByCategory(menu: seq<MenuItem>, category: string): (r: seq<MenuItem>)
    ensures |r| <= |menu|
    ensures forall item :: item in r <==> item in menu && InCategory(item, category)
  {
    if menu == [] then []
    else
      var rest := FilterByCategory(menu[1..], category);
      assert menu == [menu[0]] + menu[1..];
      if InCategory(menu[0], category) then [menu[0]] + rest else rest
  }

  /** The rows the draw picks from: the rows in the category when one is
      given, the whole menu otherwise. */
  function Candidates(menu: seq<MenuItem>, category: Option<string>): (r: seq<MenuItem>)
    ensures forall item :: item in r <==> item in menu && (Filters(category) ==> InCategory(item, category.value))
  {
    if Filters(category) then FilterByCategory(menu, category.value) else menu
  }

  /** The description, or "a delicious choice" when the cell is missing. */
  function Describe(item: MenuItem): (r: string)
    ensures item.description.Some? ==> r == item.description.value
    ensures item.description.None? ==> r == DefaultDescription
  {
    match item.description
    case Some(d) => d
    case None => DefaultDescription
  }

  /** The recommendation template. */
  function Recommendation(item: MenuItem): (r: string)
    ensures StartsWith(r, RecommendPrefix)
    ensures r[|r| - 1] == '.'
  {
    var r := RecommendPrefix + item.name + "? It's " + Describe(item) + " at $" + item.price + ".";
    assert r[..|RecommendPrefix|] == RecommendPrefix;
    r
  }

  /** The recommendation names the item, its description (or the default)
      and its price, each at its place in the template. */
  lemma RecommendationMentions(item: MenuItem)
    ensures var r := Recommendation(item);
            && OccursAt(r, item.name, |RecommendPrefix|)
            && OccursAt(r, Describe(item), |RecommendPrefix| + |item.name| + 7)
            && OccursAt(r, item.price, |r| - 1 - |item.price|)
            && (item.description.None? ==> Contains(r, DefaultDescription))
  {
    var r := Recommendation(item);
    var d := |RecommendPrefix| + |item.name| + 7;
    assert r[|RecommendPrefix|..|RecommendPrefix| + |item.name|] == item.name;
    assert r[d..d + |Describe(item)|] == Describe(item);
    assert r[|r| - 1 - |item.price|..|r| - 1] == item.price;
    if item.description.None? {
      OccursAtContains(r, DefaultDescription, d);
    }
  }

  /** The table reader types a Category column in which no row has text (on
      a menu with rows) as numeric, and the `.str` accessor raises on it. A
      menu without rows keeps a text column. */
  predicate CategoryColumnNotText(menu: seq<MenuItem>) {
    menu != [] && forall item :: item in menu ==> item.category.None?
  }

  /** `get_menu_item_recommendation(category)`. */
  function GetMenuItemRecommendation(menu: seq<MenuItem>, category: Option<string>, draw: nat): (r: Reply)
    ensures r == Answer(NoItemsMessage)
        <==> Filters(category) && !CategoryColumnNotText(menu) && FilterByCategory(menu, category.value) == []
    ensures r == Failure(EmptySample) <==> !Filters(category) && menu == []
    ensures r == Failure(CategoryNotText) <==> Filters(category) && CategoryColumnNotText(menu)
    ensures r.Failure? ==> r == Failure(EmptySample) || r == Failure(CategoryNotText)
    ensures r.Answer? && r != Answer(NoItemsMessage) ==>
              exists item :: item in menu && (Filters(category) ==> InCategory(item, category.value))
                          && r == Answer(Recommendation(item))
  {
    var pool := Candidates(menu, category);
    if Filters(category) && CategoryColumnNotText(menu) then Failure(CategoryNotText)
    else if Filters(category) && pool == [] then Answer(NoItemsMessage)
    else if pool == [] then Failure(EmptySample)
    else
      var item := pool[draw % |pool|];
      assert item in pool;
      assert Recommendation(item)[0] != NoItemsMessage[0];
      Answer(Recommendation(item))
  }

  /** Every candidate row is recommended for some draw: the draw ranges over
      the whole filtered table, as `sample()` does. */
  lemma EveryCandidateDrawn(menu: seq<MenuItem>, category: Option<string>, i: nat)
    requires i < |Candidates(menu, category)|
    ensures GetMenuItemRecommendation(menu, category, i) == Answer(Recommendation(Candidates(menu, category)[i]))
  {
    var pool := Candidates(menu, category);
    assert pool[i] in pool;
    assert i % |pool| == i;
  }
}
