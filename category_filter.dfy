/**
 * components/CategoryFilter.tsx: one button for "all" and one per
 * category, each labelled with its first letter capitalised, the active
 * one highlighted, and a click selecting that button's category.
 */
module CategoryFilter {
  import opened Text

  const AllCategory := "all"

  /** `['all', ...categories]`: "all" first, then the categories in their order. */
  function AllCategories(categories: seq<string>): (r: seq<string>)
    ensures |r| == |categories| + 1
    ensures r[0] == AllCategory && r[1..] == categories
  {
    [AllCategory] + categories
  }

  /** `category.charAt(0).toUpperCase() + category.slice(1)`; the empty string stays empty. */
  function Label(category: string): (caption: string)
    ensures |caption| == |category|
    ensures category != [] ==> caption[0] == UpperChar(category[0]) && caption[1..] == category[1..]
  {
    if category == [] then [] else [UpperChar(category[0])] + category[1..]
  }

  /** Labelling a label changes nothing. */
  lemma LabelIdempotent(category: string)
    ensures Label(Label(category)) == Label(category)
  {
    if category != [] {
      var c := category[0];
      assert UpperChar(UpperChar(c)) == UpperChar(c);
      assert Label(category)[1..] == category[1..];
    }
  }

  lemma LabelOfAll()
    ensures Label(AllCategory) == "All"
    ensures Label("") == ""
  {
    assert UpperChar('a') == 'A';
    assert AllCategory[1..] == "ll";
  }

  /** What one rendered button shows and how it looks. */
  datatype Button = Button(category: string, caption: string, highlighted: bool)

  /** `allCategories.map(...)`: the buttons in order, the one for `active` highlighted. */
  function Buttons(categories: seq<string>, active: string): (bs: seq<Button>)
    ensures |bs| == |categories| + 1
    ensures forall i :: 0 <= i < |bs| ==>
      && bs[i].category == AllCategories(categories)[i]
      && bs[i].caption == Label(bs[i].category)
      && (bs[i].highlighted <==> bs[i].category == active)
  {
    var all := AllCategories(categories);
    seq(|all|, i requires 0 <= i < |all| => Button(all[i], Label(all[i]), all[i] == active))
  }

  predicate Distinct(s: seq<string>) {
    forall i, j :: 0 <= i < j < |s| ==> s[i] != s[j]
  }

  /**
   * With distinct categories other than "all", at most one button is
   * highlighted, and exactly one when the active category has a button.
   */
  lemma OneHighlighted(categories: seq<string>, active: string)
    requires AllCategory !in categories && Distinct(categories)
    ensures var bs := Buttons(categories, active);
      && (forall i, j :: 0 <= i < j < |bs| && bs[i].highlighted ==> !bs[j].highlighted)
      && ((exists i :: 0 <= i < |bs| && bs[i].highlighted) <==> active in AllCategories(categories))
  {
    var all := AllCategories(categories);
    var bs := Buttons(categories, active);
    forall i, j | 0 <= i < j < |bs| && bs[i].highlighted
      ensures !bs[j].highlighted
    {
      if i == 0 {
        assert all[j] == categories[j - 1];
      } else {
        assert all[i] == categories[i - 1] && all[j] == categories[j - 1];
      }
    }
    if active in all {
      var k :| 0 <= k < |all| && all[k] == active;
      assert bs[k].highlighted;
    }
  }

  /**
   * `onClick={() => setActiveCategory(category)}`: clicking button `i`
   * selects its category, and the next render highlights that button.
   */
  function Click(categories: seq<string>, active: string, i: nat): (selected: string)
    requires i < |categories| + 1
    ensures selected == Buttons(categories, active)[i].category
    ensures Buttons(categories, selected)[i].highlighted
  {
    AllCategories(categories)[i]
  }
}
