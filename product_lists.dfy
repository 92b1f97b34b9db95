/**
 * Products and the pure list transformations the product screen applies to
 * its local copy of the current page: the search filter, replace-by-id after
 * an update and remove-by-id after a delete.
 */
module ProductLists {
  import opened Outcomes
  import opened Seqs
  import opened Text

  datatype Category = Category(name: string)

  /**
   * A product as the backend returns it. `code` and `name` may be missing
   * (`None`) or empty; both count as falsy for the search.
   */
  datatype Product = Product(
    id: int,
    code: Option<string>,
    name: Option<string>,
    price: int,
    stock: int,
    category: Category)

  /** A non-empty text field is truthy in JavaScript; a missing or empty one is not. */
  predicate Truthy(field: Option<string>)
  {
    field.Some? && field.value != ""
  }

  /** A field matches when it is truthy and its lower-cased text contains the lower-cased query. */
  predicate FieldMatches(field: Option<string>, query: string)
  {
    Truthy(field) && Contains(Lower(field.value), Lower(query))
  }

  /** The search condition: the name matches or the code matches. */
  predicate Matches(p: Product, query: string)
  {
    FieldMatches(p.name, query) || FieldMatches(p.code, query)
  }

  /** Products with a non-empty name or a non-empty code. */
  predicate Labelled(p: Product)
  {
    Truthy(p.name) || Truthy(p.code)
  }

  function MatchesQuery(query: string): Product -> bool
  {
    (p: Product) => Matches(p, query)
  }

  /** The products of `ps` that match `query`, in their original order. */
  function Search(ps: seq<Product>, query: string): (r: seq<Product>)
    ensures forall p :: p in r ==> p in ps && Matches(p, query)
  {
    Filter(ps, MatchesQuery(query))
  }

  /**
   * Search keeps exactly the matching products: each matching product as
   * often as it occurs in `ps`, no other product, and the original order.
   * A product without a non-empty name or code is never found.
   */
  lemma SearchExact(ps: seq<Product>, query: string)
    ensures IsSubsequence(Search(ps, query), ps)
    ensures forall p :: multiset(Search(ps, query))[p] == if Matches(p, query) then multiset(ps)[p] else 0
    ensures forall p :: p in Search(ps, query) ==> Labelled(p)
  {
    FilterIsSubsequence(ps, MatchesQuery(query));
    forall p
      ensures multiset(Search(ps, query))[p] == if Matches(p, query) then multiset(ps)[p] else 0
    {
      FilterCount(ps, MatchesQuery(query), p);
    }
  }

  /** Searching the result of a search for the same query changes nothing. */
  lemma SearchIdempotent(ps: seq<Product>, query: string)
    ensures Search(Search(ps, query), query) == Search(ps, query)
  {
    FilterIdempotent(ps, MatchesQuery(query));
  }

  /**
   * The empty query matches a product exactly when it has a non-empty name
   * or code: it keeps those, drops the others, and returns the whole list
   * when every product is labelled.
   */
  lemma SearchEmptyQuery(ps: seq<Product>)
    ensures forall p :: Matches(p, "") <==> Labelled(p)
    ensures forall p :: p in Search(ps, "") <==> p in ps && Labelled(p)
    ensures (forall p :: p in ps ==> Labelled(p)) ==> Search(ps, "") == ps
  {
    assert Lower("") == "";
    forall s: string
      ensures Contains(s, "")
    {
    }
    SearchExact(ps, "");
    forall p | p in ps && Labelled(p)
      ensures p in Search(ps, "")
    {
      assert multiset(Search(ps, ""))[p] == multiset(ps)[p] > 0;
    }
    if forall p :: p in ps ==> Labelled(p) {
      FilterKeepsAll(ps, MatchesQuery(""));
    }
  }

  /** The search ignores the case of ASCII letters in the query. */
  lemma SearchCaseInsensitive(ps: seq<Product>, query: string, other: string)
    requires Lower(query) == Lower(other)
    ensures Search(ps, query) == Search(ps, other)
    ensures Search(ps, query) == Search(ps, Lower(query))
  {
    LowerIdempotent(query);
    FilterAgree(ps, MatchesQuery(query), MatchesQuery(other));
    FilterAgree(ps, MatchesQuery(query), MatchesQuery(Lower(query)));
  }

  /**
   * Typing more can only narrow the result: a query that contains `query`
   * finds an order-preserving subsequence of what `query` finds.
   */
  lemma SearchNarrows(ps: seq<Product>, query: string, longer: string)
    requires Contains(longer, query)
    ensures IsSubsequence(Search(ps, longer), Search(ps, query))
  {
    LowerContains(longer, query);
    forall p | p in ps && Matches(p, longer)
      ensures Matches(p, query)
    {
      if FieldMatches(p.name, longer) {
        ContainsTransitive(Lower(p.name.value), Lower(longer), Lower(query));
      } else {
        ContainsTransitive(Lower(p.code.value), Lower(longer), Lower(query));
      }
    }
    FilterMonotone(ps, MatchesQuery(longer), MatchesQuery(query));
  }

  /** The update's mapping: every product whose id is `id` becomes `replacement`. */
  function ReplaceById(ps: seq<Product>, id: int, replacement: Product): (r: seq<Product>)
    ensures |r| == |ps|
    ensures forall i :: 0 <= i < |ps| ==> r[i] == if ps[i].id == id then replacement else ps[i]
  {
    if ps == [] then []
    else [if ps[0].id == id then replacement else ps[0]] + ReplaceById(ps[1..], id, replacement)
  }

  /**
   * Replacing by id leaves a list without that id as it was, and otherwise
   * puts the replacement in and keeps no product carrying that id other
   * than the replacement.
   */
  lemma ReplaceByIdEffect(ps: seq<Product>, id: int, replacement: Product)
    ensures (forall p :: p in ps ==> p.id != id) ==> ReplaceById(ps, id, replacement) == ps
    ensures (exists p :: p in ps && p.id == id) ==> replacement in ReplaceById(ps, id, replacement)
    ensures forall p :: p in ReplaceById(ps, id, replacement) && p.id == id ==> p == replacement
  {
    var r := ReplaceById(ps, id, replacement);
    if exists p :: p in ps && p.id == id {
      var p :| p in ps && p.id == id;
      var i :| 0 <= i < |ps| && ps[i] == p;
      assert r[i] == replacement;
    }
  }

  function HasOtherId(id: int): Product -> bool
  {
    (p: Product) => p.id != id
  }

  /** The delete's filter: the products whose id differs from `id`, in order. */
  function RemoveById(ps: seq<Product>, id: int): (r: seq<Product>)
    ensures forall p :: p in r ==> p in ps && p.id != id
  {
    Filter(ps, HasOtherId(id))
  }

  /**
   * Removing by id drops every product with that id and keeps every other
   * occurrence, in order; a list without that id is returned unchanged.
   */
  lemma RemoveByIdExact(ps: seq<Product>, id: int)
    ensures IsSubsequence(RemoveById(ps, id), ps)
    ensures forall p :: multiset(RemoveById(ps, id))[p] == if p.id != id then multiset(ps)[p] else 0
    ensures (forall p :: p in ps ==> p.id != id) ==> RemoveById(ps, id) == ps
  {
    FilterIsSubsequence(ps, HasOtherId(id));
    forall p
      ensures multiset(RemoveById(ps, id))[p] == if p.id != id then multiset(ps)[p] else 0
    {
      FilterCount(ps, HasOtherId(id), p);
    }
    if forall p :: p in ps ==> p.id != id {
      FilterKeepsAll(ps, HasOtherId(id));
    }
  }

  /** Two sample products. */
  const Widget := Product(1, Some("W1"), Some("Widget"), 0, 0, Category(""))
  const Gadget := Product(2, Some("G2"), Some("Gadget"), 0, 0, Category(""))

  lemma WidgetMatchesWid()
    ensures Matches(Widget, "wid")
  {
    assert Lower("wid") == "wid";
    assert Lower("Widget") == "widget";
    assert Contains("widget", "wid");
  }

  lemma GadgetMissesWid()
    ensures !Matches(Gadget, "wid")
  {
    assert Lower("wid") == "wid";
    assert Lower("Gadget") == "gadget" && Lower("G2") == "g2";
    MissingCharNotContained("gadget", "wid", 'w');
    MissingCharNotContained("g2", "wid", 'w');
  }

  lemma GadgetMatchesG2()
    ensures Matches(Gadget, "G2")
  {
    assert Lower("G2") == "g2";
    assert Contains("g2", "g2");
  }

  lemma WidgetMissesG2()
    ensures !Matches(Widget, "G2")
  {
    assert Lower("G2") == "g2";
    assert Lower("Widget") == "widget" && Lower("W1") == "w1";
    MissingCharNotContained("widget", "g2", '2');
    MissingCharNotContained("w1", "g2", '2');
  }

  /**
   * A sample search: "wid" finds only the widget, by
   * its name, and "G2" finds only the gadget, by its code.
   */
  lemma SearchExample()
    ensures Search([Widget, Gadget], "wid") == [Widget]
    ensures Search([Widget, Gadget], "G2") == [Gadget]
  {
    WidgetMatchesWid();
    GadgetMissesWid();
    assert Search([Widget, Gadget], "wid") == [Widget] + Filter([Gadget], MatchesQuery("wid"));
    GadgetMatchesG2();
    WidgetMissesG2();
    assert Search([Widget, Gadget], "G2") == Filter([Gadget], MatchesQuery("G2"));
  }
}
