/** The category facet list built in `boot`:
    `[...new Set(state.data.map(i => i.category).filter(Boolean))]`, the
    options offered by the category control after the "all" entry. */
module Facets {
  import opened Seqs
  import opened JsString
  import opened Shops
  import opened TextNormalizer
  import opened Search

  /** `data.map(i => i.category)`. */
  function CategoryValues(data: seq<Shop>): (r: seq<Field>)
    ensures |r| == |data|
    ensures forall i :: 0 <= i < |data| ==> r[i] == data[i].category
  {
    seq(|data|, i requires 0 <= i < |data| => data[i].category)
  }

  /** `.filter(Boolean)`: the non-empty string values, in order. */
  function TruthyTexts(vs: seq<Field>): (r: seq<string>)
    ensures forall x :: x in r <==> x != "" && Str(x) in vs
    decreases |vs|
  {
    if |vs| == 0 then []
    else
      var init := vs[..|vs| - 1];
      var v := vs[|vs| - 1];
      assert vs == init + [v];
      TruthyTexts(init) + (if Truthy(v) then [v.text] else [])
  }

  /** A list of texts read as string property values. */
  function AsFields(ts: seq<string>): (fs: seq<Field>)
    ensures |fs| == |ts|
    ensures forall i :: 0 <= i < |ts| ==> fs[i] == Str(ts[i])
  {
    seq(|ts|, i requires 0 <= i < |ts| => Str(ts[i]))
  }

  /** `.filter(Boolean)` keeps the truthy values in their original order. */
  lemma {:induction false} TruthyTextsInOrder(vs: seq<Field>)
    ensures IsSubsequence(AsFields(TruthyTexts(vs)), vs)
    decreases |vs|
  {
    if |vs| == 0 {
      assert AsFields(TruthyTexts(vs)) == [];
    } else {
      var init := vs[..|vs| - 1];
      var v := vs[|vs| - 1];
      assert vs == init + [v];
      var ts := TruthyTexts(init);
      TruthyTextsInOrder(init);
      IsSubsequenceSnoc(AsFields(ts), init, v);
      if Truthy(v) {
        assert TruthyTexts(vs) == ts + [v.text];
        assert AsFields(ts + [v.text]) == AsFields(ts) + [v];
      } else {
        assert TruthyTexts(vs) == ts;
      }
    }
  }

  /** `.filter(Boolean)` keeps every truthy value once per occurrence, and
      nothing else. */
  lemma {:induction false} TruthyTextsCounts(vs: seq<Field>)
    ensures forall x :: multiset(TruthyTexts(vs))[x] == if x == "" then 0 else multiset(vs)[Str(x)]
    decreases |vs|
  {
    if |vs| > 0 {
      var init := vs[..|vs| - 1];
      var v := vs[|vs| - 1];
      assert vs == init + [v];
      TruthyTextsCounts(init);
      assert multiset(vs) == multiset(init) + multiset([v]);
      if Truthy(v) {
        assert TruthyTexts(vs) == TruthyTexts(init) + [v.text];
      } else {
        assert TruthyTexts(vs) == TruthyTexts(init);
      }
    }
  }

  /** The facet list: each non-empty category once. */
  function Categories(data: seq<Shop>): (r: seq<string>)
    ensures NoDuplicates(r)
    ensures "" !in r
    ensures forall x :: x in r <==> x != "" && Str(x) in CategoryValues(data)
  {
    Distinct(TruthyTexts(CategoryValues(data)))
  }

  /** Adding one entry at the end either appends its category to the facet
      list (when it is non-empty and new) or leaves the list as it was. */
  lemma CategoriesAppend(data: seq<Shop>, e: Shop)
    ensures Categories(data + [e])
         == if Truthy(e.category) && e.category.text !in Categories(data)
            then Categories(data) + [e.category.text]
            else Categories(data)
  {
    var vs := CategoryValues(data);
    var vs' := CategoryValues(data + [e]);
    assert vs' == vs + [e.category];
    assert vs'[..|vs'| - 1] == vs;
    var ts := TruthyTexts(vs);
    var ts' := TruthyTexts(vs');
    if Truthy(e.category) {
      assert ts' == ts + [e.category.text];
      assert ts'[..|ts'| - 1] == ts;
    } else {
      assert ts' == ts;
    }
  }

  /** Every facet in `r` is a category value of `ws`, and the facets are
      ordered by where their category first occurs in `ws`. */
  predicate InFirstOccurrenceOrder(r: seq<string>, ws: seq<Field>) {
    && (forall x :: x in r ==> Str(x) in ws)
    && forall i, j :: 0 <= i < j < |r| ==> IndexOf(ws, Str(r[i])) < IndexOf(ws, Str(r[j]))
  }

  /** One more category value keeps an ordered facet list ordered, and a
      value seen for the first time may be appended as the last facet. */
  lemma InFirstOccurrenceOrderAppend(p: seq<string>, vs: seq<Field>, v: Field)
    requires InFirstOccurrenceOrder(p, vs)
    ensures InFirstOccurrenceOrder(p, vs + [v])
    ensures v.Str? && v !in vs ==> InFirstOccurrenceOrder(p + [v.text], vs + [v])
  {
    var ws := vs + [v];
    IndexOfAppendKeeps(vs, v);
    assert forall x :: x in p ==> IndexOf(ws, Str(x)) == IndexOf(vs, Str(x)) < |vs|;
    if v.Str? && v !in vs {
      IndexOfAppend(vs, v, v);
      var r := p + [v.text];
      forall i, j | 0 <= i < j < |r|
        ensures IndexOf(ws, Str(r[i])) < IndexOf(ws, Str(r[j]))
      {
        assert r[i] == p[i];
        if j == |p| {
          assert Str(r[j]) == v;
        } else {
          assert r[j] == p[j];
        }
      }
    }
  }

  /** The step of the facet list for one more entry keeps it ordered. */
  lemma FacetStepOrdered(p: seq<string>, p': seq<string>, vs: seq<Field>, v: Field)
    requires InFirstOccurrenceOrder(p, vs)
    requires forall x :: x in p <==> x != "" && Str(x) in vs
    requires p' == if Truthy(v) && v.text !in p then p + [v.text] else p
    ensures InFirstOccurrenceOrder(p', vs + [v])
  {
    InFirstOccurrenceOrderAppend(p, vs, v);
    if Truthy(v) && v.text !in p {
      assert v !in vs;
    }
  }

  /** `map` over one more entry gives one more category value. */
  lemma CategoryValuesAppend(data: seq<Shop>, e: Shop)
    ensures CategoryValues(data + [e]) == CategoryValues(data) + [e.category]
  {
  }

  /** Facets appear in the order in which their category first occurs
      among the entries. */
  lemma {:induction false} CategoriesFirstOccurrenceOrder(data: seq<Shop>)
    ensures InFirstOccurrenceOrder(Categories(data), CategoryValues(data))
    decreases |data|
  {
    if |data| > 0 {
      var init := data[..|data| - 1];
      var e := data[|data| - 1];
      assert data == init + [e];
      CategoriesFirstOccurrenceOrder(init);
      CategoriesAppend(init, e);
      CategoryValuesAppend(init, e);
      FacetStepOrdered(Categories(init), Categories(data), CategoryValues(init), e.category);
    }
  }

  /** Selecting a listed facet with an empty query always shows cards, and
      a non-empty category that is not listed always shows "no results". */
  lemma FacetShowsCards(data: seq<Shop>, c: string)
    requires c != ""
    ensures Render(data, "", c).Cards? <==> c in Categories(data)
  {
    if c in Categories(data) {
      var i :| 0 <= i < |data| && CategoryValues(data)[i] == Str(c);
      assert Matches(data[i], NormalizeText(""), c);
    }
  }
}
