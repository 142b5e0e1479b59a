/** What the model does on a two-shop directory: a pharmacy whose
    name ends in taa marbuta and a restaurant whose WhatsApp number is
    `null`, as the script would store them after `boot`. The records and
    the query are lemma parameters pinned down by `requires`, so that the
    verifier reasons about them symbolically. */
module Scenarios {
  import opened Options
  import opened JsString
  import opened TextNormalizer
  import opened Shops
  import opened Search
  import opened Facets

  /** The pharmacy "صيدلية النور" in category "Pharmacy", without a
      description. */
  predicate IsPharmacy(raw: RawShop) {
    && raw.name == Str("صيدلية النور")
    && raw.description == Undefined
    && raw.category == Str("Pharmacy")
    && raw.phone == Str("010-1234 5678")
    && raw.whatsapp == Undefined
    && raw.image == Undefined
  }

  /** The restaurant "مطعم الشرق" in category "Restaurant", whose
      WhatsApp property is `null`. */
  predicate IsRestaurant(raw: RawShop) {
    && raw.name == Str("مطعم الشرق")
    && raw.description == Undefined
    && raw.category == Str("Restaurant")
    && raw.phone == Undefined
    && raw.whatsapp == Null
    && raw.image == Undefined
  }

  /** Ingesting a two-record response, for any two records. */
  lemma IngestTwo(a: RawShop, b: RawShop)
    ensures Ingest(Some([a, b])) == [IngestShop(a), IngestShop(b)]
  {
    var xs := [a, b];
    var r := Ingest(Some(xs));
    assert r[0] == IngestShop(xs[0]);
    assert r[1] == IngestShop(xs[1]);
  }

  /** Deleting the dash and the space of a number written in three digit
      groups leaves the three groups joined. */
  lemma GroupedPhoneDigits(phone: string, area: string, dash: string, first: string, space: string, last: string)
    requires area == "010" && dash == "-" && first == "1234" && space == " " && last == "5678"
    requires phone == area + dash + first + space + last
    ensures StripNonDigits(phone) == area + first + last
  {
    StripNonDigitsAppend(area + dash + first + space, last);
    StripNonDigitsAppend(area + dash + first, space);
    StripNonDigitsAppend(area + dash, first);
    StripNonDigitsAppend(area, dash);
    StripNonDigitsFixed(area);
    StripNonDigitsFixed(first);
    StripNonDigitsFixed(last);
  }

  /** The pharmacy's phone keeps exactly its eleven digits. */
  lemma PharmacyPhoneDigits(phone: string)
    requires phone == "010-1234 5678"
    ensures StripNonDigits(phone) == "01012345678"
  {
    assert phone == "010" + "-" + "1234" + " " + "5678";
    GroupedPhoneDigits(phone, "010", "-", "1234", " ", "5678");
    assert "010" + "1234" + "5678" == "01012345678";
  }

  /** The stored list has both shops in order; the pharmacy's phone
      "010-1234 5678" is stored as "01012345678", and the restaurant's
      missing phone and `null` WhatsApp are both stored as missing. */
  lemma StoredDirectory(pharmacy: RawShop, restaurant: RawShop)
    requires IsPharmacy(pharmacy) && IsRestaurant(restaurant)
    ensures var data := Ingest(Some([pharmacy, restaurant]));
            && |data| == 2
            && data[0].name == Str("صيدلية النور")
            && data[0].phone == Str("01012345678")
            && data[1].phone == Undefined
            && data[1].whatsapp == Undefined
  {
    IngestTwo(pharmacy, restaurant);
    PharmacyPhoneDigits(pharmacy.phone.text);
  }

  /** `q` cannot occur in a string that lacks its first character. */
  lemma MissingFirstCharExcludes(s: string, q: string)
    requires q != [] && q[0] !in s
    ensures !Includes(s, q)
  {
  }

  /** A string whose first characters fold to `q` normalises to a string
      that begins with `q`. */
  lemma FoldedPrefix(s: string, q: string)
    requires |q| <= |s|
    requires forall k :: 0 <= k < |q| ==> FoldChar(s[k]) == q[k]
    ensures Includes(NormalizeText(s), q)
  {
    assert q <= NormalizeText(s)[0..];
  }

  /** A character that only folds from itself, and is absent from a
      record's search template, is absent from its token. */
  lemma TokenAvoids(raw: RawShop, c: char)
    requires c !in SearchText(raw)
    requires forall x :: FoldChar(x) == c ==> x == c
    ensures c !in IngestShop(raw).s
  {
  }

  /** The query "صيدليه" is already in normal form. */
  lemma QueryIsCanonical(query: string)
    requires query == "صيدليه"
    ensures NormalizeText(query) == query
  {
    assert IsCanonical(query) by {
      assert forall i :: 0 <= i < |query| ==> query[i] in "صيدليه";
    }
    NormalizeTextFixedPoint(query);
  }

  /** The pharmacy's normalised name begins with "صيدليه": its final
      taa marbuta folds to haa. */
  lemma PharmacyNameHasQuery(pharmacy: RawShop, query: string)
    requires IsPharmacy(pharmacy) && query == "صيدليه"
    ensures Includes(NormalizeText(Interpolate(pharmacy.name)), query)
  {
    FoldedPrefix(pharmacy.name.text, query);
  }

  lemma RestaurantTemplateLacksSad(restaurant: RawShop)
    requires IsRestaurant(restaurant)
    ensures 'ص' !in SearchText(restaurant)
  {
    assert 'ص' !in "مطعم الشرق";
    assert 'ص' !in "undefined";
    assert 'ص' !in "Restaurant";
    assert 'ص' !in " ";
  }

  lemma SadOnlyFoldsFromItself()
    ensures forall x :: FoldChar(x) == 'ص' ==> x == 'ص'
  {
  }

  /** The restaurant's token has no letter ص at all. */
  lemma RestaurantTokenLacksSad(restaurant: RawShop)
    requires IsRestaurant(restaurant)
    ensures 'ص' !in IngestShop(restaurant).s
  {
    RestaurantTemplateLacksSad(restaurant);
    SadOnlyFoldsFromItself();
    TokenAvoids(restaurant, 'ص');
  }

  /** When only the first of two records matches, only its card is shown. */
  lemma OnlyFirstOfTwoFound(a: RawShop, b: RawShop, input: string)
    requires Matches(IngestShop(a), NormalizeText(input), "")
    requires !Matches(IngestShop(b), NormalizeText(input), "")
    ensures Render(Ingest(Some([a, b])), input, "") == Cards([IngestShop(a)])
  {
    IngestTwo(a, b);
    var p, r := IngestShop(a), IngestShop(b);
    var q := NormalizeText(input);
    assert [r][1..] == [];
    assert Select([r], q, "") == [];
    assert [p, r][1..] == [r];
    assert Select([p, r], q, "") == [p];
  }

  /** Searching "صيدليه" (ending in haa) finds the pharmacy named with a
      taa marbuta, and only it. */
  lemma HaaQueryFindsTaaMarbutaName(pharmacy: RawShop, restaurant: RawShop, query: string)
    requires IsPharmacy(pharmacy) && IsRestaurant(restaurant) && query == "صيدليه"
    ensures Render(Ingest(Some([pharmacy, restaurant])), query, "") == Cards([IngestShop(pharmacy)])
  {
    QueryIsCanonical(query);
    PharmacyNameHasQuery(pharmacy, query);
    FieldTextIsFound(pharmacy, query, "");
    RestaurantTokenLacksSad(restaurant);
    MissingFirstCharExcludes(IngestShop(restaurant).s, query);
    OnlyFirstOfTwoFound(pharmacy, restaurant, query);
  }

  /** A non-empty category that neither of two records carries selects
      nothing from their ingested list. */
  lemma UnknownCategoryOfTwo(a: RawShop, b: RawShop, c: string)
    requires c != "" && a.category != Str(c) && b.category != Str(c)
    ensures Render(Ingest(Some([a, b])), "", c) == NoResults
  {
    IngestTwo(a, b);
  }

  /** The category filter is exact: "pharmacy" selects nothing. */
  lemma CategoryFilterIsExact(pharmacy: RawShop, restaurant: RawShop)
    requires IsPharmacy(pharmacy) && IsRestaurant(restaurant)
    ensures Render(Ingest(Some([pharmacy, restaurant])), "", "pharmacy") == NoResults
  {
    UnknownCategoryOfTwo(pharmacy, restaurant, "pharmacy");
  }

  /** Two one-element lists joined are the two-element list. Stated apart
      so that the facet proofs below see this fact and nothing else. */
  lemma JoinSingletons<T>(a: T, b: T)
    ensures [a] + [b] == [a, b]
  {
  }

  /** The facet list of one entry with a non-empty category. */
  lemma CategoriesOfOne(p: Shop)
    requires Truthy(p.category)
    ensures Categories([p]) == [p.category.text]
  {
    assert Categories([]) == [];
    CategoriesAppend([], p);
    assert [] + [p] == [p];
  }

  /** Facets of two entries with different non-empty categories. */
  lemma CategoriesOfTwo(p: Shop, r: Shop)
    requires Truthy(p.category) && Truthy(r.category) && p.category != r.category
    ensures Categories([p, r]) == [p.category.text, r.category.text]
  {
    CategoriesOfOne(p);
    CategoriesAppend([p], r);
    JoinSingletons(p, r);
    JoinSingletons(p.category.text, r.category.text);
  }

  /** The facet list offers "Pharmacy" and "Restaurant", in entry order. */
  lemma DirectoryFacets(pharmacy: RawShop, restaurant: RawShop)
    requires IsPharmacy(pharmacy) && IsRestaurant(restaurant)
    ensures Categories(Ingest(Some([pharmacy, restaurant]))) == ["Pharmacy", "Restaurant"]
  {
    IngestTwo(pharmacy, restaurant);
    CategoriesOfTwo(IngestShop(pharmacy), IngestShop(restaurant));
  }
}
