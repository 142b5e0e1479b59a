/** The filtering logic of `render`: an entry is shown when it passes the
    optional exact category filter and the optional substring text filter;
    the survivors keep their order, and an empty result selects the
    "no results" message instead of the card list. */
module Search {
  import opened Seqs
  import opened JsString
  import opened TextNormalizer
  import opened Shops

  /** The predicate passed to `state.data.filter`, for the normalised query
      `q` and the selected category `c` (the empty string means "all"). The
      category is compared exactly, without normalisation. */
  predicate Matches(e: Shop, q: string, c: string) {
    && (c == "" || e.category == Str(c))
    && (q == "" || Includes(e.s, q))
  }

  /** `data.filter(...)`: the entries that match, in their original order,
      each as many times as it occurs in `data`. */
  function Select(data: seq<Shop>, q: string, c: string): (r: seq<Shop>)
    ensures forall e :: e in r <==> e in data && Matches(e, q, c)
    ensures IsSubsequence(r, data)
    ensures forall e :: Matches(e, q, c) ==> multiset(r)[e] == multiset(data)[e]
  {
    if data == [] then []
    else
      var rest := Select(data[1..], q, c);
      assert data == [data[0]] + data[1..];
      if Matches(data[0], q, c) then
        assert ([data[0]] + rest)[1..] == rest;
        [data[0]] + rest
      else rest
  }

  /** What `render` puts in the list area. */
  datatype View = NoResults | Cards(items: seq<Shop>)

  /** `render()` for the current data, the raw search box text `input`, and
      the category control's value `c`. "No results" is shown exactly when
      no entry matches; otherwise there is one card per matching record,
      duplicates included, in data order. */
  function Render(data: seq<Shop>, input: string, c: string): (v: View)
    ensures v.NoResults? <==> forall e :: e in data ==> !Matches(e, NormalizeText(input), c)
    ensures v.Cards? ==> v.items != [] && IsSubsequence(v.items, data)
    ensures v.Cards? ==> forall e :: e in v.items <==> e in data && Matches(e, NormalizeText(input), c)
    ensures v.Cards? ==> forall e :: Matches(e, NormalizeText(input), c) ==> multiset(v.items)[e] == multiset(data)[e]
  {
    var q := Normalize(Str(input));
    var items := Select(data, q, c);
    if |items| == 0 then
      assert forall e :: e in data ==> !Matches(e, q, c);
      NoResults
    else
      assert items[0] in data;
      Cards(items)
  }

  // ----- properties of the filter -----

  /** With no query and no category every entry is shown, in order. */
  lemma {:induction false} SelectEverything(data: seq<Shop>)
    ensures Select(data, "", "") == data
  {
    if data != [] {
      SelectEverything(data[1..]);
    }
  }

  /** An unfiltered render shows the whole list, or "no results" when the
      list is empty (as it is before `boot` has stored any data). */
  lemma RenderUnfiltered(data: seq<Shop>)
    ensures Render(data, "", "") == if data == [] then NoResults else Cards(data)
  {
    SelectEverything(data);
  }

  /** If every entry that passes `q2` also passes `q1`, filtering by `q2` is
      the same as filtering the `q1` result by `q2`. */
  lemma {:induction false} SelectRefines(data: seq<Shop>, q1: string, q2: string, c: string)
    requires forall e :: e in data && Matches(e, q2, c) ==> Matches(e, q1, c)
    ensures Select(data, q2, c) == Select(Select(data, q1, c), q2, c)
  {
    if data != [] {
      SelectRefines(data[1..], q1, q2, c);
      var rest1 := Select(data[1..], q1, c);
      if Matches(data[0], q1, c) {
        assert ([data[0]] + rest1)[1..] == rest1;
      }
    }
  }

  /** Filtering is idempotent. */
  lemma SelectIdempotent(data: seq<Shop>, q: string, c: string)
    ensures Select(Select(data, q, c), q, c) == Select(data, q, c)
  {
    SelectRefines(data, q, q, c);
  }

  /** A longer query narrows: when the normalised `q1` occurs inside the
      normalised `q2`, the `q2` result is the `q1` result filtered again. */
  lemma SelectNarrows(data: seq<Shop>, q1: string, q2: string, c: string)
    requires Includes(q2, q1)
    ensures Select(data, q2, c) == Select(Select(data, q1, c), q2, c)
  {
    forall e | e in data && Matches(e, q2, c) ensures Matches(e, q1, c) {
      if q2 != "" {
        IncludesTransitive(e.s, q2, q1);
      } else {
        assert q1 == "";
      }
    }
    SelectRefines(data, q1, q2, c);
  }

  /** Typing more into the search box only removes cards: the result for
      `x + y` is the result for `x`, filtered again. */
  lemma TypingNarrows(data: seq<Shop>, x: string, y: string, c: string)
    ensures Select(data, NormalizeText(x + y), c)
         == Select(Select(data, NormalizeText(x), c), NormalizeText(x + y), c)
  {
    NormalizeTextAppend(x, y);
    var qx := NormalizeText(x);
    assert qx <= (qx + NormalizeText(y))[0..];
    SelectNarrows(data, qx, NormalizeText(x + y), c);
  }

  /** A query that occurs in the normalised name, description or category
      of a record finds the ingested entry (given its category passes). */
  lemma FieldTextIsFound(raw: RawShop, q: string, c: string)
    requires || Includes(NormalizeText(Interpolate(raw.name)), q)
             || Includes(NormalizeText(Interpolate(raw.description)), q)
             || Includes(NormalizeText(Interpolate(raw.category)), q)
    requires c == "" || raw.category == Str(c)
    ensures Matches(IngestShop(raw), q, c)
  {
    var n := NormalizeText(Interpolate(raw.name));
    var d := NormalizeText(Interpolate(raw.description));
    var k := NormalizeText(Interpolate(raw.category));
    assert IngestShop(raw).s == n + " " + d + " " + k;
    IncludesConcat(n, " ", q);
    IncludesConcat(n + " ", d, q);
    IncludesConcat(n + " " + d, " ", q);
    IncludesConcat(n + " " + d + " ", k, q);
  }

  /** A raw search text with the same folded form as a field's text finds
      the entry: spelling variants of أ/إ/آ, ة and ى are interchangeable. */
  lemma SpellingVariantIsFound(raw: RawShop, input: string)
    requires raw.name.Str?
    requires NormalizeText(input) == NormalizeText(raw.name.text)
    ensures Matches(IngestShop(raw), NormalizeText(input), "")
  {
    var n := NormalizeText(raw.name.text);
    assert n <= n[0..];
    FieldTextIsFound(raw, NormalizeText(input), "");
  }

  /** A consequence of interpolating a missing field as the text
      `undefined`: the query "undefined" finds every entry whose
      description is missing. */
  lemma MissingDescriptionMatchesUndefined(raw: RawShop)
    requires raw.description == Undefined
    ensures Matches(IngestShop(raw), NormalizeText("undefined"), "")
  {
    var u := NormalizeText("undefined");
    assert u <= u[0..];
    FieldTextIsFound(raw, u, "");
  }
}
