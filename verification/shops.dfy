/** Ingestion in `boot`: each raw shop record of the parsed response becomes
    a stored entry whose phone numbers are reduced to digits and which
    carries the precomputed search token `_s`. */
module Shops {
  import opened Options
  import opened JsString
  import opened TextNormalizer

  /** A shop record as it arrives in the response's `shops` array. */
  datatype RawShop = RawShop(
    name: Field,
    description: Field,
    category: Field,
    phone: Field,
    whatsapp: Field,
    image: Field)

  /** A stored entry of `state.data`: the raw record with `phone` and
      `whatsapp` rewritten and the search token `s` (the script's `_s`)
      added. */
  datatype Shop = Shop(
    name: Field,
    description: Field,
    category: Field,
    phone: Field,
    whatsapp: Field,
    image: Field,
    s: string)

  /** `v?.replace(/\D/g, "")`: a string keeps only its digits; optional
      chaining turns both `undefined` and `null` into `undefined`. */
  function DigitsOnly(v: Field): (r: Field)
    ensures r.Str? <==> v.Str?
    ensures !r.Str? ==> r == Undefined
    ensures r.Str? ==> AllDigits(r.text) && |r.text| <= |v.text|
  {
    match v
    case Str(t) => Str(StripNonDigits(t))
    case _ => Undefined
  }

  /** The template literal `${name} ${description} ${category}`. It is never
      empty, so the `|| ""` guard of `normalize` does not fire on it. */
  function SearchText(raw: RawShop): (r: string)
    ensures Truthy(Str(r))
  {
    Interpolate(raw.name) + " " + Interpolate(raw.description) + " " + Interpolate(raw.category)
  }

  /** `_s`, the normalised template. The template is never empty, so the
      `|| ""` guard of `normalize` never fires, and the token is the three
      normalised field texts joined by single spaces; a missing field
      contributes the text `undefined`, a `null` one `null`. */
  function SearchToken(raw: RawShop): (r: string)
    ensures r == NormalizeText(Interpolate(raw.name)) + " "
              + NormalizeText(Interpolate(raw.description)) + " "
              + NormalizeText(Interpolate(raw.category))
  {
    var n, d, c := Interpolate(raw.name), Interpolate(raw.description), Interpolate(raw.category);
    assert NormalizeText(" ") == " ";
    NormalizeTextAppend(n, " ");
    NormalizeTextAppend(n + " ", d);
    NormalizeTextAppend(n + " " + d, " ");
    NormalizeTextAppend(n + " " + d + " ", c);
    Normalize(Str(SearchText(raw)))
  }

  /** The object built by `({...i, phone: ..., whatsapp: ..., _s: ...})`. */
  function IngestShop(raw: RawShop): Shop {
    Shop(raw.name, raw.description, raw.category,
         DigitsOnly(raw.phone), DigitsOnly(raw.whatsapp), raw.image,
         SearchToken(raw))
  }

  /** What the script promises of a stored entry built from `raw`: the
      copied fields are untouched, a phone number is present exactly when
      it was a string and then holds only that string's digits, and the
      token is the normalised name, description and category. */
  predicate StoredFrom(raw: RawShop, e: Shop) {
    && e.name == raw.name
    && e.description == raw.description
    && e.category == raw.category
    && e.image == raw.image
    && (e.phone.Str? <==> raw.phone.Str?)
    && (e.phone.Str? ==> AllDigits(e.phone.text) && e.phone.text == StripNonDigits(raw.phone.text))
    && (!e.phone.Str? ==> e.phone == Undefined)
    && (e.whatsapp.Str? <==> raw.whatsapp.Str?)
    && (e.whatsapp.Str? ==> AllDigits(e.whatsapp.text) && e.whatsapp.text == StripNonDigits(raw.whatsapp.text))
    && (!e.whatsapp.Str? ==> e.whatsapp == Undefined)
    && e.s == NormalizeText(Interpolate(raw.name)) + " "
              + NormalizeText(Interpolate(raw.description)) + " "
              + NormalizeText(Interpolate(raw.category))
  }

  /** `(j.shops || []).map(...)`: a missing or `null` `shops` gives no
      entries; otherwise one entry per record. */
  function Ingest(shops: Option<seq<RawShop>>): (r: seq<Shop>)
    ensures shops.None? ==> r == []
    ensures shops.Some? ==> |r| == |shops.value|
  {
    match shops
    case None => []
    case Some(xs) => seq(|xs|, i requires 0 <= i < |xs| => IngestShop(xs[i]))
  }

  /** One record's entry keeps every promise of `StoredFrom`. */
  lemma IngestShopStored(raw: RawShop)
    ensures StoredFrom(raw, IngestShop(raw))
  {
  }

  /** Each stored entry is built from the record at the same position. */
  lemma IngestStoresEachRecord(xs: seq<RawShop>)
    ensures forall i :: 0 <= i < |xs| ==> StoredFrom(xs[i], Ingest(Some(xs))[i])
  {
    forall i | 0 <= i < |xs| ensures StoredFrom(xs[i], Ingest(Some(xs))[i]) {
      assert Ingest(Some(xs))[i] == IngestShop(xs[i]);
      IngestShopStored(xs[i]);
    }
  }

  /** Reads a stored entry back as a raw record, dropping the token. */
  function AsRaw(e: Shop): RawShop {
    RawShop(e.name, e.description, e.category, e.phone, e.whatsapp, e.image)
  }

  /** Feeding a stored entry through ingestion again changes nothing: the
      digit strip is idempotent, `undefined` stays `undefined`, and the
      token depends only on fields ingestion does not touch. */
  lemma IngestShopStable(raw: RawShop)
    ensures IngestShop(AsRaw(IngestShop(raw))) == IngestShop(raw)
  {
    if raw.phone.Str? {
      StripNonDigitsIdempotent(raw.phone.text);
    }
    if raw.whatsapp.Str? {
      StripNonDigitsIdempotent(raw.whatsapp.text);
    }
  }

  /** Re-ingesting the stored list reproduces it entry for entry. */
  lemma IngestStable(shops: Option<seq<RawShop>>)
    ensures var data := Ingest(shops);
            Ingest(Some(seq(|data|, i requires 0 <= i < |data| => AsRaw(data[i])))) == data
  {
    var data := Ingest(shops);
    forall i | 0 <= i < |data| ensures IngestShop(AsRaw(data[i])) == data[i] {
      IngestShopStable(shops.value[i]);
    }
  }
}
