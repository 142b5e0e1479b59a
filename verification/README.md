# Al-Nasr services directory: search and facet model

`script.js` runs a one-page directory of local shops. At boot it fetches a
JSON document holding a `shops` array. Each record becomes a stored entry:
its phone and WhatsApp numbers are reduced to digits, and it gets a
precomputed search token `_s`, which is the normalised text of its name,
description and category. The script then lists every distinct non-empty
category as a filter option. On each search or category change, `render`
keeps the entries that pass the exact category filter and the substring
text filter, in their original order. It shows "no results" when none
pass.

This project models that pipeline in Dafny as pure functions and proves
properties of it:

- `TextNormalizer` (`normalize.dfy`) models `normalize`. It lower-cases the
  text, folds أ/إ/آ to ا, folds ة to ه, and maps ى to ي. Its partner is a
  one-step character fold, `FoldChar`. The proofs show the two agree, that
  the output is canonical, that normalising is idempotent, and that it
  distributes over concatenation.
- `JsString` (`js_string.dfy`) models the JavaScript values and string
  operations the script relies on:
  - a record property, which is missing, `null` or a string;
  - truthiness;
  - `String(v)` and template interpolation;
  - `toLowerCase`;
  - `replace(/\D/g, "")`;
  - `includes`.
- `Shops` (`shops.dfy`) models the `map` in `boot` that turns raw records
  into stored entries.
- `Search` (`search.dfy`) models the filter and the empty-result choice in
  `render`.
- `Facets` (`facets.dfy`) models the category list
  `[...new Set(... .filter(Boolean))]`. It uses the generic order-keeping
  dedup `Seqs.Distinct` (`seqs.dfy`).
- `Scenarios` (`scenarios.dfy`) proves what the model does on a two-shop
  directory, for every pair of records of the stated shape.

A record property is a `JsString.Field`: `Undefined`, `Null` or
`Str(text)`. This three-way split keeps two JavaScript behaviours visible:

- A missing property interpolates as the text `undefined` and a `null` one
  as `null`.
- Optional chaining turns both `null` and `undefined` into `undefined`.

The parsed `shops` property is an `Option`. `None` covers a property that
is missing, `null` or otherwise falsy.

The search matches the whole normalised query as one substring of the
token. The token holds the name, description and category only. Diacritics
are not removed, and the data is fetched once per page load.

## Model

| member | source | states |
|---|---|---|
| TextNormalizer.NormalizeText | script.js:13-16 | The lower-case-then-replace chain acts on each character on its own: it keeps the length, and position `i` of the result is the one-step fold of input character `i`. |
| TextNormalizer.Normalize | script.js:11-16 | `normalize` is total: a missing, `null` or empty input gives `""`, and a string input gives the chain applied to it. |
| TextNormalizer.FoldCharCanonical | script.js:13-16 | Folding one character always yields a character outside capitals and أ/إ/آ/ة/ى, and leaves a character unchanged exactly when it is already such a character. |
| TextNormalizer.NormalizeTextCanonical | script.js:13-16 | Normalised text never contains an ASCII capital, أ, إ, آ, ة or ى. |
| TextNormalizer.NormalizeTextFixedPoint | script.js:13-16 | Normalisation leaves a string unchanged if and only if the string is already canonical. |
| TextNormalizer.NormalizeTextIdempotent | script.js:11-16 | Normalising twice gives the same text as normalising once. |
| TextNormalizer.NormalizeTextAppend | script.js:13-16 | Normalising a concatenation is concatenating the normalised parts. |
| TextNormalizer.NormalizeTextIncludes | script.js:13-16 | If `q` occurs inside `s`, then the normalised `q` occurs inside the normalised `s`. |
| JsString.Truthy | script.js:12 | JavaScript truthiness of a property: only a non-empty string is truthy. It decides the fallback to "" in `normalize`, the `!c` and `!q` tests of the filter, and `.filter(Boolean)`. |
| JsString.OrEmpty | script.js:12 | `String(v or "")`, the conversion at the start of `normalize`, is non-empty exactly when `v` is truthy, and a non-empty result is `v`'s own text. |
| JsString.Interpolate | script.js:112 | `${v}` agrees with the `normalize` conversion `String(v or "")` exactly when `v` is a string. A missing or `null` property becomes the text `undefined` or `null`, not "". |
| JsString.Includes | script.js:83 | `s.includes(q)`: `q` occurs in `s` as a contiguous block, starting at some index from 0 up to the length of `s`. |
| TextNormalizer.ReplaceAll | script.js:14-16 | `replace(/[…]/g, to)` with a one-character replacement keeps the length and changes exactly the characters in the class, each in place. |
| TextNormalizer.FoldChar | script.js:13-16 | The one-step reference fold: capitals to lower case, أ/إ/آ to ا, ة to ه, ى to ي, anything else unchanged. `NormalizeText` is proved equal to it position by position. |
| JsString.ToLowerCase | script.js:13 | `toLowerCase` keeps the length and lower-cases each character in place. |
| JsString.StripNonDigits | script.js:110-111 | The result of deleting every non-digit holds only ASCII digits and is no longer than the input. |
| JsString.StripNonDigitsInOrder | script.js:110-111 | The kept digits appear in the same relative order as in the input. |
| JsString.StripNonDigitsKeepsDigits | script.js:110-111 | Each digit occurs in the result exactly as often as in the input, and no other character occurs at all. |
| JsString.StripNonDigitsAppend | script.js:110-111 | Deleting non-digits from a concatenation is concatenating the stripped parts. |
| JsString.StripNonDigitsFixed | script.js:110-111 | The strip leaves a string unchanged if and only if the string is all digits. |
| JsString.StripNonDigitsIdempotent | script.js:110-111 | Stripping a stripped number changes nothing. |
| JsString.IncludesTransitive | script.js:83 | A substring of a substring of `s` is a substring of `s`. |
| JsString.IncludesConcat | script.js:83 | A substring of either part stays a substring after the parts are joined. |
| Shops.DigitsOnly | script.js:110-111 | `v?.replace(/\D/g,"")` is a string exactly when `v` is one, and then it holds only digits and is no longer than `v`. `null` and `undefined` both become `undefined`. |
| Shops.SearchToken | script.js:112 | The token is the three normalised field texts joined by single spaces. A missing field contributes the normalised text `undefined`, and a `null` field contributes `null`. |
| Shops.Ingest | script.js:108 | A missing or falsy `shops` gives the empty list. Otherwise there is exactly one stored entry per record. |
| Shops.SearchText | script.js:112 | The template `${name} ${description} ${category}` is never empty, so the fallback to "" in `normalize` never fires on it. |
| Shops.IngestShop | script.js:108-113 | One record's stored entry: the record with `phone` and `whatsapp` replaced and the token added. Its promises are stated by `IngestShopStored`. |
| Shops.IngestShopStored | script.js:109-112 | A record's entry keeps name, description, category and image. Each phone number is present exactly when it was a string, and then holds only that string's digits. Otherwise it is `undefined`, for a `null` number as well. The token has the three-field form. |
| Shops.IngestStoresEachRecord | script.js:108-113 | Entry `i` comes from record `i`. Name, description, category and image are unchanged. Each phone number is present exactly when it was a string, and then holds only that string's digits. Otherwise it is `undefined`, for a `null` number as well. The token has the three-field form. |
| Shops.IngestShopStable | script.js:109-112 | Feeding a stored entry through ingestion again reproduces it. |
| Shops.IngestStable | script.js:108-113 | Re-ingesting the stored list reproduces it, entry for entry. |
| Search.Select | script.js:81-84 | An entry is in the result if and only if it is in the data and passes both filters: the exact category filter (skipped for `""`) and the substring filter (skipped for `""`). The result is an order-preserving subsequence of the data, and it keeps every matching entry as many times as it occurs. |
| Search.Render | script.js:76-89 | "No results" is chosen exactly when no entry matches the normalised search text. Otherwise the cards are a non-empty, order-preserving subsequence of the data. They are exactly the matching entries, with one card per matching record, duplicates included. |
| Search.Matches | script.js:82-83 | The filter predicate: an empty category or an exactly equal category, and an empty query or a query occurring in the token. `Select` and `Render` are characterised by it. |
| Search.SelectEverything | script.js:81-84 | With no query and no category the filter returns the whole list in its original order. |
| Search.RenderUnfiltered | script.js:76-89 | An unfiltered render shows every entry. It shows "no results" only when the list is empty. |
| Search.SelectRefines | script.js:81-84 | If every entry passing filter 2 also passes filter 1, then filtering by 2 equals filtering by 1 and then by 2. |
| Search.SelectIdempotent | script.js:81-84 | Filtering an already-filtered list with the same query and category changes nothing. |
| Search.SelectNarrows | script.js:83 | When query 1 occurs inside query 2, the results for query 2 are the results for query 1 filtered again. |
| Search.TypingNarrows | script.js:77-83 | Adding characters to the end of the search text only removes cards. Characters inserted elsewhere are not covered, and can add cards. |
| Search.FieldTextIsFound | script.js:83 | A query occurring in the normalised name, description or category of a record finds its entry, provided the entry's category passes. |
| Search.SpellingVariantIsFound | script.js:112 | A search text spelled with other alef, taa marbuta or alef maksura variants than the shop name, but folding to the same text, finds the shop. |
| Search.MissingDescriptionMatchesUndefined | script.js:112 | Because a missing description is interpolated as `undefined`, the query "undefined" finds every entry without a description. |
| Seqs.Distinct | script.js:115 | `[...new Set(xs)]` has no duplicates and exactly the elements of `xs`. Its elements appear in the order of their first occurrence in `xs`. |
| Facets.TruthyTexts | script.js:115 | `.filter(Boolean)` keeps exactly the non-empty string values. Its order and multiplicity are stated by the next two rows. |
| Facets.TruthyTextsInOrder | script.js:115 | The kept texts, read back as string values (the `AsFields` step), form a subsequence of the category values, so `.filter(Boolean)` keeps their original order. |
| Facets.TruthyTextsCounts | script.js:115 | Every non-empty text is kept exactly as many times as it occurs among the category values, and "" is never kept. |
| Facets.Categories | script.js:115 | The facet list (`CategoryValues` is the `.map(i => i.category)` step) has no duplicates and no empty value. A text is listed if and only if it is the non-empty category of some entry. |
| Facets.CategoriesAppend | script.js:115 | One more entry appends its category to the facets when the category is non-empty and new. Otherwise the facets stay the same. |
| Facets.InFirstOccurrenceOrderAppend | script.js:115 | One more category value keeps an ordered facet list ordered. A value seen for the first time may be appended last. |
| Facets.FacetStepOrdered | script.js:115 | The facet list for one more entry stays ordered by first occurrence. |
| Facets.CategoryValuesAppend | script.js:115 | Mapping one more entry appends its category value. |
| Facets.CategoriesFirstOccurrenceOrder | script.js:115 | Facets appear in the order in which their category first occurs among the entries. |
| Facets.FacetShowsCards | script.js:115 | With an empty query, a non-empty category shows cards if and only if it is a listed facet. |
| Scenarios.IngestTwo | script.js:108-113 | A two-record response is stored as the two ingested records, in order. |
| Scenarios.GroupedPhoneDigits | script.js:110 | Deleting the non-digits of "010-1234 5678", given as its five pieces, leaves the three digit groups joined. |
| Scenarios.PharmacyPhoneDigits | script.js:110 | The phone "010-1234 5678" becomes "01012345678". |
| Scenarios.StoredDirectory | script.js:108-111 | In the two-shop directory, the pharmacy's phone is stored as "01012345678". The restaurant's missing phone and its `null` WhatsApp are both stored as missing. |
| Scenarios.FoldedPrefix | script.js:13-16 | A string whose leading characters fold to `q` normalises to a text containing `q`. |
| Scenarios.MissingFirstCharExcludes | script.js:83 | A query cannot occur in a token that lacks its first character. |
| Scenarios.TokenAvoids | script.js:112 | A letter that folds only from itself, and is absent from a record's fields, is absent from its token. |
| Scenarios.QueryIsCanonical | script.js:77 | The query "صيدليه" is its own normal form. |
| Scenarios.PharmacyNameHasQuery | script.js:15 | The normalised name "صيدلية النور" contains "صيدليه", because ة folds to ه. |
| Scenarios.RestaurantTemplateLacksSad | script.js:112 | The restaurant's interpolated fields contain no ص. |
| Scenarios.SadOnlyFoldsFromItself | script.js:13-16 | Only ص itself normalises to ص. |
| Scenarios.RestaurantTokenLacksSad | script.js:112 | The restaurant's search token contains no ص. |
| Scenarios.OnlyFirstOfTwoFound | script.js:76-89 | When only the first of two records matches, its card alone is shown. |
| Scenarios.HaaQueryFindsTaaMarbutaName | script.js:77-89 | Searching "صيدليه" shows exactly the pharmacy named with a final ة, and not the restaurant. |
| Scenarios.UnknownCategoryOfTwo | script.js:82-89 | A category carried by neither of two records gives "no results". |
| Scenarios.CategoryFilterIsExact | script.js:82 | The category filter is exact: "pharmacy" finds nothing when the category is "Pharmacy". |
| Scenarios.CategoriesOfOne | script.js:115 | One entry with a non-empty category gives exactly that one facet. |
| Scenarios.CategoriesOfTwo | script.js:115 | Two entries with different non-empty categories give both facets, in entry order. |
| Scenarios.DirectoryFacets | script.js:115 | The two-shop directory offers the facets "Pharmacy" and then "Restaurant". |

## Left out

- The network fetch and JSON parsing (script.js:104-106) and the endpoint URL (script.js:3) are left out because they are I/O. The parsed `shops` property is the input to `Shops.Ingest`.
- Card construction, the option-list rebuild, the `innerHTML` writes and the image fallback (script.js:18-74, 79, 87, 91-93, 116-121) are left out because they are presentation. Only the choice between "no results" and the list of cards is modelled. The call and WhatsApp buttons are enabled exactly when the stored digit string is non-empty (script.js:43, 56). This is a direct truthiness test and is not modelled separately.
- `debounce` and the event listeners (script.js:96-102, 126-127) are left out because they only schedule calls to `render`. Each `render` call is modelled as a function of the stored data, the search-box text and the category value.
- JsString.ToLowerCase: lower-cases only ASCII `A`–`Z`, one character in, one character out. JavaScript lower-cases every cased letter, and not always one character at a time: "İ" (U+0130) becomes two characters, and "Σ" becomes "ς" at the end of a word and "σ" elsewhere. The length and per-position clauses of `NormalizeText`, and `NormalizeTextAppend`, `NormalizeTextIncludes` and `TypingNarrows`, hold only under this per-character model. For example, with the real `toLowerCase` the text "ΑΣ" lower-cases to "ας", which does not occur in "ασα", the lower-cased "ΑΣΑ". The "canonical implies unchanged" half of `NormalizeTextFixedPoint` also holds only under this model: "É" (U+00C9) counts as canonical here, but JavaScript lower-cases it to "é". Arabic letters have no case, so Arabic text is unaffected.
- Keys of a raw record other than name, description, category, phone, whatsapp and image are left out. The spread copies them unchanged and nothing reads them.
- Non-string JSON values are left out: a number, for example, where a string is expected. `.replace` on a number throws, so a phone or WhatsApp property is modelled as a string, `null` or missing. A non-string name, description or category would also interpolate differently.
- A response whose top-level value is itself `null` is left out, because reading `j.shops` would throw.
- A truthy `shops` that is not an array, such as an object, is left out. `.map` is not a function on it, so `boot` throws (script.js:108). `Option<seq<RawShop>>` cannot express it.
- A `null` element of the `shops` array is left out. Reading `i.phone` on it throws (script.js:110), and a `RawShop` is always a record.
- Strings are modelled as sequences of Unicode scalar values (Dafny `char`), while JavaScript strings are sequences of UTF-16 code units. A lone surrogate, such as one written as a `\uD800` escape in the JSON response, cannot be represented. For well-formed text, `includes`, the class replacements and the digit strip give the same results in both.
