# Property search: a verified model of query parsing, record normalisation and ranking

This project models in Dafny the deterministic core of a property-listing search engine.

- **Normalising listings (`DataProcessor`).** It cleans a table of listing rows: it drops untitled rows, fills missing cells and removes duplicate urls. It turns each row into the labelled descriptive text that is embedded, and into the structured metadata that is filtered and scored.
- **Parsing the language-model query (`QueryEnhancer`).** It strips markdown fences from the model's reply. It parses the reply with an ordered chain of JSON strategies ending in a regex extractor that never fails. It validates the required keys and cleans the filters. On any failure it falls back to passing the user's query through. It also states when showing the parsed analysis raises, an exception that stops the search.
- **Ranking (`SearchEngine`).** It runs the fallback query expansion and the clamped relevance score. It applies the structured filters and assembles the result list from the retrieved candidates: strict pass, conditional relaxation, stable descending sort, de-duplication by url, truncation.

Supporting modules:

| module | contents |
|---|---|
| `Wrappers` | `Option` and `Result` |
| `Values` | the metadata scalars `Num`/`Str` and decoded JSON |
| `Text` | Python's `strip`, `lower`, `in`, `replace`, `join`, `find` and `rfind` on strings |
| `Seqs` | keep-first de-duplication, shared by pandas' `drop_duplicates` and the search's url loop |

External services are parameters:

| service | parameter |
|---|---|
| the language model | `llm: string -> Option<string>`, `None` when the call or its reply fails |
| `json.loads` | `loads: string -> Option<Json>` |
| the regex repair strategy | `repair: string -> string` |
| `str()` of a float | `show: real -> string` |
| `round(x, 2)` | `round2: real -> real` |
| pandas' parse of a numeric string | `parseNum: string -> Option<real>` |
| embedding and vector retrieval | the retrieved `(document, metadata, distance)` candidates are an input of `SearchEngine.Search` |

Each imperative source function is a method proved equal to a specification function. The properties the source promises are lemmas about that function. The imperative functions and their methods:

- `build_descriptive_text`, which appends to a list (`DataProcessor.BuildDescriptiveText`);
- `build_structured_metadata`, which fills a dictionary in loops (`DataProcessor.BuildStructuredMetadata`);
- `enhance_query`, which reassigns the query term by term (`SearchEngine.EnhanceQuery`);
- `search`, which appends, sorts and de-duplicates (`SearchEngine.StrictPass`, `Relax`, `UniqueByUrl` and `Search`);
- the fence stripping of `parse_query_to_json`, which reassigns the content (`QueryEnhancer.StripFences`, inside `ParseQueryToJson`);
- `_validate_parsed_query`, which checks keys in a loop and replaces the filters (`QueryEnhancer.ValidateParsedQuery`);
- `_extract_with_regex`, which fills the result dictionary step by step (`QueryEnhancer.ExtractWithRegex`).

## Model

| member | source | states |
|---|---|---|
| SearchEngine.EnhanceQuery | src/search_engine.py:30-37 | The lowered query with each mapped term, in mapping order, replaced by the term followed by its expansion wherever the term occurs at that point. |
| SearchEngine.EnhanceWithoutTerms | src/search_engine.py:30-37 | A query whose lowered form contains no mapped term is returned just lower-cased. |
| SearchEngine.EnhancedQuery | src/search_engine.py:30-37 | What enhance_query returns is never shorter than the query. |
| SearchEngine.EnhanceExpandsTerm | src/search_engine.py:34-35 | Suppose a term is present when the loop reaches it. Then the text afterwards contains that term's expansion. |
| SearchEngine.Score | src/search_engine.py:40-71 | The relevance score always lies in [0, 1]. It equals the weighted sum whenever that sum already lies in [0, 1]. |
| SearchEngine.ScoreAntitone | src/search_engine.py:42 | With the metadata fixed, a larger distance never yields a higher score. |
| SearchEngine.ScoreReadsOnlyScoreKeys | src/search_engine.py:45-61 | Two metadata maps that agree on completeness_score, precio, Habitaciones, metros, barrio and distrito get the same score. |
| SearchEngine.StoredMetadataIsWellTyped | src/data_processor.py:104-126 | The metadata the processor stores holds numbers under precio, Habitaciones, metros and completeness_score, and strings under tipo and localidad. These are the types the score and filters need to avoid a TypeError. |
| SearchEngine.ApplyFilters | src/search_engine.py:139-184 | With no filters every candidate is kept. An error always names a filter that was given and is one of the seven checked keys. |
| SearchEngine.ApplyFiltersMeansAccepted | src/search_engine.py:139-184 | A candidate is kept exactly when none of the seven checks, taken in order, rejects it or raises. |
| SearchEngine.OtherFilterKeysIgnored | src/search_engine.py:139-184 | Filter keys other than precio_max, precio_min, habitaciones, tipo, localidad, metros_min and metros_max never change the outcome. These include banos, barrio and distrito. |
| SearchEngine.AbsentOrZeroPasses | src/search_engine.py:145-159 | A numeric check lets a candidate on when the candidate's field is absent or 0. |
| SearchEngine.TextFilterRejects | src/search_engine.py:162-171 | The tipo and localidad checks reject unless the lowered filter value occurs in the lowered field. An absent field counts as "", so every non-empty value rejects it. |
| SearchEngine.ScoreHit | src/search_engine.py:102-108 | A result item carries its candidate's document, metadata and distance, and the relevance score of that metadata and distance. |
| SearchEngine.CandidatePoolBounds | src/search_engine.py:88 | The retrieval requests at most 30 candidates and at most 3n. For n up to 30 it requests at least n. |
| SearchEngine.UrlTaken | src/search_engine.py:115 | True exactly when some collected item has the same url entry, absent entries comparing equal. |
| SearchEngine.Insert | src/search_engine.py:125 | Insertion into the sorted list adds exactly the new item. |
| SearchEngine.SortByScore | src/search_engine.py:125 | The sort is a permutation of its input. |
| SearchEngine.SortByScoreSorted | src/search_engine.py:125 | After the sort, scores never increase along the list. |
| SearchEngine.SortByScoreStable | src/search_engine.py:125 | The sort is stable: the items with any given score keep their relative order. |
| SearchEngine.StrictFailsExactly | src/search_engine.py:99-108 | The strict pass raises exactly when the filters raise on some candidate. |
| SearchEngine.StrictKeepsOnlyAccepted | src/search_engine.py:99-108 | Every strict-pass item is a scored candidate that the filters keep. The pass has no more items than candidates. |
| SearchEngine.StrictKeepsAllAccepted | src/search_engine.py:99-108 | Every candidate the filters keep is in the strict pass, scored. |
| SearchEngine.StrictWithoutFilters | src/search_engine.py:99-108 | With no filters the strict pass keeps every candidate, scored, in order. |
| SearchEngine.RelaxKeepsStrict | src/search_engine.py:111-122 | The relaxation keeps the strict items as a prefix and appends at most one item per candidate. |
| SearchEngine.RelaxAddsRetrieved | src/search_engine.py:114-122 | Every item the relaxation appends is a scored retrieved candidate. |
| SearchEngine.RelaxAddsNewUrls | src/search_engine.py:115 | Every appended item has a url entry that no earlier item has. |
| SearchEngine.RelaxationAppendsNewUrls | src/search_engine.py:111-122 | Items are added beyond the strict pass only when it found fewer than n items and filters were given. The additions are retrieved candidates whose url no earlier item has. |
| SearchEngine.CollectedWithoutFilters | src/search_engine.py:99-122 | Without filters nothing is dropped and nothing is relaxed: the collected items are all candidates, scored, in order. |
| SearchEngine.CollectedAreRetrieved | src/search_engine.py:99-122 | Every collected item is a retrieved candidate with its own relevance score. |
| SearchEngine.SearchFailsExactly | src/search_engine.py:99-108 | search raises exactly when the filters raise on some retrieved candidate. |
| SearchEngine.SearchWithoutCandidates | src/search_engine.py:95-96 | No retrieved documents give no results, whatever the filters. |
| SearchEngine.SearchResultSize | src/search_engine.py:128-137 | The result holds min(n, k) items, where k is the number of distinct url keys among the collected items. So it never exceeds n. |
| SearchEngine.RelaxCovers | src/search_engine.py:114-122 | After the relaxation loop, the url entry of every retrieved candidate is the url entry of some collected item. |
| SearchEngine.CandidateKey | src/search_engine.py:132 | The de-duplication key of a candidate is its url, or "" when it has none. |
| SearchEngine.CollectedKeys | src/search_engine.py:110-122 | When the strict pass found fewer than n items and filters were given, or no filters were given, the collected items carry exactly the url keys of the retrieved candidates. |
| SearchEngine.SearchResultCount | src/search_engine.py:110-137 | In that case the result holds min(n, k) items, where k is the number of distinct url keys among all retrieved candidates. Filters then never make the result shorter. |
| SearchEngine.SearchOutcome | src/search_engine.py:74-137 | No retrieved documents give no results. search fails exactly when collecting the candidates fails. A result never holds more than n items. |
| SearchEngine.SearchResultSorted | src/search_engine.py:125-137 | Scores never increase along the result. |
| SearchEngine.SearchResultUnique | src/search_engine.py:128-135 | No two results share the key metadata.get('url', ''), so at most one url-less result survives. |
| SearchEngine.SearchResultsAreRetrieved | src/search_engine.py:99-137 | Every result is a retrieved candidate carrying its own relevance score. |
| SearchEngine.StrictResultsPassFilters | src/search_engine.py:99-137 | When no relaxation happened, every result passes the filters. This is the case when the strict pass found at least n items, or when no filters were given. |
| SearchEngine.SearchTopIsBest | src/search_engine.py:125-137 | The first result scores at least as much as every collected item. |
| SearchEngine.StrictPass | src/search_engine.py:99-108 | The loop builds the strict pass, scoring each candidate the filters keep, in retrieval order, or returns the error the filters raise. |
| SearchEngine.Relax | src/search_engine.py:111-122 | The loop appends, in retrieval order, every candidate whose url no collected item has. |
| SearchEngine.UniqueByUrl | src/search_engine.py:128-135 | Tracking the urls seen, the loop keeps the first item of each url key. |
| SearchEngine.Search | src/search_engine.py:74-137 | The post-retrieval part of search, given at most min(3n, 30) retrieved candidates, the most the store returns for the request. With the default of 3 results when none is given, it returns the strict pass, relaxed when needed, sorted, de-duplicated and cut to n, or the filter error. |
| Seqs.DedupFrom | src/search_engine.py:128-135 | Keep-first de-duplication. Every output item is an input item with an unseen key, no two outputs share a key, and the output is no longer than the input. |
| Seqs.DedupKeys | src/search_engine.py:128-135 | Every key not already seen survives once: the output keys are the input keys, one item per key. |
| Seqs.DedupKeepsFirst | src/search_engine.py:131-135 | The first item carrying a key survives de-duplication. |
| Seqs.DedupKeepsOrder | src/search_engine.py:125-135 | De-duplicating a list with non-increasing scores keeps the scores non-increasing. |
| Text.Strip | src/query_enhancer.py:111 | str.strip(): the result has no surrounding white space and is no longer than the input. |
| Text.TrimStartDropsSpaces | src/query_enhancer.py:111 | strip removes only white space at the front. |
| Text.TrimEndDropsSpaces | src/query_enhancer.py:111 | strip removes only white space at the back. |
| Text.StripStripped | src/query_enhancer.py:122 | Stripping a string without surrounding white space changes nothing. |
| Text.StripPadded | src/query_enhancer.py:122 | One white-space character on each side of a stripped string is removed. |
| Text.Lower | src/search_engine.py:31 | str.lower() maps character by character, so the length is kept. |
| Text.ReplaceAll | src/search_engine.py:35 | str.replace leaves a text without the pattern unchanged, and also a pattern replaced by itself. |
| Text.ReplaceAllGrows | src/search_engine.py:35 | Replacing a term by something at least as long never shortens the text. |
| Text.ReplaceAllContainsReplacement | src/search_engine.py:35 | Text holding the term holds the replacement afterwards. |
| Text.Join | src/data_processor.py:91 | Joining no parts gives "". Otherwise the length is the parts' total length plus one separator between each two parts. |
| Text.JoinContains | src/data_processor.py:91 | Every part occurs in the joined string. |
| Text.JoinStartsWith | src/data_processor.py:91 | The joined string begins with the first part. |
| Text.ContainsInEmpty | src/search_engine.py:163-164 | The empty string contains only the empty string. |
| Text.Find | src/query_enhancer.py:186 | str.find: the first index of the character, or -1 exactly when it is absent. |
| Text.RFind | src/query_enhancer.py:187 | str.rfind: the last index of the character, or -1 exactly when it is absent. |
| DataProcessor.BuildDescriptiveText | src/data_processor.py:56-91 | The text joins with newlines one labelled line per present, non-empty text field, in column order, or the fallback line. The text is never empty. |
| DataProcessor.LineAtIndex | src/data_processor.py:63-85 | A present field's line "Label: value" sits among the lines at the position given by the number of present earlier fields. |
| DataProcessor.LinesOrdered | src/data_processor.py:63-85 | The lines follow the order titulo, direccion, caract, caract_extra, descrip, descrip_keywords. |
| DataProcessor.LinesEmpty | src/data_processor.py:63-89 | There are no labelled lines exactly when no text field is present and non-empty. |
| DataProcessor.DescriptiveTextNonEmpty | src/data_processor.py:87-91 | The descriptive text of any row is non-empty. |
| DataProcessor.FallbackExactlyWhenNoText | src/data_processor.py:87-89 | The text is exactly "Propiedad inmobiliaria" when, and only when, no text field is present and non-empty. |
| DataProcessor.PresentFieldIsInText | src/data_processor.py:63-85 | Every present, non-empty text field appears in the text as "Label: value". |
| DataProcessor.TitleLeadsText | src/data_processor.py:64-65 | A present title opens the text as "Propiedad: title". |
| DataProcessor.BuildStructuredMetadata | src/data_processor.py:95-131 | The loops build the structured metadata, which carries numbers under numeric keys and strings under categorical and url keys. |
| DataProcessor.NumericUpToContents | src/data_processor.py:104-106 | The numeric loop keeps exactly the present non-zero numeric cells, unchanged. |
| DataProcessor.CategoricalUpToContents | src/data_processor.py:109-113 | The categorical loop adds exactly the present categorical cells that do not render as a placeholder. |
| DataProcessor.CategoricalUpToValues | src/data_processor.py:104-113 | Numeric cells pass the categorical loop unchanged, and categorical cells are stored as their rendering. |
| DataProcessor.MetadataKeys | src/data_processor.py:95-131 | Every key is a numeric or categorical column, url, precio_por_m2 or completeness_score. completeness_score is always present. |
| DataProcessor.MetadataNumbers | src/data_processor.py:104-106 | A numeric column is present exactly when its cell is a present, non-zero number, and it holds that number. |
| DataProcessor.MetadataCategories | src/data_processor.py:108-113 | A categorical column is present exactly when its cell is present and not a placeholder. It holds the cell's rendering, which is never 'No especificado', 'nan', '' or 'None'. |
| DataProcessor.MetadataUrl | src/data_processor.py:116-117 | url is present exactly when url_inmueble is present and renders non-empty, and holds that rendering. An empty url is dropped by the final filter. |
| DataProcessor.MetadataPricePerArea | src/data_processor.py:120-121 | precio_por_m2 is present exactly when precio and metros both are, and is round(precio / metros, 2). |
| DataProcessor.MetadataNoEmptyValue | src/data_processor.py:129 | No metadata value is the empty string. |
| DataProcessor.MetadataCompleteness | src/data_processor.py:124-126 | completeness_score is the number of other entries over 20. This counts url and precio_por_m2, so it is a multiple of 0.05 in [0, 1.1]. |
| DataProcessor.MetadataIsTyped | src/data_processor.py:104-126 | Numeric keys hold numbers, and categorical keys and url hold strings. |
| DataProcessor.Titled | src/data_processor.py:25-26 | dropna on titulo keeps exactly the input rows that have a title. |
| DataProcessor.FillCell | src/data_processor.py:28-41 | A filled cell of a text, numeric or categorical column is never missing. Numeric cells are coerced, with an unparseable or missing value becoming 0. Every other present cell is unchanged. A missing text cell becomes '' and a missing categorical cell 'No especificado'. Cells of other columns are untouched. |
| DataProcessor.FillRow | src/data_processor.py:28-41 | Filling a row keeps its columns. No text, numeric or categorical cell stays missing, every numeric cell holds the coerced number, and every other present cell is unchanged. |
| DataProcessor.FillRowIsClean | src/data_processor.py:28-41 | A filled titled row has a present cell in every text, numeric and categorical column, and numbers in the numeric ones. Its url_inmueble is unchanged. |
| DataProcessor.CleanDataframe | src/data_processor.py:19-52 | Cleaning fails exactly when there is no titulo column. It keeps the columns, never lengthens the table, and every cleaned row still has exactly the table's columns. |
| DataProcessor.CleanedRowsComeFromTitledRows | src/data_processor.py:25-41 | Every cleaned row is clean and is the filled form of some titled input row. |
| DataProcessor.CleanedRowsAreUnique | src/data_processor.py:43-47 | No two cleaned rows share a url_inmueble cell, a missing url counting as one value. Without that column, no two cleaned rows are equal. |
| DataProcessor.CleanKeepsOneRowPerUrl | src/data_processor.py:44-45 | The cleaned rows carry exactly the urls of the titled rows, one row per url. |
| DataProcessor.CleanKeepsFirstRowPerUrl | src/data_processor.py:44-45 | The first titled row with a given url survives, filled. |
| DataProcessor.CleanKeepsEveryTitledRow | src/data_processor.py:46-47 | Without a url_inmueble column every titled row survives, filled, once equal rows are merged. |
| QueryEnhancer.Passthrough | src/query_enhancer.py:138-146 | The fallback query holds the user's query, no filters, and empty preferences with ubicacion_tipo null. |
| QueryEnhancer.CleanContent | src/query_enhancer.py:111-122 | The cleaned reply has no surrounding white space and is no longer than the reply. |
| QueryEnhancer.CleanJsonFenced | src/query_enhancer.py:111-122 | A stripped body fenced as ```json ... ``` on lines of its own comes back unchanged. |
| QueryEnhancer.CleanPlainFenced | src/query_enhancer.py:111-122 | A stripped body fenced as ``` ... ``` on lines of its own comes back unchanged. |
| QueryEnhancer.CleanUnfenced | src/query_enhancer.py:111-122 | A stripped reply with no fence at either end is left as it is. |
| QueryEnhancer.StripFences | src/query_enhancer.py:111-122 | Reassigning the content step by step (strip, drop ```json, drop ```, drop a trailing ```, strip) gives the cleaned reply. |
| QueryEnhancer.SkipSpacesMaximal | src/query_enhancer.py:213 | \s* consumes white space only, and all of it. |
| QueryEnhancer.SkipDigitsMaximal | src/query_enhancer.py:218 | \d+ stops only at a non-digit or at the end. |
| QueryEnhancer.MatchAt | src/query_enhancer.py:213-223 | Where a pattern matches, the quoted key stands at that index. A quoted capture holds no quote, and a digit capture is a non-empty run of digits. |
| QueryEnhancer.Search | src/query_enhancer.py:213-223 | re.search finds no group exactly when the pattern matches at no index. Otherwise the group is the one matched at an index before which the pattern matches nowhere. |
| QueryEnhancer.DigitsValue | src/query_enhancer.py:220 | int() of a run of d digits is below 10 to the power d. |
| QueryEnhancer.DigitsValueOfDecimal | src/query_enhancer.py:220 | int(str(n)) == n: a room count written in decimal is read back unchanged. |
| QueryEnhancer.CaptureAt | src/query_enhancer.py:213-223 | A quoted capture holds no quote. A digit capture is a non-empty run of digits. |
| QueryEnhancer.FirstMatch | src/query_enhancer.py:213-223 | re.search finds the leftmost index where the pattern matches, or none when it matches nowhere. |
| QueryEnhancer.QuotedValueAtStart | src/query_enhancer.py:213-215 | A key written with a quoted value at the start of the content is found with exactly that value. |
| QueryEnhancer.RegexQuery | src/query_enhancer.py:202-225 | The regex result holds exactly the three keys and empty preferences. habitaciones is present exactly when a room count was captured, and tipo exactly when a type was. |
| QueryEnhancer.RegexResult | src/query_enhancer.py:198-228 | semantic_query is the first quoted value after "semantic_query":, or "" when there is none. The filters hold only habitaciones, as the integer of the captured digits, and tipo, each exactly when its pattern matches. |
| QueryEnhancer.ExtractWithRegex | src/query_enhancer.py:198-228 | Mutating the result dictionary step by step yields the regex result. |
| QueryEnhancer.BraceSlice | src/query_enhancer.py:186-189 | The slice exists exactly when a { exists and the last } follows it. It is content[find('{') : rfind('}') + 1], which opens with { and closes with }. |
| QueryEnhancer.BraceSliceOfWrapped | src/query_enhancer.py:186-190 | A braced body with no { before it and no } after it is cut out exactly. |
| QueryEnhancer.SafeJsonParse | src/query_enhancer.py:164-196 | The parse never fails. When the content parses directly, the result is that parse. When no strategy parses, the result is the regex extraction. |
| QueryEnhancer.OnlyRepairParses | src/query_enhancer.py:174-179 | When only the repaired content parses, its parse is the result. |
| QueryEnhancer.OnlyBraceSliceParses | src/query_enhancer.py:183-190 | When only the braced slice parses, its parse is the result. |
| QueryEnhancer.FirstMissing | src/query_enhancer.py:152-154 | The first required key, in order, that the parse lacks, or none when all are present. |
| QueryEnhancer.CleanFilters | src/query_enhancer.py:157-162 | Exactly the filters whose value is neither null nor "" are kept, unchanged. |
| QueryEnhancer.Validate | src/query_enhancer.py:148-162 | Validation succeeds exactly on an object with the three required keys whose filters are an object. It then keeps every other entry and replaces the filters by their cleaned copy. A missing key is reported as the first missing one. |
| QueryEnhancer.ValidateParsedQuery | src/query_enhancer.py:148-162 | The key-checking loop and the filter replacement compute the validation. |
| QueryEnhancer.ParseContent | src/query_enhancer.py:128-146 | The parse of any content has the three required keys and filters that are an object with no null or "" value. |
| QueryEnhancer.ParseResponse | src/query_enhancer.py:99-146 | The same holds for any reply. No reply gives the passthrough. |
| QueryEnhancer.ParseQuery | src/query_enhancer.py:99-146 | parse_query_to_json always returns a structured query. When the model call fails, it returns the passthrough. |
| QueryEnhancer.ParseQueryToJson | src/query_enhancer.py:99-146 | The method asks the model, strips fences, parses, validates and falls back to the passthrough. |
| QueryEnhancer.EnhancedQueryInfo | src/query_enhancer.py:230-239 | A successful result is exactly what parse_query_to_json returns. Only showing the analysis can fail. |
| QueryEnhancer.GetEnhancedQueryInfo | src/query_enhancer.py:230-239 | The method parses the query and, when show_analysis is set, shows the analysis, failing with the display's exception. |
| QueryEnhancer.FailedCallIsShown | src/query_enhancer.py:230-239 | When the model call fails, the passthrough is returned and shown without error. |
| QueryEnhancer.NoPriceNoPreferencesIsShown | src/query_enhancer.py:241-306 | A query with no price filter and empty preferences is shown without error. |
| QueryEnhancer.RegexFallbackIsShown | src/query_enhancer.py:241-306 | When no strategy parses, the regex extraction is always shown without error. |
| QueryEnhancer.WordPriceRaises | src/query_enhancer.py:258-262 | A reply parsed to a precio_max written as a non-empty string is accepted, and showing it then raises. |
| QueryEnhancer.DirectParseAccepted | src/query_enhancer.py:128-133 | Content that parses directly to an object with the required keys yields that object with its filters cleaned. |
| QueryEnhancer.InvalidParseIsPassthrough | src/query_enhancer.py:131-146 | A parse that is not an object, or that lacks a required key, gives the passthrough. |
| QueryEnhancer.RegexFallbackResult | src/query_enhancer.py:194-215 | When no strategy parses, the result is the regex extraction with its filters cleaned, never the passthrough. Its semantic query is the extracted one or "", never the user's query. |
| QueryEnhancer.FencedReplyAccepted | src/query_enhancer.py:111-133 | A ```json-fenced reply whose body parses to an object with the required keys is accepted as that object, filters cleaned. |

## Left out

- **Outside services.** The OpenAI chat call, embedding generation and the ChromaDB query are not modelled. The chat call is the parameter `llm`. Retrieval is the candidate list given to `SearchEngine.Search`. The embedding model's large-to-small retry is not part of this model.
- **The result count.** `CandidatePool` states the `min(3n, 30)` request size. `SearchEngine.Search` requires no more candidates than that, since the vector store returns at most the number requested. It may return fewer.
- **Parser internals.** `json.loads` and the two `re.sub` repairs of the second strategy are the opaque parameters `loads` and `repair`. Their library behaviour cannot be seen. The regex extractor's three patterns are modelled concretely.
- **Floating point.** Distances, prices and scores are exact reals; IEEE rounding is not modelled.
  - round(x, 2) for precio_por_m2 is the parameter round2.
  - The completeness score is filled/20 with no rounding. That is exactly what the source stores, because filled/20 is a multiple of 0.05 and round(·, 2) leaves it unchanged.
- **Number formatting.** `str()` of a float is the parameter `show`. pandas' parse of a numeric string is the parameter `parseNum`.
- **Output only.** What `_display_analysis` prints and all of `test_query_parsing` are left out. `test_query_parsing` only prints and reads console input. When `_display_analysis` raises is modelled, by `QueryEnhancer.DisplayRaises`. These are a missing key, truthy filters that are not an object, preferences that are not an object, a price that `{value:,}` cannot format, and a preference list `', '.join` cannot join.
- QueryEnhancer.GetEnhancedQueryInfo: the display error does not say which exception (KeyError, AttributeError, ValueError or TypeError) is raised.
- SearchEngine.Search: starts from the parsed filters. The analysis before it (src/search_engine.py:80) is get_enhanced_query_info with show_analysis set, so a query whose display raises never reaches retrieval. That step is `QueryEnhancer.EnhancedQueryInfo`.
- Text.LowerChar: str.lower() is modelled for ASCII and Latin-1 capital letters only (including Á, É, Í, Ó, Ú, Ü, Ñ), which covers Spanish listings. Other Unicode case mappings are not modelled.
- QueryEnhancer.IsDigit: `\d` is modelled as the ASCII digits only, not every Unicode decimal digit.
- SearchEngine.ResultCount: a negative n_results is not modelled (the count is a natural number). The callers pass 1 to 10.
- SearchEngine.Search: requires the candidates' metadata to be well typed (numbers under precio, Habitaciones, metros and completeness_score, strings under tipo and localidad). Ill-typed metadata would make Python raise inside the score or the filters. `StoredMetadataIsWellTyped` proves that the metadata the processor stores meets this.
- SearchEngine.ApplyFilters: the TypeError and AttributeError that ill-typed filter values raise are one error value, `FilterError`. Which operand Python inspects first is not distinguished.
- SearchEngine.Score: the unused `doc` and `query` parameters of calculate_relevance_score are dropped.
- SearchEngine.SortByScore: list.sort(reverse=True) is modelled by what it computes, a stable descending sort written as an insertion sort function. Python's in-place Timsort is not modelled.
- SearchEngine.Search: the single Python function is split into the methods StrictPass, Relax and UniqueByUrl plus a sort.
- DataProcessor.BuildStructuredMetadata: requires numbers (or nothing) in the numeric columns, as clean_dataframe leaves them. `float()` of a string cell in an uncleaned row is not modelled.
- DataProcessor.CleanDataframe: a table is a set of column names and a sequence of row maps. pandas' index and dtypes are not modelled, and the printed row counts are left out.
- QueryEnhancer.ValidateParsedQuery: returns the validated dictionary as a new value rather than mutating the caller's dictionary in place; nothing else holds a reference to the parse.
- QueryEnhancer.ParseQueryToJson: the source catches every exception. The model reaches the passthrough from two sources: a failed model call (llm returns None) and a failed validation. Validation fails on a non-object parse, a missing required key, or filters that are not an object. No other exception can arise in the modelled code.
