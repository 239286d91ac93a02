/** The property search engine after retrieval: the fallback query expansion,
    the relevance score, the structured filters and the assembly of the result
    list (strict pass, relaxation, descending sort, de-duplication by url,
    truncation). Embedding and vector search stay outside: the retrieved
    (document, metadata, distance) triples are an input. */
module SearchEngine {

  import opened Wrappers
  import opened Values
  import opened Text
  import opened Seqs
  import DataProcessor

  /** Config.DEFAULT_RESULTS, used when no result count is given. */
  const DefaultResults: nat := 3

  /** The most candidates ever requested from the vector store. */
  const MaxCandidates: nat := 30

  const UrlKey := "url"
  const CompletenessKey := "completeness_score"
  const Unspecified := "No especificado"

  function Min(a: int, b: int): int { if a <= b then a else b }
  function Max(a: real, b: real): real { if a >= b then a else b }

  // ---------------------------------------------------------------- expansion

  /** The fallback vocabulary, in the dictionary's insertion order. */
  const QueryMapping: seq<(string, string)> := [
    ("chip", "cheap inexpensive low-cost affordable budget"),
    ("cheap", "inexpensive affordable budget low-cost"),
    ("expensive", "costly high-end luxury premium pricey"),
    ("big", "large spacious roomy vast huge"),
    ("small", "compact tiny little cozy"),
    ("flat", "apartment unit condo"),
    ("house", "home dwelling residence property"),
    ("near", "close proximity nearby"),
    ("center", "central downtown city-center"),
    ("modern", "contemporary new renovated updated")
  ]

  lemma TermsAreNonEmpty()
    ensures forall j :: 0 <= j < |QueryMapping| ==> QueryMapping[j].0 != []
  {
  }

  /** What a term is replaced by: the term itself followed by its expansion. */
  function Expansion(j: nat): string
    requires j < |QueryMapping|
  {
    QueryMapping[j].0 + " " + QueryMapping[j].1
  }

  /** The lowered query after the loop has visited terms 0 .. i-1. */
  function ExpandedUpTo(query: string, i: nat): string
    requires i <= |QueryMapping|
  {
    if i == 0 then Lower(query)
    else
      var text := ExpandedUpTo(query, i - 1);
      var term := QueryMapping[i - 1].0;
      TermsAreNonEmpty();
      if Contains(text, term) then ReplaceAll(text, term, Expansion(i - 1)) else text
  }

  /** What enhance_query returns: never shorter than the query. */
  function EnhancedQuery(query: string): (r: string)
    ensures |r| >= |query|
  {
    ExpandedUpToGrows(query, |QueryMapping|);
    ExpandedUpTo(query, |QueryMapping|)
  }

  /** enhance_query: lower-cases the query, then expands each term found in it, in order. */
  method EnhanceQuery(query: string) returns (enhanced: string)
    ensures enhanced == EnhancedQuery(query)
  {
    enhanced := Lower(query);
    for i := 0 to |QueryMapping|
      invariant enhanced == ExpandedUpTo(query, i)
    {
      var (term, expansion) := QueryMapping[i];
      TermsAreNonEmpty();
      if Contains(enhanced, term) {
        enhanced := ReplaceAll(enhanced, term, term + " " + expansion);
      }
    }
  }

  lemma {:induction false} UnexpandedUpTo(query: string, i: nat)
    requires i <= |QueryMapping|
    requires forall j :: 0 <= j < |QueryMapping| ==> !Contains(Lower(query), QueryMapping[j].0)
    ensures ExpandedUpTo(query, i) == Lower(query)
  {
    if i > 0 {
      UnexpandedUpTo(query, i - 1);
    }
  }

  /** A query that mentions no mapped term comes back only lower-cased. */
  lemma EnhanceWithoutTerms(query: string)
    requires forall j :: 0 <= j < |QueryMapping| ==> !Contains(Lower(query), QueryMapping[j].0)
    ensures EnhancedQuery(query) == Lower(query)
  {
    UnexpandedUpTo(query, |QueryMapping|);
  }

  lemma {:induction false} ExpandedUpToGrows(query: string, i: nat)
    requires i <= |QueryMapping|
    ensures |ExpandedUpTo(query, i)| >= |query|
  {
    if i > 0 {
      ExpandedUpToGrows(query, i - 1);
      TermsAreNonEmpty();
      var text := ExpandedUpTo(query, i - 1);
      var term := QueryMapping[i - 1].0;
      if Contains(text, term) {
        ReplaceAllGrows(text, term, Expansion(i - 1));
      }
    }
  }

  /** A term present in the text when its turn comes leaves its expansion in the text. */
  lemma EnhanceExpandsTerm(query: string, j: nat)
    requires j < |QueryMapping| && Contains(ExpandedUpTo(query, j), QueryMapping[j].0)
    ensures Contains(ExpandedUpTo(query, j + 1), Expansion(j))
  {
    TermsAreNonEmpty();
    ReplaceAllContainsReplacement(ExpandedUpTo(query, j), QueryMapping[j].0, Expansion(j));
  }

  // -------------------------------------------------------------------- score

  /** An optional entry that, when present, is a number. */
  predicate NumberOrAbsent(meta: map<string, Value>, k: string) {
    k in meta ==> meta[k].Num?
  }

  /** An optional entry that, when present, is a string. */
  predicate TextOrAbsent(meta: map<string, Value>, k: string) {
    k in meta ==> meta[k].Str?
  }

  /** The entries the score and the filters compare or do arithmetic with have
      the types the stored metadata gives them; otherwise Python raises. */
  predicate WellTyped(meta: map<string, Value>) {
    && NumberOrAbsent(meta, "precio") && NumberOrAbsent(meta, "Habitaciones")
    && NumberOrAbsent(meta, "metros") && NumberOrAbsent(meta, CompletenessKey)
    && TextOrAbsent(meta, "tipo") && TextOrAbsent(meta, "localidad")
  }

  /** The metadata build_structured_metadata produces is well typed for the search. */
  lemma StoredMetadataIsWellTyped(md: map<string, Value>)
    requires DataProcessor.MetadataTyped(md)
    ensures WellTyped(md)
  {
    assert DataProcessor.NumericalColumns[0] == "precio" && DataProcessor.NumericalColumns[1] == "metros";
    assert DataProcessor.NumericalColumns[2] == "Habitaciones";
    assert DataProcessor.CategoricalColumns[0] == "tipo" && DataProcessor.CategoricalColumns[3] == "localidad";
  }

  /** The bonus for a critical number that is present and positive. */
  function CriticalBonus(meta: map<string, Value>, k: string, weight: real): real
    requires NumberOrAbsent(meta, k)
  {
    if Truthy(Get(meta, k)) && meta[k].n > 0.0 then weight else 0.0
  }

  /** The bonus for a location entry that is present and not the placeholder. */
  function LocationBonus(meta: map<string, Value>, k: string): real {
    if Truthy(Get(meta, k)) && meta[k] != Str(Unspecified) then 0.05 else 0.0
  }

  /** The weighted sum before clamping. */
  function RawScore(meta: map<string, Value>, distance: real): real
    requires WellTyped(meta)
  {
    var semantic := Max(0.0, 1.0 - distance);
    var completeness := if CompletenessKey in meta then meta[CompletenessKey].n else 0.5;
    var critical := CriticalBonus(meta, "precio", 0.15) + CriticalBonus(meta, "Habitaciones", 0.10)
      + CriticalBonus(meta, "metros", 0.10);
    var location := LocationBonus(meta, "barrio") + LocationBonus(meta, "distrito");
    semantic * 0.6 + completeness * 0.2 + critical + location
  }

  /** calculate_relevance_score: the weighted sum clamped to [0, 1]. */
  function Score(meta: map<string, Value>, distance: real): (r: real)
    requires WellTyped(meta)
    ensures 0.0 <= r <= 1.0
    ensures 0.0 <= RawScore(meta, distance) <= 1.0 ==> r == RawScore(meta, distance)
  {
    var raw := RawScore(meta, distance);
    if 1.0 <= Max(0.0, raw) then 1.0 else Max(0.0, raw)
  }

  /** A closer document never scores lower. */
  lemma ScoreAntitone(meta: map<string, Value>, near: real, far: real)
    requires WellTyped(meta) && near <= far
    ensures Score(meta, far) <= Score(meta, near)
  {
  }

  /** The keys the score reads. */
  const ScoreKeys: set<string> := {CompletenessKey, "precio", "Habitaciones", "metros", "barrio", "distrito"}

  /** Entries other than the six the score reads do not change it. */
  lemma ScoreReadsOnlyScoreKeys(m1: map<string, Value>, m2: map<string, Value>, distance: real)
    requires WellTyped(m1) && WellTyped(m2)
    requires forall k :: k in ScoreKeys ==> Get(m1, k) == Get(m2, k)
    ensures Score(m1, distance) == Score(m2, distance)
  {
    assert Get(m1, CompletenessKey) == Get(m2, CompletenessKey);
    assert Get(m1, "precio") == Get(m2, "precio");
    assert Get(m1, "Habitaciones") == Get(m2, "Habitaciones");
    assert Get(m1, "metros") == Get(m2, "metros");
    assert Get(m1, "barrio") == Get(m2, "barrio");
    assert Get(m1, "distrito") == Get(m2, "distrito");
  }

  // ------------------------------------------------------------------ filters

  /** How a filter compares the candidate's field with the filter's value. */
  datatype Test = AtMost | AtLeast | Differs | Within

  /** The filter named key applies test to the metadata entry field. */
  datatype Rule = Rule(key: string, field: string, test: Test)

  /** The filters in the order _apply_filters checks them. */
  const Rules: seq<Rule> := [
    Rule("precio_max", "precio", AtMost),
    Rule("precio_min", "precio", AtLeast),
    Rule("habitaciones", "Habitaciones", Differs),
    Rule("tipo", "tipo", Within),
    Rule("localidad", "localidad", Within),
    Rule("metros_min", "metros", AtLeast),
    Rule("metros_max", "metros", AtMost)
  ]

  /** The filter keys that are checked at all. */
  const RuleKeys: set<string> := {"precio_max", "precio_min", "habitaciones", "tipo", "localidad", "metros_min", "metros_max"}

  /** What _apply_filters raises: a TypeError when a number is ordered against
      something that is not a number, an AttributeError when a text filter is not a string. */
  datatype FilterError = Unordered(key: string) | NotText(key: string)

  /** A JSON value in a comparison with a float: numbers, and booleans as 0 and 1. */
  function AsNumber(v: Json): Option<real> {
    match v
    case JNum(y) => Some(y)
    case JBool(b) => Some(if b then 1.0 else 0.0)
    case _ => None
  }

  /** The field has the type the rule's test needs. */
  predicate FieldFits(field: Option<Value>, test: Test) {
    field.None? || (if test == Within then field.value.Str? else field.value.Num?)
  }

  lemma WellTypedFieldsFit(meta: map<string, Value>)
    requires WellTyped(meta)
    ensures forall i :: 0 <= i < |Rules| ==> FieldFits(Get(meta, Rules[i].field), Rules[i].test)
  {
  }

  /** Whether one filter rejects: Success(true) rejects, Success(false) lets the candidate on. */
  function Rejects(field: Option<Value>, rule: Rule, wanted: Json): (r: Result<bool, FilterError>)
    requires FieldFits(field, rule.test)
    ensures r.Failure? ==> r.error.key == rule.key
  {
    if rule.test == Within then
      var text := if field.Some? then field.value.s else "";
      match wanted
      case JStr(w) => Success(!Contains(Lower(text), Lower(w)))
      case _ => Failure(NotText(rule.key))
    else if !Truthy(field) then Success(false)
    else
      var x := field.value.n;
      match rule.test
      case Differs => Success(AsNumber(wanted) != Some(x))
      case AtMost => (match AsNumber(wanted) case Some(y) => Success(x > y) case None => Failure(Unordered(rule.key)))
      case AtLeast => (match AsNumber(wanted) case Some(y) => Success(x < y) case None => Failure(Unordered(rule.key)))
  }

  /** Rule i's effect on the candidate, or Success(false) when the filter is not given. */
  function RuleOutcome(meta: map<string, Value>, filters: map<string, Json>, i: nat): (r: Result<bool, FilterError>)
    requires WellTyped(meta) && i < |Rules|
    ensures Rules[i].key !in filters ==> r == Success(false)
    ensures r.Failure? ==> r.error.key == Rules[i].key && r.error.key in filters && r.error.key in RuleKeys
  {
    WellTypedFieldsFit(meta);
    if Rules[i].key in filters then Rejects(Get(meta, Rules[i].field), Rules[i], filters[Rules[i].key])
    else Success(false)
  }

  /** The checks from rule i on, stopping at the first that rejects or raises. */
  function CheckFrom(meta: map<string, Value>, filters: map<string, Json>, i: nat): (r: Result<bool, FilterError>)
    requires WellTyped(meta) && i <= |Rules|
    ensures r.Failure? ==> r.error.key in filters && r.error.key in RuleKeys
    decreases |Rules| - i
  {
    if i == |Rules| then Success(true)
    else
      match RuleOutcome(meta, filters, i)
      case Failure(e) => Failure(e)
      case Success(rejected) => if rejected then Success(false) else CheckFrom(meta, filters, i + 1)
  }

  /** A candidate is kept exactly when none of the given filters rejects or raises.
      This is the fold of CheckFrom restated as a quantifier; what each rule means
      is stated by AbsentOrZeroPasses, TextFilterRejects and OtherFilterKeysIgnored. */
  ghost predicate Accepted(meta: map<string, Value>, filters: map<string, Json>)
    requires WellTyped(meta)
  {
    forall i :: 0 <= i < |Rules| ==> RuleOutcome(meta, filters, i) == Success(false)
  }

  /** _apply_filters: Success(keep), or the error Python raises. It keeps
      everything when no filter is given, and raises only on one of the seven
      checked keys that was given. */
  function ApplyFilters(meta: map<string, Value>, filters: map<string, Json>): (r: Result<bool, FilterError>)
    requires WellTyped(meta)
    ensures filters == map[] ==> r == Success(true)
    ensures r.Failure? ==> r.error.key in filters && r.error.key in RuleKeys
  {
    if filters == map[] then Success(true) else CheckFrom(meta, filters, 0)
  }

  lemma {:induction false} CheckFromAccepts(meta: map<string, Value>, filters: map<string, Json>, i: nat)
    requires WellTyped(meta) && i <= |Rules|
    ensures CheckFrom(meta, filters, i) == Success(true)
      <==> forall j :: i <= j < |Rules| ==> RuleOutcome(meta, filters, j) == Success(false)
    decreases |Rules| - i
  {
    if i < |Rules| {
      CheckFromAccepts(meta, filters, i + 1);
    }
  }

  /** _apply_filters keeps a candidate exactly when every given filter lets it on. */
  lemma ApplyFiltersMeansAccepted(meta: map<string, Value>, filters: map<string, Json>)
    requires WellTyped(meta)
    ensures ApplyFilters(meta, filters) == Success(true) <==> Accepted(meta, filters)
  {
    CheckFromAccepts(meta, filters, 0);
    if filters == map[] {
      assert forall i :: 0 <= i < |Rules| ==> RuleOutcome(meta, map[], i) == Success(false);
    }
  }

  lemma {:induction false} CheckFromReadsRuleKeys(meta: map<string, Value>, f1: map<string, Json>, f2: map<string, Json>, i: nat)
    requires WellTyped(meta) && i <= |Rules|
    requires forall k :: k in RuleKeys ==> (k in f1 <==> k in f2) && (k in f1 ==> f1[k] == f2[k])
    ensures CheckFrom(meta, f1, i) == CheckFrom(meta, f2, i)
    decreases |Rules| - i
  {
    if i < |Rules| {
      var key := Rules[i].key;
      assert key in RuleKeys;
      if key in f1 {
        assert f1[key] == f2[key];
      }
      assert RuleOutcome(meta, f1, i) == RuleOutcome(meta, f2, i);
      CheckFromReadsRuleKeys(meta, f1, f2, i + 1);
    }
  }

  /** Filter keys other than the seven checked ones (banos, barrio, distrito, ...) never matter. */
  lemma OtherFilterKeysIgnored(meta: map<string, Value>, f1: map<string, Json>, f2: map<string, Json>)
    requires WellTyped(meta)
    requires forall k :: k in RuleKeys ==> (k in f1 <==> k in f2) && (k in f1 ==> f1[k] == f2[k])
    ensures ApplyFilters(meta, f1) == ApplyFilters(meta, f2)
  {
    if f1 == map[] || f2 == map[] {
      KeepsWithoutRules(meta, 0);
      CheckFromReadsRuleKeys(meta, f1, map[], 0);
      CheckFromReadsRuleKeys(meta, f2, map[], 0);
    } else {
      CheckFromReadsRuleKeys(meta, f1, f2, 0);
    }
  }

  lemma {:induction false} KeepsWithoutRules(meta: map<string, Value>, i: nat)
    requires WellTyped(meta) && i <= |Rules|
    ensures CheckFrom(meta, map[], i) == Success(true)
    decreases |Rules| - i
  {
    if i < |Rules| {
      KeepsWithoutRules(meta, i + 1);
    }
  }

  /** The numeric filters on a field pass a candidate whose field is absent or 0. */
  lemma AbsentOrZeroPasses(meta: map<string, Value>, filters: map<string, Json>, i: nat)
    requires WellTyped(meta) && i < |Rules| && Rules[i].test != Within
    requires !Truthy(Get(meta, Rules[i].field))
    ensures RuleOutcome(meta, filters, i) == Success(false)
  {
  }

  /** A text filter rejects unless its lowered value occurs in the lowered field;
      an absent field counts as "" and so rejects every non-empty value. */
  lemma TextFilterRejects(meta: map<string, Value>, filters: map<string, Json>, i: nat, w: string)
    requires WellTyped(meta) && i < |Rules| && Rules[i].test == Within
    requires Rules[i].key in filters && filters[Rules[i].key] == JStr(w)
    ensures RuleOutcome(meta, filters, i)
      == Success(!Contains(Lower(if Rules[i].field in meta then meta[Rules[i].field].s else ""), Lower(w)))
    ensures Rules[i].field !in meta && w != "" ==> ApplyFilters(meta, filters) != Success(true)
  {
    if Rules[i].field !in meta && w != "" {
      ContainsInEmpty(Lower(w));
      ApplyFiltersMeansAccepted(meta, filters);
    }
  }

  // ------------------------------------------------------------------- search

  /** A retrieved document with its metadata and its distance to the query. */
  datatype Candidate = Candidate(document: string, metadata: map<string, Value>, distance: real)

  /** A result item: the candidate with its relevance score. */
  datatype Hit = Hit(document: string, metadata: map<string, Value>, distance: real, score: real)

  function HitScore(h: Hit): real { h.score }

  /** metadata.get('url', ''): the de-duplication key. */
  function DedupKey(h: Hit): Value { Get(h.metadata, UrlKey).GetOr(Str("")) }

  predicate AllWellTyped(cands: seq<Candidate>) {
    forall i :: 0 <= i < |cands| ==> WellTyped(cands[i].metadata)
  }

  /** A well-scored hit: its score is the relevance of its own metadata and distance. */
  predicate IsScored(h: Hit) {
    WellTyped(h.metadata) && h.score == Score(h.metadata, h.distance)
  }

  function ScoreHit(c: Candidate): (h: Hit)
    requires WellTyped(c.metadata)
    ensures IsScored(h) && h.metadata == c.metadata && h.document == c.document && h.distance == c.distance
  {
    Hit(c.document, c.metadata, c.distance, Score(c.metadata, c.distance))
  }

  /** The number of results asked for: n_results, or the default. */
  function ResultCount(nResults: Option<nat>): nat {
    nResults.GetOr(DefaultResults)
  }

  /** The number of candidates requested from the vector store. */
  function CandidatePool(n: nat): nat {
    Min(3 * n, MaxCandidates)
  }

  /** The pool is capped at 30 and, for up to 30 results, holds at least as many candidates as results. */
  lemma CandidatePoolBounds(n: nat)
    ensures CandidatePool(n) <= MaxCandidates && CandidatePool(n) <= 3 * n
    ensures n <= MaxCandidates ==> n <= CandidatePool(n)
  {
  }

  /** The strict pass over candidates 0 .. i-1: the scored candidates the filters keep. */
  function StrictUpTo(filters: map<string, Json>, cands: seq<Candidate>, i: nat): Result<seq<Hit>, FilterError>
    requires AllWellTyped(cands) && i <= |cands|
  {
    if i == 0 then Success([])
    else
      match StrictUpTo(filters, cands, i - 1)
      case Failure(e) => Failure(e)
      case Success(acc) =>
        match ApplyFilters(cands[i - 1].metadata, filters)
        case Failure(e) => Failure(e)
        case Success(keep) => Success(if keep then acc + [ScoreHit(cands[i - 1])] else acc)
  }

  /** Whether some collected hit has the url url (None when the entry is absent). */
  function UrlTaken(hits: seq<Hit>, url: Option<Value>): (r: bool)
    ensures r <==> exists j :: 0 <= j < |hits| && Get(hits[j].metadata, UrlKey) == url
  {
    if hits == [] then false
    else if Get(hits[0].metadata, UrlKey) == url then true
    else
      assert forall j :: 0 < j < |hits| ==> hits[j] == hits[1..][j - 1];
      UrlTaken(hits[1..], url)
  }

  /** The relaxation over candidates 0 .. i-1, starting from the strict hits:
      a candidate is appended when no hit collected so far shares its url. */
  function RelaxUpTo(strict: seq<Hit>, cands: seq<Candidate>, i: nat): seq<Hit>
    requires AllWellTyped(cands) && i <= |cands|
  {
    if i == 0 then strict
    else
      var acc := RelaxUpTo(strict, cands, i - 1);
      if UrlTaken(acc, Get(cands[i - 1].metadata, UrlKey)) then acc else acc + [ScoreHit(cands[i - 1])]
  }

  /** The filtered results before sorting: the strict pass, relaxed when it
      found fewer than n and there are filters. */
  function Collected(filters: map<string, Json>, n: nat, cands: seq<Candidate>): Result<seq<Hit>, FilterError>
    requires AllWellTyped(cands)
  {
    match StrictUpTo(filters, cands, |cands|)
    case Failure(e) => Failure(e)
    case Success(strict) =>
      Success(if |strict| < n && filters != map[] then RelaxUpTo(strict, cands, |cands|) else strict)
  }

  /** Inserting h into a list sorted by descending score, after every hit scoring at least as much. */
  function Insert(h: Hit, sorted: seq<Hit>): (r: seq<Hit>)
    ensures multiset(r) == multiset(sorted) + multiset{h}
  {
    if sorted == [] || h.score > sorted[0].score then [h] + sorted
    else
      assert sorted == [sorted[0]] + sorted[1..];
      [sorted[0]] + Insert(h, sorted[1..])
  }

  /** list.sort(key=relevance_score, reverse=True): a stable descending sort. */
  function SortByScore(hits: seq<Hit>): (r: seq<Hit>)
    ensures multiset(r) == multiset(hits)
  {
    if hits == [] then []
    else
      assert hits == hits[..|hits| - 1] + [hits[|hits| - 1]];
      Insert(hits[|hits| - 1], SortByScore(hits[..|hits| - 1]))
  }

  /** The hits scoring exactly v, in their order. */
  function WithScore(hits: seq<Hit>, v: real): seq<Hit> {
    if hits == [] then [] else (if hits[0].score == v then [hits[0]] else []) + WithScore(hits[1..], v)
  }

  lemma {:induction false} InsertKeepsOrder(h: Hit, sorted: seq<Hit>)
    requires NonIncreasing(sorted, HitScore)
    ensures NonIncreasing(Insert(h, sorted), HitScore)
    decreases |sorted|
  {
    if sorted == [] || h.score > sorted[0].score {
      forall j | 0 <= j < |sorted| ensures HitScore(h) >= HitScore(sorted[j]) {
        assert HitScore(sorted[0]) >= HitScore(sorted[j]);
      }
      ConsNonIncreasing(h, sorted, HitScore);
    } else {
      var rest := sorted[1..];
      TailNonIncreasing(sorted, HitScore);
      InsertKeepsOrder(h, rest);
      var tail := Insert(h, rest);
      forall j | 0 <= j < |tail| ensures HitScore(sorted[0]) >= HitScore(tail[j]) {
        assert tail[j] in multiset(tail);
        if tail[j] != h {
          assert tail[j] in multiset(rest);
          var m :| 0 <= m < |rest| && rest[m] == tail[j];
          assert rest[m] == sorted[m + 1];
        }
      }
      ConsNonIncreasing(sorted[0], tail, HitScore);
    }
  }

  /** The sort leaves the hits in non-increasing score order. */
  lemma {:induction false} SortByScoreSorted(hits: seq<Hit>)
    ensures NonIncreasing(SortByScore(hits), HitScore)
    decreases |hits|
  {
    if hits != [] {
      SortByScoreSorted(hits[..|hits| - 1]);
      InsertKeepsOrder(hits[|hits| - 1], SortByScore(hits[..|hits| - 1]));
    }
  }

  lemma {:induction false} WithScoreAppend(hits: seq<Hit>, h: Hit, v: real)
    ensures WithScore(hits + [h], v) == WithScore(hits, v) + (if h.score == v then [h] else [])
    decreases |hits|
  {
    var mine := if h.score == v then [h] else [];
    var all := hits + [h];
    if hits == [] {
      assert all == [h] && all[1..] == [];
      assert WithScore(all, v) == mine + WithScore([], v);
    } else {
      var head := if hits[0].score == v then [hits[0]] else [];
      assert all[0] == hits[0] && all[1..] == hits[1..] + [h];
      WithScoreAppend(hits[1..], h, v);
      assert WithScore(all, v) == head + WithScore(all[1..], v);
      assert WithScore(hits, v) == head + WithScore(hits[1..], v);
      assert head + (WithScore(hits[1..], v) + mine) == (head + WithScore(hits[1..], v)) + mine;
    }
  }

  lemma {:induction false} NoneScoring(hits: seq<Hit>, v: real)
    requires forall j :: 0 <= j < |hits| ==> hits[j].score < v
    ensures WithScore(hits, v) == []
    decreases |hits|
  {
    if hits != [] {
      NoneScoring(hits[1..], v);
    }
  }

  lemma {:induction false} InsertStable(h: Hit, sorted: seq<Hit>, v: real)
    requires NonIncreasing(sorted, HitScore)
    ensures WithScore(Insert(h, sorted), v) == WithScore(sorted, v) + (if h.score == v then [h] else [])
    decreases |sorted|
  {
    if sorted == [] || h.score > sorted[0].score {
      assert ([h] + sorted)[1..] == sorted;
      if h.score == v && sorted != [] {
        forall j | 0 <= j < |sorted| ensures sorted[j].score < v {
          assert HitScore(sorted[0]) >= HitScore(sorted[j]);
        }
        NoneScoring(sorted, v);
      }
    } else {
      TailNonIncreasing(sorted, HitScore);
      InsertStable(h, sorted[1..], v);
      assert ([sorted[0]] + Insert(h, sorted[1..]))[1..] == Insert(h, sorted[1..]);
    }
  }

  /** The sort is stable: the hits of any one score keep their relative order. */
  lemma {:induction false} SortByScoreStable(hits: seq<Hit>, v: real)
    ensures WithScore(SortByScore(hits), v) == WithScore(hits, v)
    decreases |hits|
  {
    if hits != [] {
      var prefix := hits[..|hits| - 1];
      var last := hits[|hits| - 1];
      assert hits == prefix + [last];
      var sortedPrefix := SortByScore(prefix);
      assert SortByScore(hits) == Insert(last, sortedPrefix);
      SortByScoreSorted(prefix);
      InsertStable(last, sortedPrefix, v);
      SortByScoreStable(prefix, v);
      WithScoreAppend(prefix, last, v);
    }
  }

  /** The strict pass raises exactly when the filters raise on some candidate. */
  lemma {:induction false} StrictFailsExactly(filters: map<string, Json>, cands: seq<Candidate>, i: nat)
    requires AllWellTyped(cands) && i <= |cands|
    ensures StrictUpTo(filters, cands, i).Failure?
      <==> exists k :: 0 <= k < i && ApplyFilters(cands[k].metadata, filters).Failure?
  {
    if i > 0 {
      StrictFailsExactly(filters, cands, i - 1);
      var prev := StrictUpTo(filters, cands, i - 1);
      var keep := ApplyFilters(cands[i - 1].metadata, filters);
      if prev.Failure? {
        StrictFailureSticks(filters, cands, i - 1, i);
        var k :| 0 <= k < i - 1 && ApplyFilters(cands[k].metadata, filters).Failure?;
        assert 0 <= k < i;
      } else if keep.Failure? {
        assert StrictUpTo(filters, cands, i) == Failure(keep.error);
      } else {
        assert StrictUpTo(filters, cands, i).Success?;
        forall k | 0 <= k < i ensures !ApplyFilters(cands[k].metadata, filters).Failure? {
          if k < i - 1 {
            assert !(0 <= k < i - 1 && ApplyFilters(cands[k].metadata, filters).Failure?);
          }
        }
      }
    }
  }

  /** The strict pass holds only scored candidates the filters keep, never more than it visited. */
  lemma {:induction false} StrictKeepsOnlyAccepted(filters: map<string, Json>, cands: seq<Candidate>, i: nat)
    requires AllWellTyped(cands) && i <= |cands| && StrictUpTo(filters, cands, i).Success?
    ensures |StrictUpTo(filters, cands, i).value| <= i
    ensures forall h :: h in StrictUpTo(filters, cands, i).value ==>
      exists k :: 0 <= k < i && h == ScoreHit(cands[k]) && ApplyFilters(cands[k].metadata, filters) == Success(true)
  {
    if i > 0 {
      StrictKeepsOnlyAccepted(filters, cands, i - 1);
    }
  }

  /** The strict pass holds every scored candidate the filters keep. */
  lemma {:induction false} StrictKeepsAllAccepted(filters: map<string, Json>, cands: seq<Candidate>, i: nat)
    requires AllWellTyped(cands) && i <= |cands| && StrictUpTo(filters, cands, i).Success?
    ensures forall k :: 0 <= k < i && ApplyFilters(cands[k].metadata, filters) == Success(true) ==>
      ScoreHit(cands[k]) in StrictUpTo(filters, cands, i).value
  {
    if i > 0 {
      StrictKeepsAllAccepted(filters, cands, i - 1);
    }
  }

  /** The relaxation keeps the strict hits as a prefix and appends at most one hit per candidate. */
  lemma {:induction false} RelaxKeepsStrict(strict: seq<Hit>, cands: seq<Candidate>, i: nat)
    requires AllWellTyped(cands) && i <= |cands|
    ensures |strict| <= |RelaxUpTo(strict, cands, i)| <= |strict| + i
    ensures RelaxUpTo(strict, cands, i)[..|strict|] == strict
  {
    if i > 0 {
      RelaxKeepsStrict(strict, cands, i - 1);
      var acc := RelaxUpTo(strict, cands, i - 1);
      assert (acc + [ScoreHit(cands[i - 1])])[..|strict|] == acc[..|strict|];
    }
  }

  /** What the relaxation appends are scored retrieved candidates. */
  lemma {:induction false} RelaxAddsRetrieved(strict: seq<Hit>, cands: seq<Candidate>, i: nat)
    requires AllWellTyped(cands) && i <= |cands|
    ensures forall q :: |strict| <= q < |RelaxUpTo(strict, cands, i)| ==>
      exists k :: 0 <= k < i && RelaxUpTo(strict, cands, i)[q] == ScoreHit(cands[k])
  {
    if i > 0 {
      RelaxAddsRetrieved(strict, cands, i - 1);
      var acc := RelaxUpTo(strict, cands, i - 1);
      var r := RelaxUpTo(strict, cands, i);
      forall q | |strict| <= q < |r| ensures exists k :: 0 <= k < i && r[q] == ScoreHit(cands[k]) {
        if q < |acc| {
          assert r[q] == acc[q];
          var k :| 0 <= k < i - 1 && acc[q] == ScoreHit(cands[k]);
        } else {
          assert r == acc + [ScoreHit(cands[i - 1])];
          assert r[q] == ScoreHit(cands[i - 1]);
        }
      }
    } else {
      assert RelaxUpTo(strict, cands, i) == strict;
    }
  }

  /** From index start on, each hit has a url no earlier hit has. */
  ghost predicate NewUrlsFrom(hits: seq<Hit>, start: nat) {
    forall p, q :: 0 <= p < q < |hits| && start <= q ==> Get(hits[p].metadata, UrlKey) != Get(hits[q].metadata, UrlKey)
  }

  /** Each appended hit has a url no earlier hit has. */
  lemma {:induction false} RelaxAddsNewUrls(strict: seq<Hit>, cands: seq<Candidate>, i: nat)
    requires AllWellTyped(cands) && i <= |cands|
    ensures NewUrlsFrom(RelaxUpTo(strict, cands, i), |strict|)
  {
    if i > 0 {
      RelaxAddsNewUrls(strict, cands, i - 1);
      var acc := RelaxUpTo(strict, cands, i - 1);
      var r := RelaxUpTo(strict, cands, i);
      var url := Get(cands[i - 1].metadata, UrlKey);
      assert r == if UrlTaken(acc, url) then acc else acc + [ScoreHit(cands[i - 1])];
      if !UrlTaken(acc, url) {
        assert r == acc + [ScoreHit(cands[i - 1])];
        forall p, q | 0 <= p < q < |r| && |strict| <= q
          ensures Get(r[p].metadata, UrlKey) != Get(r[q].metadata, UrlKey)
        {
          assert r[p] == acc[p];
          if q < |acc| {
            assert r[q] == acc[q];
            assert Get(acc[p].metadata, UrlKey) != Get(acc[q].metadata, UrlKey);
          } else {
            assert Get(r[q].metadata, UrlKey) == url;
            assert Get(acc[p].metadata, UrlKey) != url;
          }
        }
      }
    }
  }

  /** The relaxation takes up every retrieved url: after i candidates, each of
      their urls is the url of some collected hit. */
  lemma {:induction false} RelaxCovers(strict: seq<Hit>, cands: seq<Candidate>, i: nat)
    requires AllWellTyped(cands) && i <= |cands|
    ensures forall k :: 0 <= k < i ==> UrlTaken(RelaxUpTo(strict, cands, i), Get(cands[k].metadata, UrlKey))
  {
    if i > 0 {
      RelaxCovers(strict, cands, i - 1);
      var acc := RelaxUpTo(strict, cands, i - 1);
      var r := RelaxUpTo(strict, cands, i);
      var last := Get(cands[i - 1].metadata, UrlKey);
      assert r == if UrlTaken(acc, last) then acc else acc + [ScoreHit(cands[i - 1])];
      forall k | 0 <= k < i ensures UrlTaken(r, Get(cands[k].metadata, UrlKey)) {
        var url := Get(cands[k].metadata, UrlKey);
        if k < i - 1 || UrlTaken(acc, last) {
          assert UrlTaken(acc, url);
          var j :| 0 <= j < |acc| && Get(acc[j].metadata, UrlKey) == url;
          assert r[j] == acc[j];
        } else {
          assert r[|acc|] == ScoreHit(cands[i - 1]);
        }
      }
    }
  }

  /** What search returns for the given filters, result count and retrieved
      candidates, or the error _apply_filters raises. */
  function SearchOutcome(filters: map<string, Json>, nResults: Option<nat>, cands: seq<Candidate>): (r: Result<seq<Hit>, FilterError>)
    requires AllWellTyped(cands)
    ensures cands == [] ==> r == Success([])
    ensures r.Failure? <==> cands != [] && Collected(filters, ResultCount(nResults), cands).Failure?
    ensures r.Success? ==> |r.value| <= ResultCount(nResults)
  {
    var n := ResultCount(nResults);
    if cands == [] then Success([])
    else
      match Collected(filters, n, cands)
      case Failure(e) => Failure(e)
      case Success(hits) =>
        var unique := DedupBy(SortByScore(hits), DedupKey);
        Success(unique[..Min(n, |unique|)])
  }

  /** One step of the strict pass, from a pass that has not failed. */
  lemma StrictStep(filters: map<string, Json>, cands: seq<Candidate>, i: nat, acc: seq<Hit>)
    requires AllWellTyped(cands) && i < |cands| && StrictUpTo(filters, cands, i) == Success(acc)
    ensures var keep := ApplyFilters(cands[i].metadata, filters);
      StrictUpTo(filters, cands, i + 1)
        == if keep.Failure? then Failure(keep.error)
           else Success(if keep.value then acc + [ScoreHit(cands[i])] else acc)
  {
  }

  lemma {:induction false} StrictFailureSticks(filters: map<string, Json>, cands: seq<Candidate>, i: nat, j: nat)
    requires AllWellTyped(cands) && i <= j <= |cands| && StrictUpTo(filters, cands, i).Failure?
    ensures StrictUpTo(filters, cands, j) == StrictUpTo(filters, cands, i)
    decreases j - i
  {
    if i < j {
      StrictFailureSticks(filters, cands, i, j - 1);
    }
  }

  /** With no filters the strict pass keeps and scores every candidate, in order. */
  lemma {:induction false} StrictWithoutFilters(cands: seq<Candidate>, i: nat)
    requires AllWellTyped(cands) && i <= |cands|
    ensures StrictUpTo(map[], cands, i).Success?
    ensures |StrictUpTo(map[], cands, i).value| == i
    ensures forall k :: 0 <= k < i ==> StrictUpTo(map[], cands, i).value[k] == ScoreHit(cands[k])
  {
    if i > 0 {
      StrictWithoutFilters(cands, i - 1);
    }
  }

  /** Without filters nothing is dropped and nothing is relaxed: every retrieved candidate is collected. */
  lemma CollectedWithoutFilters(n: nat, cands: seq<Candidate>)
    requires AllWellTyped(cands)
    ensures Collected(map[], n, cands).Success?
    ensures |Collected(map[], n, cands).value| == |cands|
    ensures forall k :: 0 <= k < |cands| ==> Collected(map[], n, cands).value[k] == ScoreHit(cands[k])
  {
    StrictWithoutFilters(cands, |cands|);
  }

  /** The relaxation runs only when the strict pass found fewer than n hits and
      there are filters; it keeps the strict hits first and appends scored
      candidates whose url no earlier hit has. */
  lemma RelaxationAppendsNewUrls(filters: map<string, Json>, n: nat, cands: seq<Candidate>,
                                 strict: seq<Hit>, hits: seq<Hit>)
    requires AllWellTyped(cands)
    requires StrictUpTo(filters, cands, |cands|) == Success(strict) && Collected(filters, n, cands) == Success(hits)
    ensures |strict| <= |hits| && hits[..|strict|] == strict
    ensures |hits| > |strict| ==> |strict| < n && filters != map[]
    ensures forall q :: |strict| <= q < |hits| ==> exists k :: 0 <= k < |cands| && hits[q] == ScoreHit(cands[k])
    ensures forall p, q :: 0 <= p < q < |hits| && |strict| <= q ==> Get(hits[p].metadata, UrlKey) != Get(hits[q].metadata, UrlKey)
  {
    if |strict| < n && filters != map[] {
      RelaxKeepsStrict(strict, cands, |cands|);
      RelaxAddsRetrieved(strict, cands, |cands|);
      RelaxAddsNewUrls(strict, cands, |cands|);
    }
  }

  /** Every collected hit is a retrieved candidate with its relevance score. */
  lemma CollectedAreRetrieved(filters: map<string, Json>, n: nat, cands: seq<Candidate>, hits: seq<Hit>)
    requires AllWellTyped(cands) && Collected(filters, n, cands) == Success(hits)
    ensures forall h :: h in hits ==> exists k :: 0 <= k < |cands| && h == ScoreHit(cands[k])
  {
    var strict := StrictUpTo(filters, cands, |cands|).value;
    StrictKeepsOnlyAccepted(filters, cands, |cands|);
    RelaxationAppendsNewUrls(filters, n, cands, strict, hits);
    forall h | h in hits ensures exists k :: 0 <= k < |cands| && h == ScoreHit(cands[k]) {
      var q :| 0 <= q < |hits| && hits[q] == h;
      if q < |strict| {
        assert hits[q] == strict[q];
        assert strict[q] in strict;
      }
    }
  }

  /** search raises exactly when the filters raise on some retrieved candidate. */
  lemma SearchFailsExactly(filters: map<string, Json>, nResults: Option<nat>, cands: seq<Candidate>)
    requires AllWellTyped(cands)
    ensures SearchOutcome(filters, nResults, cands).Failure?
      <==> exists k :: 0 <= k < |cands| && ApplyFilters(cands[k].metadata, filters).Failure?
  {
    StrictFailsExactly(filters, cands, |cands|);
  }

  /** No retrieved documents, no results. */
  lemma SearchWithoutCandidates(filters: map<string, Json>, nResults: Option<nat>)
    ensures SearchOutcome(filters, nResults, []) == Success([])
  {
  }

  /** The results are the first min(n, k) hits of the de-duplicated sorted
      list, where k counts the distinct urls among the collected hits. */
  lemma SearchResultSize(filters: map<string, Json>, nResults: Option<nat>, cands: seq<Candidate>, r: seq<Hit>)
    requires AllWellTyped(cands) && cands != [] && SearchOutcome(filters, nResults, cands) == Success(r)
    ensures Collected(filters, ResultCount(nResults), cands).Success?
    ensures |r| == Min(ResultCount(nResults), |KeySet(Collected(filters, ResultCount(nResults), cands).value, DedupKey)|)
    ensures |r| <= ResultCount(nResults)
  {
    var hits := Collected(filters, ResultCount(nResults), cands).value;
    var sorted := SortByScore(hits);
    DedupKeys(sorted, DedupKey, {});
    assert forall x :: x in sorted <==> x in hits by {
      assert multiset(sorted) == multiset(hits);
      forall x ensures x in sorted <==> x in hits {
        assert x in sorted <==> x in multiset(sorted);
        assert x in hits <==> x in multiset(hits);
      }
    }
    KeySetOfSameElements(sorted, hits, DedupKey);
    assert KeySet(hits, DedupKey) - {} == KeySet(hits, DedupKey);
  }

  /** The de-duplication key of a retrieved candidate: its url, or "". */
  function CandidateKey(c: Candidate): (k: Value)
    ensures Get(c.metadata, UrlKey).Some? ==> k == Get(c.metadata, UrlKey).value
    ensures Get(c.metadata, UrlKey).None? ==> k == Str("")
  {
    Get(c.metadata, UrlKey).GetOr(Str(""))
  }

  /** When the strict pass falls short (or there are no filters), the collected
      hits carry exactly the urls of the retrieved candidates. */
  lemma CollectedKeys(filters: map<string, Json>, n: nat, cands: seq<Candidate>, strict: seq<Hit>, hits: seq<Hit>)
    requires AllWellTyped(cands)
    requires StrictUpTo(filters, cands, |cands|) == Success(strict) && Collected(filters, n, cands) == Success(hits)
    requires filters == map[] || |strict| < n
    ensures KeySet(hits, DedupKey) == KeySet(cands, CandidateKey)
  {
    CollectedAreRetrieved(filters, n, cands, hits);
    forall x | x in KeySet(hits, DedupKey) ensures x in KeySet(cands, CandidateKey) {
      var q :| 0 <= q < |hits| && DedupKey(hits[q]) == x;
      assert hits[q] in hits;
      var k :| 0 <= k < |cands| && hits[q] == ScoreHit(cands[k]);
      assert CandidateKey(cands[k]) == x;
    }
    if filters == map[] {
      CollectedWithoutFilters(n, cands);
      forall x | x in KeySet(cands, CandidateKey) ensures x in KeySet(hits, DedupKey) {
        var k :| 0 <= k < |cands| && CandidateKey(cands[k]) == x;
        assert DedupKey(hits[k]) == x;
      }
    } else {
      RelaxCovers(strict, cands, |cands|);
      forall x | x in KeySet(cands, CandidateKey) ensures x in KeySet(hits, DedupKey) {
        var k :| 0 <= k < |cands| && CandidateKey(cands[k]) == x;
        assert UrlTaken(hits, Get(cands[k].metadata, UrlKey));
        var j :| 0 <= j < |hits| && Get(hits[j].metadata, UrlKey) == Get(cands[k].metadata, UrlKey);
        assert DedupKey(hits[j]) == x;
      }
    }
  }

  /** When the strict pass falls short of n (or there are no filters), search
      returns min(n, k) results, where k counts the distinct urls among all
      retrieved candidates. */
  lemma SearchResultCount(filters: map<string, Json>, nResults: Option<nat>, cands: seq<Candidate>, r: seq<Hit>)
    requires AllWellTyped(cands) && cands != [] && SearchOutcome(filters, nResults, cands) == Success(r)
    requires filters == map[]
      || (StrictUpTo(filters, cands, |cands|).Success?
          && |StrictUpTo(filters, cands, |cands|).value| < ResultCount(nResults))
    ensures |r| == Min(ResultCount(nResults), |KeySet(cands, CandidateKey)|)
  {
    var n := ResultCount(nResults);
    SearchResultSize(filters, nResults, cands, r);
    StrictFailsExactly(filters, cands, |cands|);
    if filters == map[] {
      StrictWithoutFilters(cands, |cands|);
    }
    CollectedKeys(filters, n, cands, StrictUpTo(filters, cands, |cands|).value, Collected(filters, n, cands).value);
  }

  /** The results come in non-increasing relevance order. */
  lemma SearchResultSorted(filters: map<string, Json>, nResults: Option<nat>, cands: seq<Candidate>, r: seq<Hit>)
    requires AllWellTyped(cands) && SearchOutcome(filters, nResults, cands) == Success(r)
    ensures NonIncreasing(r, HitScore)
  {
    if cands != [] {
      var n := ResultCount(nResults);
      var sorted := SortByScore(Collected(filters, n, cands).value);
      SortByScoreSorted(Collected(filters, n, cands).value);
      DedupKeepsOrder(sorted, DedupKey, {}, HitScore);
      var unique := DedupBy(sorted, DedupKey);
      assert r == unique[..Min(n, |unique|)];
      forall i, j | 0 <= i < j < |r| ensures HitScore(r[i]) >= HitScore(r[j]) {
        assert r[i] == unique[i] && r[j] == unique[j];
      }
    }
  }

  /** No two results share the url key (a missing url counts as ""). */
  lemma SearchResultUnique(filters: map<string, Json>, nResults: Option<nat>, cands: seq<Candidate>, r: seq<Hit>)
    requires AllWellTyped(cands) && SearchOutcome(filters, nResults, cands) == Success(r)
    ensures forall i, j :: 0 <= i < j < |r| ==> DedupKey(r[i]) != DedupKey(r[j])
  {
    if cands != [] {
      var n := ResultCount(nResults);
      var unique := DedupBy(SortByScore(Collected(filters, n, cands).value), DedupKey);
      assert r == unique[..Min(n, |unique|)];
      forall i, j | 0 <= i < j < |r| ensures DedupKey(r[i]) != DedupKey(r[j]) {
        assert r[i] == unique[i] && r[j] == unique[j];
      }
    }
  }

  /** Every result is a retrieved candidate carrying its own relevance score. */
  lemma SearchResultsAreRetrieved(filters: map<string, Json>, nResults: Option<nat>, cands: seq<Candidate>, r: seq<Hit>)
    requires AllWellTyped(cands) && SearchOutcome(filters, nResults, cands) == Success(r)
    ensures forall h :: h in r ==> IsScored(h) && exists k :: 0 <= k < |cands| && h == ScoreHit(cands[k])
  {
    if cands != [] {
      var n := ResultCount(nResults);
      var hits := Collected(filters, n, cands).value;
      CollectedAreRetrieved(filters, n, cands, hits);
      var sorted := SortByScore(hits);
      var unique := DedupBy(sorted, DedupKey);
      forall h | h in r ensures exists k :: 0 <= k < |cands| && h == ScoreHit(cands[k]) {
        assert h in unique;
        assert h in multiset(sorted);
        assert h in hits;
      }
    }
  }

  /** When no relaxation took place every result satisfies the filters. */
  lemma StrictResultsPassFilters(filters: map<string, Json>, nResults: Option<nat>, cands: seq<Candidate>,
                                 strict: seq<Hit>, r: seq<Hit>)
    requires AllWellTyped(cands) && SearchOutcome(filters, nResults, cands) == Success(r)
    requires StrictUpTo(filters, cands, |cands|) == Success(strict)
    requires |strict| >= ResultCount(nResults) || filters == map[]
    ensures forall h :: h in r ==> WellTyped(h.metadata) && ApplyFilters(h.metadata, filters) == Success(true)
  {
    if cands != [] {
      StrictKeepsOnlyAccepted(filters, cands, |cands|);
      var sorted := SortByScore(strict);
      var unique := DedupBy(sorted, DedupKey);
      forall h | h in r ensures WellTyped(h.metadata) && ApplyFilters(h.metadata, filters) == Success(true) {
        assert h in unique;
        assert h in multiset(sorted);
        assert h in strict;
      }
    }
  }

  /** The head of a list in non-increasing score order scores at least as much as every member. */
  lemma HeadScoresMost(sorted: seq<Hit>)
    requires sorted != [] && NonIncreasing(sorted, HitScore)
    ensures forall h :: h in sorted ==> h.score <= sorted[0].score
  {
    forall h | h in sorted ensures h.score <= sorted[0].score {
      var m :| 0 <= m < |sorted| && sorted[m] == h;
      if m > 0 {
        assert HitScore(sorted[0]) >= HitScore(sorted[m]);
      }
    }
  }

  /** The first result scores at least as much as every collected hit. */
  lemma SearchTopIsBest(filters: map<string, Json>, nResults: Option<nat>, cands: seq<Candidate>, r: seq<Hit>)
    requires AllWellTyped(cands) && SearchOutcome(filters, nResults, cands) == Success(r) && r != []
    ensures Collected(filters, ResultCount(nResults), cands).Success?
    ensures forall h :: h in Collected(filters, ResultCount(nResults), cands).value ==> h.score <= r[0].score
  {
    var hits := Collected(filters, ResultCount(nResults), cands).value;
    var sorted := SortByScore(hits);
    var unique := DedupBy(sorted, DedupKey);
    assert r[0] == unique[0];
    DedupFromStep(sorted, 0, DedupKey, {});
    assert sorted[0..] == sorted;
    assert unique[0] == sorted[0];
    SortByScoreSorted(hits);
    HeadScoresMost(sorted);
    forall h | h in hits ensures h in sorted {
      assert h in multiset(hits);
    }
  }

  /** Step 4 of search: the candidates the filters keep, scored, in retrieval order. */
  method StrictPass(filters: map<string, Json>, cands: seq<Candidate>) returns (r: Result<seq<Hit>, FilterError>)
    requires AllWellTyped(cands)
    ensures r == StrictUpTo(filters, cands, |cands|)
  {
    var filtered: seq<Hit> := [];
    for i := 0 to |cands|
      invariant StrictUpTo(filters, cands, i) == Success(filtered)
    {
      var keep := ApplyFilters(cands[i].metadata, filters);
      StrictStep(filters, cands, i, filtered);
      if keep.Failure? {
        StrictFailureSticks(filters, cands, i + 1, |cands|);
        return Failure(keep.error);
      }
      if keep.value {
        filtered := filtered + [ScoreHit(cands[i])];
      }
    }
    return Success(filtered);
  }

  /** Step 5 of search: appends every candidate whose url no collected hit has. */
  method Relax(strict: seq<Hit>, cands: seq<Candidate>) returns (filtered: seq<Hit>)
    requires AllWellTyped(cands)
    ensures filtered == RelaxUpTo(strict, cands, |cands|)
  {
    filtered := strict;
    for i := 0 to |cands|
      invariant filtered == RelaxUpTo(strict, cands, i)
    {
      if !UrlTaken(filtered, Get(cands[i].metadata, UrlKey)) {
        filtered := filtered + [ScoreHit(cands[i])];
      }
    }
  }

  /** Step 7 of search: keeps the first hit of each url, tracking the urls seen. */
  method UniqueByUrl(sorted: seq<Hit>) returns (unique: seq<Hit>)
    ensures unique == DedupBy(sorted, DedupKey)
  {
    unique := [];
    var seen: set<Value> := {};
    for i := 0 to |sorted|
      invariant unique + DedupFrom(sorted[i..], DedupKey, seen) == DedupBy(sorted, DedupKey)
    {
      DedupFromStep(sorted, i, DedupKey, seen);
      var url := DedupKey(sorted[i]);
      if url !in seen {
        seen := seen + {url};
        unique := unique + [sorted[i]];
      }
    }
    assert sorted[|sorted|..] == [];
  }

  /** search after retrieval: the strict pass, the relaxation, the sort, the
      de-duplication by url and the truncation to n results. */
  method Search(filters: map<string, Json>, nResults: Option<nat>, cands: seq<Candidate>)
    returns (r: Result<seq<Hit>, FilterError>)
    requires AllWellTyped(cands) && |cands| <= CandidatePool(ResultCount(nResults))
    ensures r == SearchOutcome(filters, nResults, cands)
  {
    var n := ResultCount(nResults);
    if |cands| == 0 {
      return Success([]);
    }
    var strict := StrictPass(filters, cands);
    if strict.Failure? {
      return Failure(strict.error);
    }
    var filtered := strict.value;
    if |filtered| < n && filters != map[] {
      filtered := Relax(filtered, cands);
    }
    var sorted := SortByScore(filtered);
    var unique := UniqueByUrl(sorted);
    return Success(unique[..Min(n, |unique|)]);
  }
}
