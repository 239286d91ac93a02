/** Turning a natural-language query into a structured query: the language
    model's reply is cleaned of markdown fences, parsed by an ordered chain of
    JSON strategies that ends in a regex extractor which never fails, and
    validated; any failure falls back to passing the query through.

    The language model is the parameter llm (None when the call or its reply
    fails), json.loads is the partial parser loads (None on a decoding
    error), and the two regex substitutions of the repair strategy are the
    parameter repair. */
module QueryEnhancer {

  import opened Wrappers
  import opened Values
  import opened Text

  type JsonMap = map<string, Json>

  const SemanticQueryKey := "semantic_query"
  const FiltersKey := "filters"
  const PreferencesKey := "preferences"

  /** The keys validation demands, in the order it checks them. */
  const RequiredKeys: seq<string> := [SemanticQueryKey, FiltersKey, PreferencesKey]

  /** No lifestyle, no desired features, no location type. */
  const EmptyPreferences: Json :=
    JObj(map["estilo_vida" := JArr([]), "caracteristicas_deseadas" := JArr([]), "ubicacion_tipo" := JNull])

  /** A structured query with exactly the three required keys. */
  function Query(semantic: Json, filters: JsonMap, preferences: Json): (r: JsonMap)
    ensures r.Keys == {SemanticQueryKey, FiltersKey, PreferencesKey}
    ensures r[SemanticQueryKey] == semantic && r[FiltersKey] == JObj(filters) && r[PreferencesKey] == preferences
  {
    map[SemanticQueryKey := semantic, FiltersKey := JObj(filters), PreferencesKey := preferences]
  }

  /** Replacing one entry of a structured query. */
  lemma QueryUpdate(semantic: Json, filters: JsonMap, preferences: Json, semantic': Json, filters': JsonMap)
    ensures Query(semantic, filters, preferences)[SemanticQueryKey := semantic'] == Query(semantic', filters, preferences)
    ensures Query(semantic, filters, preferences)[FiltersKey := JObj(filters')] == Query(semantic, filters', preferences)
  {
  }

  /** The structured query used whenever the language-model path fails. */
  function Passthrough(userQuery: string): (r: JsonMap)
    ensures r.Keys == {SemanticQueryKey, FiltersKey, PreferencesKey}
    ensures r[SemanticQueryKey] == JStr(userQuery) && r[FiltersKey] == JObj(map[])
    ensures r[PreferencesKey] == EmptyPreferences
  {
    Query(JStr(userQuery), map[], EmptyPreferences)
  }

  // ---------------------------------------------------------------------------
  // Fence stripping
  // ---------------------------------------------------------------------------

  const JsonFence := "```json"
  const Fence := "```"

  /** The content without a leading ```json, when it has one. */
  function DropJsonFence(s: string): (r: string)
    ensures |r| <= |s|
  {
    if StartsWith(s, JsonFence) then s[|JsonFence|..] else s
  }

  /** The content without a leading ```, when it has one. */
  function DropOpenFence(s: string): (r: string)
    ensures |r| <= |s|
  {
    if StartsWith(s, Fence) then s[|Fence|..] else s
  }

  /** The content without a trailing ```, when it has one. */
  function DropCloseFence(s: string): (r: string)
    ensures |r| <= |s|
  {
    if EndsWith(s, Fence) then s[..|s| - |Fence|] else s
  }

  /** Drops a leading ```json, then a leading ```, then a trailing ```. */
  function DropFences(s: string): (r: string)
    ensures |r| <= |s|
  {
    DropCloseFence(DropOpenFence(DropJsonFence(s)))
  }

  /** The reply after strip, with the fences dropped, stripped again. */
  function CleanContent(raw: string): (r: string)
    ensures IsStripped(r) && |r| <= |raw|
  {
    Strip(DropFences(Strip(raw)))
  }

  /** A leading ```json implies a leading ```. */
  lemma JsonFenceIsFence(s: string)
    ensures StartsWith(s, JsonFence) ==> StartsWith(s, Fence)
  {
    if StartsWith(s, JsonFence) {
      assert s[..|Fence|] == s[..|JsonFence|][..|Fence|];
    }
  }

  lemma Halves(a: string, b: string)
    ensures (a + b)[..|a|] == a && (a + b)[|a|..] == b
  {
  }

  /** After the opening fence: a newline, the body, a newline and the closing fence. */
  lemma CloseFence(body: string)
    requires IsStripped(body)
    ensures var c := "\n" + body + "\n" + Fence;
      !StartsWith(c, Fence) && EndsWith(c, Fence) && Strip(c[..|c| - |Fence|]) == body
  {
    var c := "\n" + body + "\n" + Fence;
    var inner := "\n" + body + "\n";
    assert c == inner + Fence;
    Halves(inner, Fence);
    assert c[0] == '\n';
    assert c[|c| - |Fence|..] == Fence;
    assert c[..|c| - |Fence|] == inner;
    StripPadded(body, '\n', '\n');
    assert ['\n'] + body + ['\n'] == inner;
  }

  /** A stripped body fenced as ```json ... ``` on lines of its own comes back unchanged. */
  lemma CleanJsonFenced(body: string)
    requires IsStripped(body)
    ensures CleanContent(JsonFence + "\n" + body + "\n" + Fence) == body
  {
    var c := "\n" + body + "\n" + Fence;
    var raw := JsonFence + c;
    assert raw == JsonFence + "\n" + body + "\n" + Fence;
    Halves(JsonFence, c);
    assert IsStripped(raw) by { assert raw[0] == '`' && raw[|raw| - 1] == c[|c| - 1] == '`'; }
    StripStripped(raw);
    assert StartsWith(raw, JsonFence);
    CloseFence(body);
  }

  /** A stripped body fenced as ``` ... ``` on lines of its own comes back unchanged. */
  lemma CleanPlainFenced(body: string)
    requires IsStripped(body)
    ensures CleanContent(Fence + "\n" + body + "\n" + Fence) == body
  {
    var c := "\n" + body + "\n" + Fence;
    var raw := Fence + c;
    Halves(Fence, c);
    assert raw[3] == '\n' by { assert raw[3] == c[0]; }
    assert !StartsWith(raw, JsonFence) by { assert JsonFence[3] == 'j'; }
    assert raw == Fence + "\n" + body + "\n" + Fence;
    assert IsStripped(raw) by { assert raw[0] == '`' && raw[|raw| - 1] == c[|c| - 1] == '`'; }
    StripStripped(raw);
    assert StartsWith(raw, Fence);
    CloseFence(body);
  }

  /** A reply with no surrounding white space and no fence at either end is left as it is. */
  lemma CleanUnfenced(raw: string)
    requires IsStripped(raw) && !StartsWith(raw, Fence) && !EndsWith(raw, Fence)
    ensures CleanContent(raw) == raw
  {
    JsonFenceIsFence(raw);
    StripStripped(raw);
  }

  // ---------------------------------------------------------------------------
  // Regex extraction
  // ---------------------------------------------------------------------------

  /** The two capture shapes: "([^"]*)" and (\d+). */
  datatype Capture = Quoted | Digits

  predicate IsDigit(c: char) {
    '0' <= c <= '9'
  }

  /** The end of the run of white space starting at j: what \s* consumes. */
  function SkipSpaces(s: string, j: nat): (r: nat)
    requires j <= |s|
    ensures j <= r <= |s|
    decreases |s| - j
  {
    if j < |s| && IsSpace(s[j]) then SkipSpaces(s, j + 1) else j
  }

  /** \s* is greedy: it consumes white space only, and all of it. */
  lemma {:induction false} SkipSpacesMaximal(s: string, j: nat)
    requires j <= |s|
    ensures forall k :: j <= k < SkipSpaces(s, j) ==> IsSpace(s[k])
    ensures SkipSpaces(s, j) == |s| || !IsSpace(s[SkipSpaces(s, j)])
    decreases |s| - j
  {
    if j < |s| && IsSpace(s[j]) {
      SkipSpacesMaximal(s, j + 1);
    }
  }

  /** The end of the run of digits starting at j. */
  function SkipDigits(s: string, j: nat): (r: nat)
    requires j <= |s|
    ensures j <= r <= |s|
    ensures forall k :: j <= k < r ==> IsDigit(s[k])
    decreases |s| - j
  {
    if j < |s| && IsDigit(s[j]) then SkipDigits(s, j + 1) else j
  }

  /** \d+ is greedy: the run of digits stops only at a non-digit or at the end. */
  lemma {:induction false} SkipDigitsMaximal(s: string, j: nat)
    requires j <= |s|
    ensures SkipDigits(s, j) == |s| || !IsDigit(s[SkipDigits(s, j)])
    decreases |s| - j
  {
    if j < |s| && IsDigit(s[j]) {
      SkipDigitsMaximal(s, j + 1);
    }
  }

  /** Where the capture starts when `"key"\s*:\s*` matches at i. */
  function KeyPrefixAt(s: string, key: string, i: nat): (r: Option<nat>)
    ensures r.Some? ==> i < r.value <= |s|
    ensures r.Some? ==> OccursAt(s, "\"" + key + "\"", i)
  {
    var lit := "\"" + key + "\"";
    if i + |lit| <= |s| && s[i..i + |lit|] == lit then
      var j := SkipSpaces(s, i + |lit|);
      if j < |s| && s[j] == ':' then Some(SkipSpaces(s, j + 1)) else None
    else None
  }

  /** The group the capture matches at j, if any. "([^"]*)" needs a closing quote;
      the greedy [^"]* stops at the first one. (\d+) takes the longest run, at least one digit. */
  function CaptureAt(c: Capture, s: string, j: nat): (r: Option<string>)
    requires j <= |s|
    ensures r.Some? && c == Quoted ==> '"' !in r.value
    ensures r.Some? && c == Digits ==> r.value != [] && forall k :: 0 <= k < |r.value| ==> IsDigit(r.value[k])
  {
    match c
    case Quoted =>
      if j < |s| && s[j] == '"' then
        var close := Find(s[j + 1..], '"');
        if close >= 0 then Some(s[j + 1..j + 1 + close]) else None
      else None
    case Digits =>
      var e := SkipDigits(s, j);
      if e > j then Some(s[j..e]) else None
  }

  /** The group of pattern `"key"\s*:\s*` followed by the capture, matched at index i. */
  function MatchAt(c: Capture, s: string, key: string, i: nat): (r: Option<string>)
    ensures r.Some? ==> OccursAt(s, "\"" + key + "\"", i)
    ensures r.Some? && c == Quoted ==> '"' !in r.value
    ensures r.Some? && c == Digits ==> r.value != [] && forall k :: 0 <= k < |r.value| ==> IsDigit(r.value[k])
  {
    match KeyPrefixAt(s, key, i)
    case None => None
    case Some(j) => CaptureAt(c, s, j)
  }

  /** The leftmost index at or after i where the pattern matches. */
  function FirstMatch(c: Capture, s: string, key: string, i: nat): (r: Option<nat>)
    requires i <= |s|
    ensures r.None? ==> forall k :: i <= k <= |s| ==> MatchAt(c, s, key, k).None?
    ensures r.Some? ==> i <= r.value <= |s| && MatchAt(c, s, key, r.value).Some?
    ensures r.Some? ==> forall k :: i <= k < r.value ==> MatchAt(c, s, key, k).None?
    decreases |s| - i
  {
    if MatchAt(c, s, key, i).Some? then Some(i)
    else if i == |s| then None
    else FirstMatch(c, s, key, i + 1)
  }

  /** re.search(pattern, s).group(1): the group of the leftmost match, if any. */
  function Search(c: Capture, s: string, key: string): (r: Option<string>)
    ensures r.None? <==> forall k :: 0 <= k <= |s| ==> MatchAt(c, s, key, k).None?
    ensures r.Some? ==> exists k :: 0 <= k <= |s| && MatchAt(c, s, key, k) == r
                                    && (forall j :: 0 <= j < k ==> MatchAt(c, s, key, j).None?)
  {
    match FirstMatch(c, s, key, 0)
    case None => None
    case Some(k) => MatchAt(c, s, key, k)
  }

  function Pow10(n: nat): (r: nat)
    ensures r >= 1
  {
    if n == 0 then 1 else 10 * Pow10(n - 1)
  }

  /** int() of a string of ASCII digits: below 10 to the number of digits. */
  function DigitsValue(d: string): (r: nat)
    requires forall k :: 0 <= k < |d| ==> IsDigit(d[k])
    ensures r < Pow10(|d|)
    decreases |d|
  {
    if d == [] then 0
    else
      assert IsDigit(d[|d| - 1]);
      10 * DigitsValue(d[..|d| - 1]) + (d[|d| - 1] as int - '0' as int)
  }

  /** The decimal numeral of n, as str(n) writes it. */
  function Decimal(n: nat): (r: string)
    ensures r != [] && forall k :: 0 <= k < |r| ==> IsDigit(r[k])
    decreases n
  {
    var last := ['0' + (n % 10) as char];
    if n < 10 then last else Decimal(n / 10) + last
  }

  /** int(str(n)) == n: every room count the regex can read back is the one written. */
  lemma {:induction false} DigitsValueOfDecimal(n: nat)
    ensures DigitsValue(Decimal(n)) == n
    decreases n
  {
    var d := Decimal(n);
    if n >= 10 {
      DigitsValueOfDecimal(n / 10);
      assert d[..|d| - 1] == Decimal(n / 10);
    }
  }

  /** What _extract_with_regex returns for content. */
  function RegexResult(content: string): (r: JsonMap)
    ensures r.Keys == {SemanticQueryKey, FiltersKey, PreferencesKey}
    ensures r[PreferencesKey] == EmptyPreferences
    ensures r[SemanticQueryKey] == JStr(Search(Quoted, content, SemanticQueryKey).GetOr(""))
    ensures r[FiltersKey].JObj? && r[FiltersKey].fields.Keys <= {"habitaciones", "tipo"}
    ensures "habitaciones" in r[FiltersKey].fields <==> Search(Digits, content, "habitaciones").Some?
    ensures "habitaciones" in r[FiltersKey].fields ==>
      r[FiltersKey].fields["habitaciones"] == JNum(DigitsValue(Search(Digits, content, "habitaciones").value) as real)
    ensures "tipo" in r[FiltersKey].fields <==> Search(Quoted, content, "tipo").Some?
    ensures "tipo" in r[FiltersKey].fields ==> r[FiltersKey].fields["tipo"] == JStr(Search(Quoted, content, "tipo").value)
  {
    var rooms := Search(Digits, content, "habitaciones");
    RegexQuery(Search(Quoted, content, SemanticQueryKey),
               if rooms.Some? then Some(DigitsValue(rooms.value)) else None,
               Search(Quoted, content, "tipo"))
  }

  /** The structured query built from the three regex captures, the room count already parsed. */
  function RegexQuery(semantic: Option<string>, rooms: Option<nat>, kind: Option<string>): (r: JsonMap)
    ensures r.Keys == {SemanticQueryKey, FiltersKey, PreferencesKey}
    ensures r[PreferencesKey] == EmptyPreferences
    ensures r[SemanticQueryKey] == JStr(semantic.GetOr(""))
    ensures r[FiltersKey].JObj? && r[FiltersKey].fields.Keys <= {"habitaciones", "tipo"}
    ensures "habitaciones" in r[FiltersKey].fields <==> rooms.Some?
    ensures "habitaciones" in r[FiltersKey].fields ==> r[FiltersKey].fields["habitaciones"] == JNum(rooms.value as real)
    ensures "tipo" in r[FiltersKey].fields <==> kind.Some?
    ensures "tipo" in r[FiltersKey].fields ==> r[FiltersKey].fields["tipo"] == JStr(kind.value)
  {
    var f1: JsonMap := if rooms.Some? then map["habitaciones" := JNum(rooms.value as real)] else map[];
    var f2: JsonMap := if kind.Some? then f1["tipo" := JStr(kind.value)] else f1;
    Query(JStr(semantic.GetOr("")), f2, EmptyPreferences)
  }

  /** _extract_with_regex: starts from an empty structured query and records the
      semantic query, the number of rooms and the property type where the
      patterns match. */
  method ExtractWithRegex(content: string) returns (result: JsonMap)
    ensures result == RegexResult(content)
  {
    var filters: JsonMap := map[];
    result := Query(JStr(""), filters, EmptyPreferences);
    var semanticMatch := Search(Quoted, content, SemanticQueryKey);
    if semanticMatch.Some? {
      QueryUpdate(JStr(""), filters, EmptyPreferences, JStr(semanticMatch.value), filters);
      result := result[SemanticQueryKey := JStr(semanticMatch.value)];
    }
    var semantic := JStr(semanticMatch.GetOr(""));
    assert result == Query(semantic, filters, EmptyPreferences);
    var roomsMatch := Search(Digits, content, "habitaciones");
    if roomsMatch.Some? {
      var filters' := filters["habitaciones" := JNum(DigitsValue(roomsMatch.value) as real)];
      QueryUpdate(semantic, filters, EmptyPreferences, semantic, filters');
      filters := filters';
      result := result[FiltersKey := JObj(filters)];
    }
    var kindMatch := Search(Quoted, content, "tipo");
    if kindMatch.Some? {
      var filters' := filters["tipo" := JStr(kindMatch.value)];
      QueryUpdate(semantic, filters, EmptyPreferences, semantic, filters');
      filters := filters';
      result := result[FiltersKey := JObj(filters)];
    }
  }

  /** A key written with a quoted value at the very start of the content is what the search returns. */
  lemma {:induction false} QuotedValueAtStart(key: string, value: string, rest: string)
    requires '"' !in value
    ensures Search(Quoted, "\"" + key + "\": \"" + value + "\"" + rest, key) == Some(value)
  {
    var s := "\"" + key + "\": \"" + value + "\"" + rest;
    var lit := "\"" + key + "\"";
    assert s[0..|lit|] == lit;
    assert s[|lit|] == ':';
    assert !IsSpace(s[|lit|]);
    assert SkipSpaces(s, |lit|) == |lit|;
    var j := |lit| + 2;
    assert IsSpace(s[|lit| + 1]) && !IsSpace(s[j]);
    assert SkipSpaces(s, |lit| + 2) == j;
    assert SkipSpaces(s, |lit| + 1) == j;
    assert KeyPrefixAt(s, key, 0) == Some(j);
    assert s[j + 1..] == value + "\"" + rest;
    assert (value + "\"" + rest)[..|value|] == value;
    assert (value + "\"" + rest)[|value|] == '"';
    assert Find(s[j + 1..], '"') == |value|;
    assert s[j + 1..j + 1 + |value|] == value;
    assert MatchAt(Quoted, s, key, 0) == Some(value);
    assert FirstMatch(Quoted, s, key, 0) == Some(0);
  }

  // ---------------------------------------------------------------------------
  // The JSON strategy chain
  // ---------------------------------------------------------------------------

  /** The text from the first { to the last }, when a } follows the first {. */
  function BraceSlice(content: string): (r: Option<string>)
    ensures r.Some? <==> '{' in content && RFind(content, '}') > Find(content, '{')
    ensures r.Some? ==> r.value == content[Find(content, '{')..RFind(content, '}') + 1]
    ensures r.Some? ==> |r.value| >= 2 && r.value[0] == '{' && r.value[|r.value| - 1] == '}'
  {
    var start := Find(content, '{');
    var end := RFind(content, '}') + 1;
    if start >= 0 && end > start then Some(content[start..end]) else None
  }

  /** Text around a braced body that holds no { before it and no } after it is cut away. */
  lemma BraceSliceOfWrapped(before: string, body: string, after: string)
    requires '{' !in before && '}' !in after
    requires |body| >= 2 && body[0] == '{' && body[|body| - 1] == '}'
    ensures BraceSlice(before + body + after) == Some(body)
  {
    var s := before + body + after;
    assert s[|before|] == '{' && s[..|before|] == before;
    assert Find(s, '{') == |before|;
    var last := |before| + |body| - 1;
    assert s[last] == '}' && s[last + 1..] == after;
    assert RFind(s, '}') == last;
    assert s[|before|..last + 1] == body;
  }

  /** The first present option of a sequence. */
  function FirstSome<T>(options: seq<Option<T>>): (r: Option<T>)
    ensures r.None? <==> forall i :: 0 <= i < |options| ==> options[i].None?
    ensures r.Some? ==> exists i :: (0 <= i < |options| && options[i] == r
      && forall j :: 0 <= j < i ==> options[j].None?)
  {
    if options == [] then None
    else if options[0].Some? then options[0]
    else
      var rest := FirstSome(options[1..]);
      assert forall i :: 1 <= i < |options| ==> options[i] == options[1..][i - 1];
      rest
  }

  /** The parses tried in order: the content as it is, the repaired content, the braced slice. */
  function Strategies(content: string, loads: string -> Option<Json>, repair: string -> string): seq<Option<Json>> {
    [ loads(content),
      loads(repair(content)),
      match BraceSlice(content) case Some(part) => loads(part) case None => None ]
  }

  /** _safe_json_parse: the first strategy that parses, else the regex extraction; it never fails. */
  function SafeJsonParse(content: string, loads: string -> Option<Json>, repair: string -> string): (r: Json)
    ensures loads(content).Some? ==> r == loads(content).value
    ensures (forall i :: 0 <= i < 3 ==> Strategies(content, loads, repair)[i].None?) ==> r == JObj(RegexResult(content))
  {
    match FirstSome(Strategies(content, loads, repair))
    case Some(parsed) => parsed
    case None => JObj(RegexResult(content))
  }

  /** When only the braced slice parses, its parse is the result. */
  lemma OnlyBraceSliceParses(content: string, loads: string -> Option<Json>, repair: string -> string)
    requires loads(content).None? && loads(repair(content)).None?
    requires BraceSlice(content).Some? && loads(BraceSlice(content).value).Some?
    ensures SafeJsonParse(content, loads, repair) == loads(BraceSlice(content).value).value
  {
    var st := Strategies(content, loads, repair);
    assert st[0].None? && st[1].None? && st[2] == loads(BraceSlice(content).value);
  }

  /** When the content parses only after repair, the repaired parse is the result. */
  lemma OnlyRepairParses(content: string, loads: string -> Option<Json>, repair: string -> string)
    requires loads(content).None? && loads(repair(content)).Some?
    ensures SafeJsonParse(content, loads, repair) == loads(repair(content)).value
  {
    var st := Strategies(content, loads, repair);
    assert st[0].None? && st[1] == loads(repair(content));
  }

  // ---------------------------------------------------------------------------
  // Validation
  // ---------------------------------------------------------------------------

  datatype ValidationError = NotAnObject | MissingKey(key: string) | FiltersNotObject

  /** The first of keys that m lacks. */
  function FirstMissing(m: JsonMap, keys: seq<string>): (r: Option<string>)
    ensures r.None? <==> forall i :: 0 <= i < |keys| ==> keys[i] in m
    ensures r.Some? ==> exists i :: (0 <= i < |keys| && keys[i] == r.value && r.value !in m
      && forall j :: 0 <= j < i ==> keys[j] in m)
  {
    if keys == [] then None
    else if keys[0] !in m then Some(keys[0])
    else
      var rest := FirstMissing(m, keys[1..]);
      assert forall i :: 1 <= i < |keys| ==> keys[i] == keys[1..][i - 1];
      rest
  }

  /** The filters with every null and every empty-string value removed. */
  function CleanFilters(filters: JsonMap): (r: JsonMap)
    ensures forall k :: k in r <==> k in filters && filters[k] != JNull && filters[k] != JStr("")
    ensures forall k :: k in r ==> r[k] == filters[k]
  {
    map k | k in filters && filters[k] != JNull && filters[k] != JStr("") :: filters[k]
  }

  /** What _validate_parsed_query makes of a parse: the error it raises, or the
      parse with its filters cleaned. Every non-object parse raises, as does
      a filters value that is not an object. */
  function Validate(parsed: Json): (r: Result<JsonMap, ValidationError>)
    ensures r.Success? <==> (parsed.JObj? && (forall k :: k in RequiredKeys ==> k in parsed.fields)
      && FiltersKey in parsed.fields && parsed.fields[FiltersKey].JObj?)
    ensures r.Success? ==> (r.value.Keys == parsed.fields.Keys
      && (forall k :: k in r.value && k != FiltersKey ==> r.value[k] == parsed.fields[k])
      && r.value[FiltersKey] == JObj(CleanFilters(parsed.fields[FiltersKey].fields)))
    ensures r.Failure? && r.error.MissingKey? ==> parsed.JObj? && FirstMissing(parsed.fields, RequiredKeys) == Some(r.error.key)
  {
    if !parsed.JObj? then Failure(NotAnObject)
    else
      match FirstMissing(parsed.fields, RequiredKeys)
      case Some(k) => Failure(MissingKey(k))
      case None =>
        assert RequiredKeys[1] == FiltersKey;
        var filters := parsed.fields[FiltersKey];
        if !filters.JObj? then Failure(FiltersNotObject)
        else Success(parsed.fields[FiltersKey := JObj(CleanFilters(filters.fields))])
  }

  /** _validate_parsed_query: checks the required keys in order, raising on the
      first one missing, then replaces the filters by their cleaned copy. */
  method ValidateParsedQuery(parsed: Json) returns (r: Result<JsonMap, ValidationError>)
    ensures r == Validate(parsed)
  {
    if !parsed.JObj? {
      return Failure(NotAnObject);
    }
    var query := parsed.fields;
    for i := 0 to |RequiredKeys|
      invariant FirstMissing(query, RequiredKeys) == FirstMissing(query, RequiredKeys[i..])
    {
      assert RequiredKeys[i..][1..] == RequiredKeys[i + 1..];
      if RequiredKeys[i] !in query {
        return Failure(MissingKey(RequiredKeys[i]));
      }
    }
    var filters := query[FiltersKey];
    if !filters.JObj? {
      return Failure(FiltersNotObject);
    }
    query := query[FiltersKey := JObj(map k | k in filters.fields && filters.fields[k] != JNull && filters.fields[k] != JStr("") :: filters.fields[k])];
    r := Success(query);
  }

  // ---------------------------------------------------------------------------
  // The whole chain
  // ---------------------------------------------------------------------------

  /** The structures parse_query_to_json returns: the three required keys, and
      filters that are an object holding no null and no empty string. */
  predicate IsStructuredQuery(r: JsonMap) {
    && SemanticQueryKey in r && FiltersKey in r && PreferencesKey in r
    && r[FiltersKey].JObj?
    && forall k :: k in r[FiltersKey].fields ==> r[FiltersKey].fields[k] != JNull && r[FiltersKey].fields[k] != JStr("")
  }

  /** The validated parse of the cleaned content, or the passthrough when validation raises. */
  function ParseContent(userQuery: string, content: string,
                        loads: string -> Option<Json>, repair: string -> string): (r: JsonMap)
    ensures IsStructuredQuery(r)
  {
    match Validate(SafeJsonParse(content, loads, repair))
    case Success(query) => query
    case Failure(_) => Passthrough(userQuery)
  }

  /** What parse_query_to_json returns for userQuery. */
  function ParseQuery(userQuery: string, llm: string -> Option<string>,
                      loads: string -> Option<Json>, repair: string -> string): (r: JsonMap)
    ensures IsStructuredQuery(r)
    ensures llm(userQuery).None? ==> r == Passthrough(userQuery)
  {
    ParseResponse(userQuery, llm(userQuery), loads, repair)
  }

  /** The query parse_query_to_json builds from the model's response: the parse
      of the cleaned reply, or the passthrough when the model call failed. */
  function ParseResponse(userQuery: string, response: Option<string>,
                         loads: string -> Option<Json>, repair: string -> string): (r: JsonMap)
    ensures IsStructuredQuery(r)
    ensures response.None? ==> r == Passthrough(userQuery)
  {
    match response
    case None => Passthrough(userQuery)
    case Some(reply) => ParseContent(userQuery, CleanContent(reply), loads, repair)
  }

  /** The fence stripping of parse_query_to_json, reassigning the content step by step. */
  method StripFences(reply: string) returns (content: string)
    ensures content == CleanContent(reply)
  {
    content := Strip(reply);
    content := DropJsonFence(content);
    content := DropOpenFence(content);
    content := DropCloseFence(content);
    content := Strip(content);
  }

  /** parse_query_to_json: asks the model, strips fences from its reply, parses and
      validates it, and passes the query through on any failure. */
  method ParseQueryToJson(userQuery: string, llm: string -> Option<string>,
                          loads: string -> Option<Json>, repair: string -> string) returns (parsed: JsonMap)
    ensures parsed == ParseQuery(userQuery, llm, loads, repair)
  {
    var response := llm(userQuery);
    if response.None? {
      return Passthrough(userQuery);
    }
    var reply := response.value;
    assert ParseResponse(userQuery, response, loads, repair) == ParseContent(userQuery, CleanContent(reply), loads, repair);
    var content := StripFences(reply);
    var validated := ValidateParsedQuery(SafeJsonParse(content, loads, repair));
    match validated {
      case Success(query) => parsed := query;
      case Failure(_) => parsed := Passthrough(userQuery);
    }
  }

  // ---------------------------------------------------------------------------
  // The analysis display
  // ---------------------------------------------------------------------------

  /** Python truthiness of a parsed JSON value: null, false, 0, "", [] and {} are false. */
  predicate JsonTruthy(v: Json) {
    match v
    case JNull => false
    case JBool(b) => b
    case JNum(x) => x != 0.0
    case JStr(t) => t != ""
    case JArr(items) => items != []
    case JObj(fields) => fields != map[]
  }

  /** The `,` format spec accepts numbers, booleans among them; a string raises
      ValueError and a list or an object TypeError. */
  predicate Formattable(v: Json) {
    v.JNum? || v.JBool?
  }

  /** ', '.join(v) iterates v: a string yields its characters and an object its
      keys, both strings; a list joins only when every item is a string; a
      number or a boolean is not iterable. */
  predicate Joinable(v: Json) {
    match v
    case JStr(_) => true
    case JObj(_) => true
    case JArr(items) => forall k :: 0 <= k < |items| ==> items[k].JStr?
    case _ => false
  }

  /** The price filter key is shown (it is set and truthy) but cannot be formatted. */
  predicate PriceUnshowable(filters: JsonMap, key: string) {
    key in filters && JsonTruthy(filters[key]) && !Formattable(filters[key])
  }

  /** The preference list key is shown (it is set and truthy) but cannot be joined. */
  predicate PreferenceUnshowable(prefs: JsonMap, key: string) {
    key in prefs && JsonTruthy(prefs[key]) && !Joinable(prefs[key])
  }

  /** _display_analysis raises on parsed: a missing semantic_query or filters
      key (KeyError), truthy filters that are not an object (AttributeError),
      an unformattable price filter, preferences that are not an object
      (AttributeError), or a preference list that cannot be joined. */
  predicate DisplayRaises(parsed: JsonMap) {
    || SemanticQueryKey !in parsed || FiltersKey !in parsed
    || (JsonTruthy(parsed[FiltersKey]) && !parsed[FiltersKey].JObj?)
    || (parsed[FiltersKey].JObj?
        && (PriceUnshowable(parsed[FiltersKey].fields, "precio_max")
            || PriceUnshowable(parsed[FiltersKey].fields, "precio_min")))
    || (PreferencesKey in parsed && !parsed[PreferencesKey].JObj?)
    || (PreferencesKey in parsed && parsed[PreferencesKey].JObj?
        && (PreferenceUnshowable(parsed[PreferencesKey].fields, "estilo_vida")
            || PreferenceUnshowable(parsed[PreferencesKey].fields, "caracteristicas_deseadas")))
  }

  /** The exception _display_analysis lets escape; which one it is is not modelled. */
  datatype DisplayError = DisplayRaised

  /** What get_enhanced_query_info returns: the parsed query, or the exception
      the analysis display raises on it. Without the display it never fails. */
  function EnhancedQueryInfo(userQuery: string, showAnalysis: bool, llm: string -> Option<string>,
                             loads: string -> Option<Json>, repair: string -> string): (r: Result<JsonMap, DisplayError>)
    ensures r.Success? ==> r.value == ParseQuery(userQuery, llm, loads, repair)
    ensures r.Failure? ==> showAnalysis
  {
    var parsed := ParseQuery(userQuery, llm, loads, repair);
    if showAnalysis && DisplayRaises(parsed) then Failure(DisplayRaised) else Success(parsed)
  }

  /** get_enhanced_query_info: parses the query and, when showAnalysis is set,
      shows the analysis, which may raise. */
  method GetEnhancedQueryInfo(userQuery: string, showAnalysis: bool, llm: string -> Option<string>,
                              loads: string -> Option<Json>, repair: string -> string)
    returns (r: Result<JsonMap, DisplayError>)
    ensures r == EnhancedQueryInfo(userQuery, showAnalysis, llm, loads, repair)
  {
    var parsed := ParseQueryToJson(userQuery, llm, loads, repair);
    if showAnalysis && DisplayRaises(parsed) {
      return Failure(DisplayRaised);
    }
    return Success(parsed);
  }

  /** When the model call fails, the passthrough is shown without error. */
  lemma FailedCallIsShown(userQuery: string, showAnalysis: bool, llm: string -> Option<string>,
                          loads: string -> Option<Json>, repair: string -> string)
    requires llm(userQuery).None?
    ensures EnhancedQueryInfo(userQuery, showAnalysis, llm, loads, repair) == Success(Passthrough(userQuery))
  {
    var prefs := EmptyPreferences.fields;
    assert !JsonTruthy(prefs["estilo_vida"]) && !JsonTruthy(prefs["caracteristicas_deseadas"]);
  }

  /** A query with no price filter and empty preferences is shown without error. */
  lemma NoPriceNoPreferencesIsShown(q: JsonMap)
    requires SemanticQueryKey in q && FiltersKey in q && q[FiltersKey].JObj?
    requires "precio_max" !in q[FiltersKey].fields && "precio_min" !in q[FiltersKey].fields
    requires PreferencesKey in q && q[PreferencesKey] == EmptyPreferences
    ensures !DisplayRaises(q)
  {
    var prefs := EmptyPreferences.fields;
    assert !JsonTruthy(prefs["estilo_vida"]) && !JsonTruthy(prefs["caracteristicas_deseadas"]);
  }

  /** Content no strategy parses falls back to the regex extraction, which is
      always shown without error. */
  lemma RegexFallbackIsShown(userQuery: string, content: string, loads: string -> Option<Json>,
                             repair: string -> string)
    requires var st := Strategies(content, loads, repair);
      st[0].None? && st[1].None? && st[2].None?
    ensures !DisplayRaises(ParseContent(userQuery, content, loads, repair))
  {
    RegexFallbackResult(userQuery, content, loads, repair);
    var extracted := RegexResult(content);
    var cleaned := extracted[FiltersKey := JObj(CleanFilters(extracted[FiltersKey].fields))];
    assert cleaned[FiltersKey].fields.Keys <= {"habitaciones", "tipo"};
    NoPriceNoPreferencesIsShown(cleaned);
  }

  /** A reply that parses to a price filter written as a word (precio_max:
      "barato") is accepted, and then showing it raises: the query never reaches
      the search. */
  lemma WordPriceRaises(userQuery: string, content: string, loads: string -> Option<Json>,
                        repair: string -> string, m: JsonMap, w: string)
    requires loads(content) == Some(JObj(m))
    requires SemanticQueryKey in m && FiltersKey in m && PreferencesKey in m && m[FiltersKey].JObj?
    requires "precio_max" in m[FiltersKey].fields && m[FiltersKey].fields["precio_max"] == JStr(w) && w != ""
    ensures DisplayRaises(ParseContent(userQuery, content, loads, repair))
  {
    DirectParseAccepted(userQuery, content, loads, repair, m);
    var parsed := ParseContent(userQuery, content, loads, repair);
    assert parsed[FiltersKey] == JObj(CleanFilters(m[FiltersKey].fields));
    assert PriceUnshowable(parsed[FiltersKey].fields, "precio_max");
  }

  /** Content that parses directly to an object with the required keys yields that object with cleaned filters. */
  lemma DirectParseAccepted(userQuery: string, content: string, loads: string -> Option<Json>,
                            repair: string -> string, m: JsonMap)
    requires loads(content) == Some(JObj(m))
    requires SemanticQueryKey in m && FiltersKey in m && PreferencesKey in m && m[FiltersKey].JObj?
    ensures ParseContent(userQuery, content, loads, repair) == m[FiltersKey := JObj(CleanFilters(m[FiltersKey].fields))]
  {
    assert forall k :: k in RequiredKeys ==> k in m;
  }

  /** A parse that is not an object, or lacks a required key, sends the query through unchanged. */
  lemma InvalidParseIsPassthrough(userQuery: string, content: string, loads: string -> Option<Json>,
                                  repair: string -> string)
    requires var p := SafeJsonParse(content, loads, repair);
      !p.JObj? || SemanticQueryKey !in p.fields || FiltersKey !in p.fields || PreferencesKey !in p.fields
    ensures ParseContent(userQuery, content, loads, repair) == Passthrough(userQuery)
  {
    assert RequiredKeys[0] == SemanticQueryKey && RequiredKeys[1] == FiltersKey && RequiredKeys[2] == PreferencesKey;
  }

  /** When no strategy parses, the result is the regex extraction (with an empty type
      dropped), never the passthrough: its semantic query is the extracted one
      or "", not the user's query. */
  lemma RegexFallbackResult(userQuery: string, content: string, loads: string -> Option<Json>,
                            repair: string -> string)
    requires var st := Strategies(content, loads, repair);
      st[0].None? && st[1].None? && st[2].None?
    ensures var extracted := RegexResult(content);
      ParseContent(userQuery, content, loads, repair)
        == extracted[FiltersKey := JObj(CleanFilters(extracted[FiltersKey].fields))]
    ensures ParseContent(userQuery, content, loads, repair)[SemanticQueryKey]
      == JStr(Search(Quoted, content, SemanticQueryKey).GetOr(""))
  {
    var st := Strategies(content, loads, repair);
    assert forall i :: 0 <= i < 3 ==> st[i].None?;
    var extracted := RegexResult(content);
    assert SafeJsonParse(content, loads, repair) == JObj(extracted);
    assert forall k :: k in RequiredKeys ==> k in extracted;
    var v := Validate(JObj(extracted));
    assert v.Success?;
    assert v.value == extracted[FiltersKey := JObj(CleanFilters(extracted[FiltersKey].fields))];
  }

  /** A ```json fenced reply whose body parses to an object with the required keys is accepted as that object. */
  lemma FencedReplyAccepted(userQuery: string, llm: string -> Option<string>,
                            loads: string -> Option<Json>, repair: string -> string, body: string, m: JsonMap)
    requires IsStripped(body) && llm(userQuery) == Some(JsonFence + "\n" + body + "\n" + Fence)
    requires loads(body) == Some(JObj(m))
    requires SemanticQueryKey in m && FiltersKey in m && PreferencesKey in m && m[FiltersKey].JObj?
    ensures ParseQuery(userQuery, llm, loads, repair) == m[FiltersKey := JObj(CleanFilters(m[FiltersKey].fields))]
  {
    CleanJsonFenced(body);
    DirectParseAccepted(userQuery, body, loads, repair, m);
  }
}
