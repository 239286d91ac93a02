/** Record normalisation: cleaning a batch of listing rows, the descriptive
    text that is embedded, and the structured metadata that is filtered and
    scored. A row maps each column of the table to its cell; a missing cell
    (pandas NaN or None) is None. */
module DataProcessor {

  import opened Wrappers
  import opened Values
  import opened Text
  import opened Seqs

  type Row = map<string, Option<Value>>

  /** The free-text columns, in the order their lines are emitted, and their labels. */
  const TextColumns: seq<string> :=
    ["titulo", "direccion", "caract", "caract_extra", "descrip", "descrip_keywords"]
  const TextLabels: seq<string> :=
    ["Propiedad", "Ubicación", "Características", "Extras", "Descripción", "Palabras clave"]

  const NumericalColumns: seq<string> := ["precio", "metros", "Habitaciones", "Baños", "postal_code"]

  const CategoricalColumns: seq<string> := [
    "tipo", "barrio", "distrito", "localidad", "provincia", "Antigüedad",
    "Aire acondicionado", "Calefaccion", "Garaje", "Planta", "Conservación",
    "Ascensor", "Exterior", "Trastero", "Amueblado"
  ]

  /** Categorical renderings that count as "no value". */
  const Placeholders: seq<string> := ["No especificado", "nan", "", "None"]
  const Unspecified := "No especificado"

  const TitleColumn := "titulo"
  const UrlColumn := "url_inmueble"

  /** The derived metadata keys. */
  const UrlKey := "url"
  const PricePerAreaKey := "precio_por_m2"
  const CompletenessKey := "completeness_score"

  /** The single line used when a row has no descriptive text at all. */
  const FallbackText := "Propiedad inmobiliaria"

  /** The denominator of the completeness score: the 5 numeric plus the 15 categorical columns. */
  const TotalFields: nat := 20

  /** Every key the structured metadata may hold. */
  predicate IsMetadataKey(k: string) {
    k in NumericalColumns || k in CategoricalColumns || k == UrlKey || k == PricePerAreaKey || k == CompletenessKey
  }

  /** Python's row.get(col) on a pandas row. */
  function Cell(row: Row, col: string): Option<Value> {
    if col in row then row[col] else None
  }

  /** Python's str() of a cell; show is the interpreter's float formatting. */
  function Render(v: Value, show: real -> string): string {
    match v
    case Str(s) => s
    case Num(x) => show(x)
  }

  // ---------------------------------------------------------------------------
  // Descriptive text
  // ---------------------------------------------------------------------------

  /** A text column contributes a line when its cell is present and renders non-empty. */
  predicate HasText(row: Row, col: string, show: real -> string) {
    Cell(row, col).Some? && Render(Cell(row, col).value, show) != ""
  }

  /** The line "Label: value" of text column k. */
  function Line(row: Row, show: real -> string, k: nat): string
    requires k < |TextColumns| && HasText(row, TextColumns[k], show)
  {
    TextLabels[k] + ": " + Render(Cell(row, TextColumns[k]).value, show)
  }

  /** The line of text column k, if it has one. */
  function LineOf(row: Row, show: real -> string, k: nat): seq<string>
    requires k < |TextColumns|
  {
    if HasText(row, TextColumns[k], show) then [Line(row, show, k)] else []
  }

  /** The lines of text columns 0 .. k-1, in column order. */
  function LinesUpTo(row: Row, show: real -> string, k: nat): seq<string>
    requires k <= |TextColumns|
  {
    if k == 0 then [] else LinesUpTo(row, show, k - 1) + LineOf(row, show, k - 1)
  }

  /** The lines of the descriptive text: one per present text column, or the fallback. */
  function DescriptiveLines(row: Row, show: real -> string): seq<string> {
    var lines := LinesUpTo(row, show, |TextColumns|);
    if lines == [] then [FallbackText] else lines
  }

  /** build_descriptive_text: appends one labelled line per present text field,
      in the fixed column order, falls back to a generic line, and joins with
      newlines. */
  method BuildDescriptiveText(row: Row, show: real -> string) returns (text: string)
    ensures text == Join(DescriptiveLines(row, show), "\n")
    ensures text != ""
  {
    var parts: seq<string> := [];
    if HasText(row, TextColumns[0], show) {
      parts := parts + [TextLabels[0] + ": " + Render(row[TextColumns[0]].value, show)];
    }
    assert parts == LinesUpTo(row, show, 1);
    if HasText(row, TextColumns[1], show) {
      parts := parts + [TextLabels[1] + ": " + Render(row[TextColumns[1]].value, show)];
    }
    assert parts == LinesUpTo(row, show, 2);
    if HasText(row, TextColumns[2], show) {
      parts := parts + [TextLabels[2] + ": " + Render(row[TextColumns[2]].value, show)];
    }
    assert parts == LinesUpTo(row, show, 3);
    if HasText(row, TextColumns[3], show) {
      parts := parts + [TextLabels[3] + ": " + Render(row[TextColumns[3]].value, show)];
    }
    assert parts == LinesUpTo(row, show, 4);
    if HasText(row, TextColumns[4], show) {
      parts := parts + [TextLabels[4] + ": " + Render(row[TextColumns[4]].value, show)];
    }
    assert parts == LinesUpTo(row, show, 5);
    if HasText(row, TextColumns[5], show) {
      parts := parts + [TextLabels[5] + ": " + Render(row[TextColumns[5]].value, show)];
    }
    assert parts == LinesUpTo(row, show, 6);
    if parts == [] {
      parts := [FallbackText];
    }
    text := Join(parts, "\n");
    DescriptiveTextNonEmpty(row, show);
  }

  /** Every line of columns 0 .. k-1 is the line of some present column j < k. */
  lemma {:induction false} LinesShape(row: Row, show: real -> string, k: nat, i: nat)
    requires k <= |TextColumns| && i < |LinesUpTo(row, show, k)|
    ensures exists j :: 0 <= j < k && HasText(row, TextColumns[j], show) && LinesUpTo(row, show, k)[i] == Line(row, show, j)
  {
    var prev := LinesUpTo(row, show, k - 1);
    if i < |prev| {
      LinesShape(row, show, k - 1, i);
      var j :| 0 <= j < k - 1 && HasText(row, TextColumns[j], show) && prev[i] == Line(row, show, j);
      assert LinesUpTo(row, show, k)[i] == prev[i];
    } else {
      assert LinesUpTo(row, show, k)[i] == Line(row, show, k - 1);
    }
  }

  /** There are no lines for columns 0 .. k-1 exactly when none of them has text. */
  lemma {:induction false} LinesEmpty(row: Row, show: real -> string, k: nat)
    requires k <= |TextColumns|
    ensures LinesUpTo(row, show, k) == [] <==> forall j :: 0 <= j < k ==> !HasText(row, TextColumns[j], show)
  {
    if k > 0 {
      LinesEmpty(row, show, k - 1);
      assert |LinesUpTo(row, show, k)| == |LinesUpTo(row, show, k - 1)| + |LineOf(row, show, k - 1)|;
    }
  }

  /** The lines of a prefix of the columns are a prefix of the lines. */
  lemma {:induction false} LinesGrow(row: Row, show: real -> string, j: nat, k: nat)
    requires j <= k <= |TextColumns|
    ensures |LinesUpTo(row, show, j)| <= |LinesUpTo(row, show, k)|
    ensures LinesUpTo(row, show, j) == LinesUpTo(row, show, k)[..|LinesUpTo(row, show, j)|]
  {
    if j < k {
      LinesGrow(row, show, j, k - 1);
    }
  }

  /** The position of text column j's line among the lines: the number of lines before it. */
  function LineIndex(row: Row, show: real -> string, j: nat): nat
    requires j < |TextColumns|
  {
    |LinesUpTo(row, show, j)|
  }

  /** A present text column's line sits at LineIndex in the descriptive lines. */
  lemma LineAtIndex(row: Row, show: real -> string, j: nat)
    requires j < |TextColumns| && HasText(row, TextColumns[j], show)
    ensures LineIndex(row, show, j) < |DescriptiveLines(row, show)|
    ensures DescriptiveLines(row, show)[LineIndex(row, show, j)] == Line(row, show, j)
  {
    var i := LineIndex(row, show, j);
    LinesGrow(row, show, j + 1, |TextColumns|);
    assert LinesUpTo(row, show, j + 1)[i] == Line(row, show, j);
    assert LinesUpTo(row, show, |TextColumns|) != [];
  }

  /** Lines keep the column order: a present column's line precedes every later column's line. */
  lemma LinesOrdered(row: Row, show: real -> string, j1: nat, j2: nat)
    requires j1 < j2 < |TextColumns| && HasText(row, TextColumns[j1], show)
    ensures LineIndex(row, show, j1) < LineIndex(row, show, j2)
  {
    LinesGrow(row, show, j1 + 1, j2);
  }

  /** The descriptive text of any row is non-empty. */
  lemma DescriptiveTextNonEmpty(row: Row, show: real -> string)
    ensures Join(DescriptiveLines(row, show), "\n") != ""
  {
    var lines := DescriptiveLines(row, show);
    if LinesUpTo(row, show, |TextColumns|) != [] {
      LinesShape(row, show, |TextColumns|, 0);
    }
    JoinNonEmpty(lines, "\n", 0);
  }

  /** The text is exactly the fallback line when, and only when, no text column has text. */
  lemma FallbackExactlyWhenNoText(row: Row, show: real -> string)
    ensures Join(DescriptiveLines(row, show), "\n") == FallbackText
        <==> forall j :: 0 <= j < |TextColumns| ==> !HasText(row, TextColumns[j], show)
  {
    LinesEmpty(row, show, |TextColumns|);
    var lines := LinesUpTo(row, show, |TextColumns|);
    if lines != [] {
      LinesShape(row, show, |TextColumns|, 0);
      var j :| 0 <= j < |TextColumns| && HasText(row, TextColumns[j], show) && lines[0] == Line(row, show, j);
      JoinStartsWith(lines, "\n");
      LabelledTextIsNotFallback(row, show, j, Join(lines, "\n"));
    }
  }

  /** A text opening with a labelled line has a colon the fallback line lacks. */
  lemma LabelledTextIsNotFallback(row: Row, show: real -> string, j: nat, text: string)
    requires j < |TextColumns| && HasText(row, TextColumns[j], show) && StartsWith(text, Line(row, show, j))
    ensures text != FallbackText
  {
    var n := |TextLabels[j]|;
    assert n < |Line(row, show, j)| && Line(row, show, j)[n] == ':';
    assert text[n] == ':';
    assert forall i :: 0 <= i < |FallbackText| ==> FallbackText[i] != ':';
  }

  /** Each present text field appears in the text under its label. */
  lemma PresentFieldIsInText(row: Row, show: real -> string, j: nat)
    requires j < |TextColumns| && HasText(row, TextColumns[j], show)
    ensures Contains(Join(DescriptiveLines(row, show), "\n"), TextLabels[j] + ": " + Render(Cell(row, TextColumns[j]).value, show))
  {
    LineAtIndex(row, show, j);
    JoinContains(DescriptiveLines(row, show), "\n", LineIndex(row, show, j));
  }

  /** A present title is the first line of the text. */
  lemma TitleLeadsText(row: Row, show: real -> string)
    requires HasText(row, TitleColumn, show)
    ensures StartsWith(Join(DescriptiveLines(row, show), "\n"), "Propiedad: " + Render(row[TitleColumn].value, show))
  {
    var lines := LinesUpTo(row, show, |TextColumns|);
    assert LinesUpTo(row, show, 1) == [Line(row, show, 0)];
    LinesGrow(row, show, 1, |TextColumns|);
    assert lines[0] == Line(row, show, 0);
    assert DescriptiveLines(row, show) == lines;
    JoinStartsWith(lines, "\n");
    assert TextLabels[0] + ": " == "Propiedad: ";
    assert Line(row, show, 0) == "Propiedad: " + Render(row[TitleColumn].value, show);
  }

  // ---------------------------------------------------------------------------
  // Structured metadata
  // ---------------------------------------------------------------------------

  /** Cleaned rows hold numbers (or nothing) in the numeric columns. */
  predicate NumbersInNumericColumns(row: Row) {
    forall c :: c in NumericalColumns && c in row && row[c].Some? ==> row[c].value.Num?
  }

  /** A numeric column is kept when its cell is a present, non-zero number. */
  predicate KeepsNumber(row: Row, col: string) {
    match Cell(row, col)
    case Some(Num(x)) => x != 0.0
    case _ => false
  }

  /** A categorical column is kept when its cell is present and does not render as a placeholder. */
  predicate KeepsCategory(row: Row, col: string, show: real -> string) {
    Cell(row, col).Some? && Render(Cell(row, col).value, show) !in Placeholders
  }

  /** The scalar types the metadata carries, key by key. */
  predicate MetadataTyped(md: map<string, Value>) {
    && (forall k :: k in md && k in NumericalColumns ==> md[k].Num?)
    && (forall k :: k in md && k in CategoricalColumns ==> md[k].Str?)
    && (UrlKey in md ==> md[UrlKey].Str?)
    && (PricePerAreaKey in md ==> md[PricePerAreaKey].Num?)
    && (CompletenessKey in md ==> md[CompletenessKey].Num?)
  }

  /** The metadata after the numeric loop has visited columns 0 .. i-1. */
  function NumericUpTo(row: Row, i: nat): map<string, Value>
    requires i <= |NumericalColumns|
  {
    if i == 0 then map[]
    else
      var md := NumericUpTo(row, i - 1);
      var col := NumericalColumns[i - 1];
      if KeepsNumber(row, col) then md[col := row[col].value] else md
  }

  /** The metadata after the categorical loop has visited columns 0 .. i-1. */
  function CategoricalUpTo(row: Row, show: real -> string, i: nat): map<string, Value>
    requires i <= |CategoricalColumns|
  {
    if i == 0 then NumericUpTo(row, |NumericalColumns|)
    else
      var md := CategoricalUpTo(row, show, i - 1);
      var col := CategoricalColumns[i - 1];
      if KeepsCategory(row, col, show) then md[col := Str(Render(row[col].value, show))] else md
  }

  /** The url entry: the rendered url_inmueble cell, whenever the cell is present. */
  function WithUrl(row: Row, show: real -> string, md: map<string, Value>): map<string, Value> {
    if Cell(row, UrlColumn).Some? then md[UrlKey := Str(Render(row[UrlColumn].value, show))] else md
  }

  /** The price per square metre, when both price and area are truthy. */
  function WithPricePerArea(md: map<string, Value>, round2: real -> real): map<string, Value> {
    match (Get(md, "precio"), Get(md, "metros"))
    case (Some(Num(price)), Some(Num(area))) =>
      if price != 0.0 && area != 0.0 then md[PricePerAreaKey := Num(round2(price / area))] else md
    case _ => md
  }

  /** The keys whose value is not the empty string. */
  function FilledKeys(md: map<string, Value>): set<string> {
    set k | k in md && md[k] != Str("")
  }

  /** The values that are not the empty string. */
  function WithoutEmpty(md: map<string, Value>): map<string, Value> {
    map k | k in md && md[k] != Str("") :: md[k]
  }

  /** The metadata before the completeness score is added. */
  function Scored(row: Row, show: real -> string, round2: real -> real): map<string, Value> {
    WithPricePerArea(WithUrl(row, show, CategoricalUpTo(row, show, |CategoricalColumns|)), round2)
  }

  /** The metadata build_structured_metadata returns. */
  function StructuredMetadata(row: Row, show: real -> string, round2: real -> real): map<string, Value>
  {
    var md := Scored(row, show, round2);
    WithoutEmpty(md[CompletenessKey := Num(|FilledKeys(md)| as real / TotalFields as real)])
  }

  /** build_structured_metadata: fills a map with the kept numeric and categorical
      cells and the url, adds the price per square metre and the completeness
      score, then drops empty-string values. round2 is round(x, 2). */
  method BuildStructuredMetadata(row: Row, show: real -> string, round2: real -> real)
    returns (metadata: map<string, Value>)
    requires NumbersInNumericColumns(row)
    ensures metadata == StructuredMetadata(row, show, round2)
    ensures MetadataTyped(metadata)
  {
    metadata := map[];
    for i := 0 to |NumericalColumns|
      invariant metadata == NumericUpTo(row, i)
    {
      var col := NumericalColumns[i];
      if col in row && row[col].Some? && row[col].value.n != 0.0 {
        metadata := metadata[col := row[col].value];
      }
    }
    for i := 0 to |CategoricalColumns|
      invariant metadata == CategoricalUpTo(row, show, i)
    {
      var col := CategoricalColumns[i];
      if col in row && row[col].Some? && Render(row[col].value, show) !in Placeholders {
        metadata := metadata[col := Str(Render(row[col].value, show))];
      }
    }
    if UrlColumn in row && row[UrlColumn].Some? {
      metadata := metadata[UrlKey := Str(Render(row[UrlColumn].value, show))];
    }
    NumbersStayNumbers(row, show);
    if Truthy(Get(metadata, "precio")) && Truthy(Get(metadata, "metros")) {
      metadata := metadata[PricePerAreaKey := Num(round2(metadata["precio"].n / metadata["metros"].n))];
    }
    var filled := |set k | k in metadata && metadata[k] != Str("")|;
    metadata := metadata[CompletenessKey := Num(filled as real / TotalFields as real)];
    metadata := map k | k in metadata && metadata[k] != Str("") :: metadata[k];
    MetadataIsTyped(row, show, round2);
  }

  /** The numeric loop keeps exactly the present non-zero numeric cells, unchanged. */
  lemma {:induction false} NumericUpToContents(row: Row, i: nat)
    requires i <= |NumericalColumns|
    ensures forall k :: k in NumericUpTo(row, i) <==> k in NumericalColumns[..i] && KeepsNumber(row, k)
    ensures forall k :: k in NumericUpTo(row, i) ==> Cell(row, k) == Some(NumericUpTo(row, i)[k])
  {
    if i > 0 {
      NumericUpToContents(row, i - 1);
      assert NumericalColumns[..i] == NumericalColumns[..i - 1] + [NumericalColumns[i - 1]];
    }
  }

  /** The categorical loop adds exactly the present, non-placeholder categorical cells. */
  lemma {:induction false} CategoricalUpToContents(row: Row, show: real -> string, i: nat)
    requires i <= |CategoricalColumns|
    ensures forall k :: k in CategoricalUpTo(row, show, i) <==>
      (k in NumericalColumns && KeepsNumber(row, k)) || (k in CategoricalColumns[..i] && KeepsCategory(row, k, show))
  {
    if i == 0 {
      NumericUpToContents(row, |NumericalColumns|);
      assert NumericalColumns[..|NumericalColumns|] == NumericalColumns;
    } else {
      CategoricalUpToContents(row, show, i - 1);
      assert CategoricalColumns[..i] == CategoricalColumns[..i - 1] + [CategoricalColumns[i - 1]];
    }
  }

  /** The numeric cells pass the categorical loop unchanged, and the categorical ones are rendered. */
  lemma {:induction false} CategoricalUpToValues(row: Row, show: real -> string, i: nat)
    requires i <= |CategoricalColumns|
    ensures forall k :: k in CategoricalUpTo(row, show, i) && k in NumericalColumns ==>
      Cell(row, k) == Some(CategoricalUpTo(row, show, i)[k])
    ensures forall k :: k in CategoricalUpTo(row, show, i) && k in CategoricalColumns ==>
      Cell(row, k).Some? && CategoricalUpTo(row, show, i)[k] == Str(Render(Cell(row, k).value, show))
  {
    ColumnsAreDistinct();
    if i == 0 {
      NumericUpToContents(row, |NumericalColumns|);
    } else {
      CategoricalUpToValues(row, show, i - 1);
    }
  }

  /** The map before the url step: its keys and values, column group by column group. */
  lemma ColumnCells(row: Row, show: real -> string)
    ensures forall k :: k in CategoricalUpTo(row, show, |CategoricalColumns|) <==>
      (k in NumericalColumns && KeepsNumber(row, k)) || (k in CategoricalColumns && KeepsCategory(row, k, show))
    ensures forall k :: k in CategoricalUpTo(row, show, |CategoricalColumns|) && k in NumericalColumns ==>
      Cell(row, k) == Some(CategoricalUpTo(row, show, |CategoricalColumns|)[k])
    ensures forall k :: k in CategoricalUpTo(row, show, |CategoricalColumns|) && k in CategoricalColumns ==>
      Cell(row, k).Some? && CategoricalUpTo(row, show, |CategoricalColumns|)[k] == Str(Render(Cell(row, k).value, show))
  {
    CategoricalUpToContents(row, show, |CategoricalColumns|);
    CategoricalUpToValues(row, show, |CategoricalColumns|);
    assert CategoricalColumns[..|CategoricalColumns|] == CategoricalColumns;
  }

  /** Price and area, when kept, are numbers. */
  lemma NumbersStayNumbers(row: Row, show: real -> string)
    ensures var md := CategoricalUpTo(row, show, |CategoricalColumns|);
      ("precio" in md ==> md["precio"].Num?) && ("metros" in md ==> md["metros"].Num?)
    ensures var md := WithUrl(row, show, CategoricalUpTo(row, show, |CategoricalColumns|));
      ("precio" in md ==> md["precio"].Num?) && ("metros" in md ==> md["metros"].Num?)
  {
    ColumnsAreDistinct();
    NumericEntryIsNumber(row, show, "precio");
    NumericEntryIsNumber(row, show, "metros");
  }

  /** A numeric column's entry, when the column loops keep it, is the number in its cell. */
  lemma NumericEntryIsNumber(row: Row, show: real -> string, c: string)
    requires c in NumericalColumns
    ensures c in CategoricalUpTo(row, show, |CategoricalColumns|) ==> CategoricalUpTo(row, show, |CategoricalColumns|)[c].Num?
  {
    var md := CategoricalUpTo(row, show, |CategoricalColumns|);
    CategoricalUpToContents(row, show, |CategoricalColumns|);
    CategoricalUpToValues(row, show, |CategoricalColumns|);
    ColumnsAreDistinct();
    if c in md {
      assert KeepsNumber(row, c);
      assert Cell(row, c) == Some(md[c]);
    }
  }

  /** Every key of the metadata is a column name or one of the three derived keys. */
  lemma MetadataKeys(row: Row, show: real -> string, round2: real -> real)
    ensures forall k :: k in StructuredMetadata(row, show, round2) ==> IsMetadataKey(k)
    ensures CompletenessKey in StructuredMetadata(row, show, round2)
  {
    ColumnCells(row, show);
  }

  /** A numeric column is in the metadata exactly when its cell is a present non-zero number, and keeps that number. */
  lemma MetadataNumbers(row: Row, show: real -> string, round2: real -> real, c: string)
    requires c in NumericalColumns
    ensures c in StructuredMetadata(row, show, round2) <==> KeepsNumber(row, c)
    ensures c in StructuredMetadata(row, show, round2) ==> Cell(row, c) == Some(StructuredMetadata(row, show, round2)[c])
  {
    ColumnsAreDistinct();
    ColumnCells(row, show);
  }

  /** A categorical column is in the metadata exactly when its cell is present and not a
      placeholder, and holds the cell's rendering, which is never a placeholder. */
  lemma MetadataCategories(row: Row, show: real -> string, round2: real -> real, c: string)
    requires c in CategoricalColumns
    ensures c in StructuredMetadata(row, show, round2) <==> KeepsCategory(row, c, show)
    ensures c in StructuredMetadata(row, show, round2) ==>
      StructuredMetadata(row, show, round2)[c] == Str(Render(Cell(row, c).value, show))
    ensures c in StructuredMetadata(row, show, round2) ==> StructuredMetadata(row, show, round2)[c].s !in Placeholders
  {
    ColumnsAreDistinct();
    CategoricalEntry(row, show, c);
    ScoredKeepsColumn(row, show, round2, c);
    assert Placeholders[2] == "";
  }

  /** A categorical column's entry after the column loops: there exactly when the column is kept, rendered. */
  lemma CategoricalEntry(row: Row, show: real -> string, c: string)
    requires c in CategoricalColumns
    ensures c in CategoricalUpTo(row, show, |CategoricalColumns|) <==> KeepsCategory(row, c, show)
    ensures c in CategoricalUpTo(row, show, |CategoricalColumns|) ==>
      CategoricalUpTo(row, show, |CategoricalColumns|)[c] == Str(Render(Cell(row, c).value, show))
  {
    CategoricalUpToContents(row, show, |CategoricalColumns|);
    CategoricalUpToValues(row, show, |CategoricalColumns|);
    ColumnsAreDistinct();
    assert CategoricalColumns[..|CategoricalColumns|] == CategoricalColumns;
  }

  /** The url and price-per-area steps leave the numeric and categorical entries as they are. */
  lemma ScoredKeepsColumn(row: Row, show: real -> string, round2: real -> real, c: string)
    requires c in NumericalColumns || c in CategoricalColumns
    ensures var cells := CategoricalUpTo(row, show, |CategoricalColumns|);
      (c in Scored(row, show, round2) <==> c in cells) && (c in cells ==> Scored(row, show, round2)[c] == cells[c])
  {
    ColumnsAreDistinct();
  }

  /** The url is kept exactly when the url_inmueble cell is present and renders non-empty. */
  lemma MetadataUrl(row: Row, show: real -> string, round2: real -> real)
    ensures UrlKey in StructuredMetadata(row, show, round2) <==>
      Cell(row, UrlColumn).Some? && Render(Cell(row, UrlColumn).value, show) != ""
    ensures UrlKey in StructuredMetadata(row, show, round2) ==>
      StructuredMetadata(row, show, round2)[UrlKey] == Str(Render(Cell(row, UrlColumn).value, show))
  {
    ColumnsAreDistinct();
    ColumnCells(row, show);
  }

  /** The price per square metre is present exactly when price and area both are, and is their rounded ratio. */
  lemma MetadataPricePerArea(row: Row, show: real -> string, round2: real -> real)
    ensures var md := StructuredMetadata(row, show, round2);
      PricePerAreaKey in md <==> "precio" in md && "metros" in md
    ensures var md := StructuredMetadata(row, show, round2);
      PricePerAreaKey in md ==> ("precio" in md && "metros" in md && md["metros"].Num? && md["precio"].Num?
        && md["metros"].n != 0.0 && md[PricePerAreaKey] == Num(round2(md["precio"].n / md["metros"].n)))
  {
    ColumnsAreDistinct();
    ColumnCells(row, show);
    MetadataNumbers(row, show, round2, "precio");
    MetadataNumbers(row, show, round2, "metros");
  }

  /** No value of the metadata is the empty string. */
  lemma MetadataNoEmptyValue(row: Row, show: real -> string, round2: real -> real)
    ensures forall k :: k in StructuredMetadata(row, show, round2) ==> StructuredMetadata(row, show, round2)[k] != Str("")
  {
  }

  /** The completeness score counts the other non-empty entries out of 20, so it lies in [0, 1.1]. */
  lemma MetadataCompleteness(row: Row, show: real -> string, round2: real -> real)
    ensures var md := StructuredMetadata(row, show, round2);
      CompletenessKey in md && md[CompletenessKey] == Num((|md| as real - 1.0) / TotalFields as real)
    ensures var md := StructuredMetadata(row, show, round2);
      0.0 <= md[CompletenessKey].n <= 1.1
  {
    var md0 := Scored(row, show, round2);
    var f := FilledKeys(md0);
    ScoredSize(row, show, round2);
    SubsetSize(f, md0.Keys);
    CompletenessKeyIsNew(row, show, round2);
    WithoutEmptyAdds(md0, CompletenessKey, |f| as real / TotalFields as real);
    assert (|f| as real) <= 22.0;
  }

  /** The url and the price per square metre add at most one key each to the column entries. */
  lemma ScoredSize(row: Row, show: real -> string, round2: real -> real)
    ensures |Scored(row, show, round2)| <= TotalFields + 2
  {
    CategoricalUpToSize(row, show, |CategoricalColumns|);
    ColumnsAreDistinct();
  }

  /** Dropping the empty strings after adding a number under a new key keeps the
      non-empty entries and that key. */
  lemma WithoutEmptyAdds(md: map<string, Value>, k: string, x: real)
    requires k !in md
    ensures WithoutEmpty(md[k := Num(x)]).Keys == FilledKeys(md) + {k}
    ensures |WithoutEmpty(md[k := Num(x)])| == |FilledKeys(md)| + 1
    ensures WithoutEmpty(md[k := Num(x)])[k] == Num(x)
  {
    var r := WithoutEmpty(md[k := Num(x)]);
    assert r.Keys == FilledKeys(md) + {k};
    assert k !in FilledKeys(md);
    assert |r.Keys| == |FilledKeys(md)| + 1;
  }

  /** The completeness key is not among the keys set before it. */
  lemma CompletenessKeyIsNew(row: Row, show: real -> string, round2: real -> real)
    ensures CompletenessKey !in Scored(row, show, round2)
  {
    ColumnsAreDistinct();
    ColumnCells(row, show);
  }

  /** The numeric loop adds at most one key per column. */
  lemma {:induction false} NumericUpToSize(row: Row, i: nat)
    requires i <= |NumericalColumns|
    ensures |NumericUpTo(row, i)| <= i
  {
    if i > 0 {
      NumericUpToSize(row, i - 1);
    }
  }

  /** The categorical loop adds at most one key per column. */
  lemma {:induction false} CategoricalUpToSize(row: Row, show: real -> string, i: nat)
    requires i <= |CategoricalColumns|
    ensures |CategoricalUpTo(row, show, i)| <= |NumericalColumns| + i
  {
    if i == 0 {
      NumericUpToSize(row, |NumericalColumns|);
    } else {
      CategoricalUpToSize(row, show, i - 1);
    }
  }

  /** The metadata carries numbers under numeric keys and strings under categorical ones. */
  lemma MetadataIsTyped(row: Row, show: real -> string, round2: real -> real)
    ensures MetadataTyped(StructuredMetadata(row, show, round2))
  {
    ColumnsAreDistinct();
    ColumnCells(row, show);
  }

  /** The column lists and derived keys are pairwise different names. */
  lemma ColumnsAreDistinct()
    ensures forall c :: c in NumericalColumns ==> c !in CategoricalColumns
    ensures forall c :: c in NumericalColumns || c in CategoricalColumns ==> c != UrlKey && c != PricePerAreaKey && c != CompletenessKey
    ensures "precio" in NumericalColumns && "metros" in NumericalColumns
    ensures UrlKey != PricePerAreaKey && UrlKey != CompletenessKey && PricePerAreaKey != CompletenessKey
    ensures TotalFields == |NumericalColumns| + |CategoricalColumns|
  {
  }

  // ---------------------------------------------------------------------------
  // Batch cleaning
  // ---------------------------------------------------------------------------

  /** A DataFrame: its column names and its rows, each row a map over those columns. */
  datatype Table = Table(columns: set<string>, rows: seq<Row>)

  /** Every row has a cell, present or missing, in exactly the table's columns. */
  predicate WellFormed(t: Table) {
    forall i :: 0 <= i < |t.rows| ==> t.rows[i].Keys == t.columns
  }

  datatype CleanError = MissingColumn(name: string)

  predicate HasTitle(row: Row) {
    Cell(row, TitleColumn).Some?
  }

  /** dropna(subset=['titulo']): the rows with a title, in order. */
  function Titled(rows: seq<Row>): (r: seq<Row>)
    ensures forall x :: x in r ==> x in rows && HasTitle(x)
    ensures forall x :: x in rows && HasTitle(x) ==> x in r
    ensures |r| <= |rows|
  {
    if rows == [] then []
    else (if HasTitle(rows[0]) then [rows[0]] else []) + Titled(rows[1..])
  }

  /** pd.to_numeric(errors='coerce').fillna(0) on one cell; parseNum is pandas' parse of a numeric string. */
  function ToNumeric(v: Option<Value>, parseNum: string -> Option<real>): real {
    match v
    case None => 0.0
    case Some(Num(x)) => x
    case Some(Str(s)) => parseNum(s).GetOr(0.0)
  }

  /** The fill applied to one cell of a given column. */
  function FillCell(col: string, v: Option<Value>, parseNum: string -> Option<real>): (r: Option<Value>)
    ensures (col in TextColumns || col in NumericalColumns || col in CategoricalColumns) ==> r.Some?
    ensures col in NumericalColumns ==> r == Some(Num(ToNumeric(v, parseNum)))
    ensures col !in NumericalColumns && v.Some? ==> r == v
    ensures col in TextColumns && v.None? ==> r == Some(Str(""))
    ensures col in CategoricalColumns && v.None? ==> r == Some(Str(Unspecified))
    ensures col !in TextColumns && col !in NumericalColumns && col !in CategoricalColumns ==> r == v
  {
    ColumnsAreDistinct();
    TextColumnsAreDistinct();
    if col in TextColumns then (if v.None? then Some(Str("")) else v)
    else if col in NumericalColumns then Some(Num(ToNumeric(v, parseNum)))
    else if col in CategoricalColumns then (if v.None? then Some(Str(Unspecified)) else v)
    else v
  }

  lemma TextColumnsAreDistinct()
    ensures forall c :: c in TextColumns ==> c !in NumericalColumns && c !in CategoricalColumns
  {
  }

  /** The fill of every cell of a row: the same columns, no missing cell left in
      a listed column, a number in every numeric one, and every other present
      cell unchanged. */
  function FillRow(row: Row, parseNum: string -> Option<real>): (r: Row)
    ensures r.Keys == row.Keys
    ensures forall c :: c in r && (c in TextColumns || c in NumericalColumns || c in CategoricalColumns) ==> r[c].Some?
    ensures forall c :: c in r && c in NumericalColumns ==> r[c] == Some(Num(ToNumeric(row[c], parseNum)))
    ensures forall c :: c in r && c !in NumericalColumns && row[c].Some? ==> r[c] == row[c]
  {
    map c | c in row :: FillCell(c, row[c], parseNum)
  }

  function UrlCell(row: Row): Option<Value> {
    Cell(row, UrlColumn)
  }

  function WholeRow(row: Row): Row {
    row
  }

  /** The rows with a title, each filled. */
  function FilledTitled(t: Table, parseNum: string -> Option<real>): (r: seq<Row>)
    ensures |r| == |Titled(t.rows)|
    ensures forall i :: 0 <= i < |r| ==> r[i] == FillRow(Titled(t.rows)[i], parseNum)
  {
    var titled := Titled(t.rows);
    seq(|titled|, i requires 0 <= i < |titled| => FillRow(titled[i], parseNum))
  }

  /** Filling keeps each titled row over the table's columns. */
  lemma FilledTitledKeepsColumns(t: Table, parseNum: string -> Option<real>)
    requires WellFormed(t)
    ensures forall x :: x in FilledTitled(t, parseNum) ==> x.Keys == t.columns
  {
    var titled := Titled(t.rows);
    var kept := FilledTitled(t, parseNum);
    forall x | x in kept ensures x.Keys == t.columns {
      var i :| 0 <= i < |kept| && kept[i] == x;
      assert titled[i] in t.rows;
      var j :| 0 <= j < |t.rows| && t.rows[j] == titled[i];
    }
  }

  /** clean_dataframe: drop rows without a title, fill text cells with '',
      coerce numeric cells (unparseable or missing become 0), fill categorical
      cells with 'No especificado', then keep the first row per url_inmueble
      when that column exists, else the first of each group of equal rows.
      pandas raises KeyError when the table has no titulo column. */
  function CleanDataframe(t: Table, parseNum: string -> Option<real>): (r: Result<Table, CleanError>)
    requires WellFormed(t)
    ensures r.Failure? <==> TitleColumn !in t.columns
    ensures r.Success? ==> r.value.columns == t.columns && |r.value.rows| <= |t.rows|
    ensures r.Success? ==> WellFormed(r.value)
  {
    if TitleColumn !in t.columns then Failure(MissingColumn(TitleColumn))
    else
      var kept := FilledTitled(t, parseNum);
      FilledTitledKeepsColumns(t, parseNum);
      Success(Table(t.columns, if UrlColumn in t.columns then DedupBy(kept, UrlCell) else DedupBy(kept, WholeRow)))
  }

  /** The rows a cleaned table holds: a title, and a present cell in every
      text, numeric and categorical column it has, numbers in the numeric ones. */
  predicate IsCleanRow(r: Row) {
    && HasTitle(r)
    && (forall c :: c in r && c in TextColumns ==> r[c].Some?)
    && (forall c :: c in r && c in CategoricalColumns ==> r[c].Some?)
    && (forall c :: c in r && c in NumericalColumns ==> r[c].Some? && r[c].value.Num?)
  }

  /** Filling a titled row gives a clean row that agrees with it outside the filled columns. */
  lemma FillRowIsClean(x: Row, parseNum: string -> Option<real>)
    requires HasTitle(x)
    ensures IsCleanRow(FillRow(x, parseNum))
    ensures NumbersInNumericColumns(FillRow(x, parseNum))
    ensures UrlCell(FillRow(x, parseNum)) == UrlCell(x)
  {
    TextColumnsAreDistinct();
    ColumnsAreDistinct();
    assert TitleColumn in TextColumns;
    assert UrlColumn !in TextColumns && UrlColumn !in NumericalColumns && UrlColumn !in CategoricalColumns;
  }

  /** Every cleaned row is the filled form of a titled input row, and is clean. */
  lemma CleanedRowsComeFromTitledRows(t: Table, parseNum: string -> Option<real>)
    requires WellFormed(t) && TitleColumn in t.columns
    ensures forall r :: r in CleanDataframe(t, parseNum).value.rows ==>
      IsCleanRow(r) && exists x :: x in t.rows && HasTitle(x) && r == FillRow(x, parseNum)
  {
    var titled := Titled(t.rows);
    var kept := FilledTitled(t, parseNum);
    forall r | r in CleanDataframe(t, parseNum).value.rows
      ensures IsCleanRow(r) && exists x :: x in t.rows && HasTitle(x) && r == FillRow(x, parseNum)
    {
      assert r in kept;
      var i :| 0 <= i < |kept| && kept[i] == r;
      assert titled[i] in titled;
      FillRowIsClean(titled[i], parseNum);
    }
  }

  /** After cleaning, no two rows share a url_inmueble cell (a missing url counts as one
      value), or, without that column, no two rows are equal. */
  lemma CleanedRowsAreUnique(t: Table, parseNum: string -> Option<real>)
    requires WellFormed(t) && TitleColumn in t.columns
    ensures var rows := CleanDataframe(t, parseNum).value.rows;
      forall i, j :: 0 <= i < j < |rows| ==>
        if UrlColumn in t.columns then UrlCell(rows[i]) != UrlCell(rows[j]) else rows[i] != rows[j]
  {
  }

  /** Cleaning keeps one row per distinct url among the titled rows. */
  lemma CleanKeepsOneRowPerUrl(t: Table, parseNum: string -> Option<real>)
    requires WellFormed(t) && TitleColumn in t.columns && UrlColumn in t.columns
    ensures KeySet(CleanDataframe(t, parseNum).value.rows, UrlCell) == KeySet(Titled(t.rows), UrlCell)
    ensures |CleanDataframe(t, parseNum).value.rows| == |KeySet(Titled(t.rows), UrlCell)|
  {
    var kept := FilledTitled(t, parseNum);
    assert CleanDataframe(t, parseNum).value.rows == DedupBy(kept, UrlCell);
    DedupKeys(kept, UrlCell, {});
    FilledKeepsUrls(t, parseNum);
  }

  /** Filling keeps each titled row's url, so the filled rows have the same urls. */
  lemma FilledKeepsUrls(t: Table, parseNum: string -> Option<real>)
    ensures forall i :: 0 <= i < |FilledTitled(t, parseNum)| ==>
      UrlCell(FilledTitled(t, parseNum)[i]) == UrlCell(Titled(t.rows)[i])
    ensures KeySet(FilledTitled(t, parseNum), UrlCell) == KeySet(Titled(t.rows), UrlCell)
  {
    var titled := Titled(t.rows);
    var kept := FilledTitled(t, parseNum);
    forall i | 0 <= i < |kept| ensures UrlCell(kept[i]) == UrlCell(titled[i]) {
      FillRowIsClean(titled[i], parseNum);
    }
    assert KeySet(kept, UrlCell) == KeySet(titled, UrlCell);
  }

  /** Without a url_inmueble column every titled row survives, filled, once duplicates are merged. */
  lemma CleanKeepsEveryTitledRow(t: Table, parseNum: string -> Option<real>, x: Row)
    requires WellFormed(t) && TitleColumn in t.columns && UrlColumn !in t.columns
    requires x in t.rows && HasTitle(x)
    ensures FillRow(x, parseNum) in CleanDataframe(t, parseNum).value.rows
  {
    var titled := Titled(t.rows);
    var kept := FilledTitled(t, parseNum);
    var i :| 0 <= i < |titled| && titled[i] == x;
    assert kept[i] == FillRow(x, parseNum);
    DedupKeepsEveryKey(kept, WholeRow, kept[i]);
  }

  /** The row kept for each url is the first titled row with that url. */
  lemma CleanKeepsFirstRowPerUrl(t: Table, parseNum: string -> Option<real>, i: nat)
    requires WellFormed(t) && TitleColumn in t.columns && UrlColumn in t.columns
    requires i < |Titled(t.rows)|
    requires forall j :: 0 <= j < i ==> UrlCell(Titled(t.rows)[j]) != UrlCell(Titled(t.rows)[i])
    ensures FillRow(Titled(t.rows)[i], parseNum) in CleanDataframe(t, parseNum).value.rows
  {
    var kept := FilledTitled(t, parseNum);
    FilledKeepsUrls(t, parseNum);
    DedupKeepsFirst(kept, UrlCell, {}, i);
  }
}
