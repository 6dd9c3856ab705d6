/**
 * The row-level rules of data preparation: sampling, choosing a source
 * column for each standard field, cleaning text and numbers, the calorie
 * category, dropping rows without essential data, and the searchable text.
 * A data frame is a sequence of rows; a row maps column names to cells.
 */
module PrepareData {
  import opened Wrappers
  import opened Text
  import Ranking

  // ---------------------------------------------------------------- sampling

  /** The default `sample_size` of `load_and_sample_recipes`. */
  const DefaultSampleSize: nat := 5000

  /**
   * The rows `df.sample(n=sample_size)` keeps, by position: the first
   * `sampleSize` entries of the shuffle `order` it draws, or every row when
   * the frame is not larger than the sample.
   */
  function SamplePositions(rowCount: nat, sampleSize: nat, order: seq<nat>): seq<nat>
    requires rowCount > sampleSize ==> Ranking.IsArrangement(order, rowCount)
  {
    if rowCount > sampleSize then order[..sampleSize] else Ranking.Range(0, rowCount)
  }

  /** `load_and_sample_recipes` after the file is read. */
  function Sample<T>(rows: seq<T>, sampleSize: nat := DefaultSampleSize, order: seq<nat>): seq<T>
    requires |rows| > sampleSize ==> Ranking.IsArrangement(order, |rows|)
  {
    var positions := SamplePositions(|rows|, sampleSize, order);
    assert forall i :: 0 <= i < |positions| ==> positions[i] < |rows|;
    seq(|positions|, i requires 0 <= i < |positions| => rows[positions[i]])
  }

  /**
   * The sample has min(rows, sample size) rows, each drawn from a different
   * position, and is the whole frame, in order, when the frame is not larger.
   */
  lemma SampleShape<T>(rows: seq<T>, sampleSize: nat, order: seq<nat>)
    requires |rows| > sampleSize ==> Ranking.IsArrangement(order, |rows|)
    ensures var positions := SamplePositions(|rows|, sampleSize, order);
      && |Sample(rows, sampleSize, order)| == |positions| == (if |rows| > sampleSize then sampleSize else |rows|)
      && Ranking.Distinct(positions) && Ranking.InBounds(positions, |rows|)
      && (forall i :: 0 <= i < |positions| ==> Sample(rows, sampleSize, order)[i] == rows[positions[i]])
      && (|rows| <= sampleSize ==> Sample(rows, sampleSize, order) == rows)
  {
    var positions := SamplePositions(|rows|, sampleSize, order);
    if |rows| > sampleSize {
      assert forall i :: 0 <= i < |positions| ==> positions[i] == order[i];
    } else {
      assert forall i :: 0 <= i < |positions| ==> positions[i] == i;
    }
  }

  // ---------------------------------------------------------------- columns

  /** For each standard field, the source column names it may come from, in order of preference. */
  const FieldMapping: seq<(string, seq<string>)> := [
    ("recipe_id", ["recipe_id", "RecipeId", "id"]),
    ("title", ["title", "Name", "RecipeName"]),
    ("tags", ["tags", "Tags", "RecipeCategory"]),
    ("ingredients", ["ingredients", "Ingredients", "RecipeIngredientParts"]),
    ("duration", ["duration", "TotalTime", "CookTime", "PrepTime"]),
    ("calories", ["calories", "Calories", "calories [cal]"]),
    ("protein", ["protein", "Protein", "ProteinContent"]),
    ("sugars", ["sugars", "Sugar", "SugarContent"]),
    ("sodium", ["sodium", "Sodium", "SodiumContent"])
  ]

  /** The first candidate that is among the available columns. */
  function FirstAvailable(candidates: seq<string>, available: seq<string>): (r: Option<string>)
    ensures r.Some? <==> exists i :: 0 <= i < |candidates| && candidates[i] in available
    ensures r.Some? ==> exists i :: 0 <= i < |candidates| && candidates[i] == r.value && r.value in available &&
                                    forall j :: 0 <= j < i ==> candidates[j] !in available
    decreases |candidates|
  {
    if candidates == [] then None
    else if candidates[0] in available then Some(candidates[0])
    else
      var r := FirstAvailable(candidates[1..], available);
      assert forall i :: 1 <= i < |candidates| ==> candidates[i] == candidates[1..][i - 1];
      r
  }

  /** `selected_cols`: standard field to the source column chosen for it. */
  function Selection(mapping: seq<(string, seq<string>)>, available: seq<string>): (selected: map<string, string>)
    ensures forall f :: f in selected ==> selected[f] in available
    decreases |mapping|
  {
    if mapping == [] then map[]
    else
      var entry := mapping[|mapping| - 1];
      var earlier := Selection(mapping[..|mapping| - 1], available);
      match FirstAvailable(entry.1, available)
      case None => earlier
      case Some(name) => earlier[entry.0 := name]
  }

  predicate DistinctFields(mapping: seq<(string, seq<string>)>) {
    forall i, j :: 0 <= i < j < |mapping| ==> mapping[i].0 != mapping[j].0
  }

  /**
   * A field is selected exactly when one of its candidates is available, and
   * then with its first available candidate; nothing else is selected.
   */
  lemma {:induction false} SelectionFirstMatch(mapping: seq<(string, seq<string>)>, available: seq<string>)
    requires DistinctFields(mapping)
    ensures forall field :: field in Selection(mapping, available) ==> exists i :: 0 <= i < |mapping| && mapping[i].0 == field
    ensures forall i :: 0 <= i < |mapping| ==>
      (mapping[i].0 in Selection(mapping, available) <==> FirstAvailable(mapping[i].1, available).Some?)
    ensures forall i :: 0 <= i < |mapping| && mapping[i].0 in Selection(mapping, available) ==>
      Some(Selection(mapping, available)[mapping[i].0]) == FirstAvailable(mapping[i].1, available)
    decreases |mapping|
  {
    if mapping != [] {
      var last := |mapping| - 1;
      var prefix, entry := mapping[..last], mapping[last];
      assert forall i :: 0 <= i < |prefix| ==> prefix[i] == mapping[i];
      SelectionFirstMatch(prefix, available);
      var earlier, sel := Selection(prefix, available), Selection(mapping, available);
      forall i | 0 <= i < |mapping|
        ensures mapping[i].0 in sel <==> FirstAvailable(mapping[i].1, available).Some?
        ensures mapping[i].0 in sel ==> Some(sel[mapping[i].0]) == FirstAvailable(mapping[i].1, available)
      {
        if i < last {
          assert mapping[i] == prefix[i] && mapping[i].0 != entry.0;
        }
      }
      forall field | field in sel ensures exists i :: 0 <= i < |mapping| && mapping[i].0 == field {
        if field != entry.0 {
          assert field in earlier;
          var i :| 0 <= i < |prefix| && prefix[i].0 == field;
          assert mapping[i].0 == field;
        } else {
          assert mapping[last].0 == field;
        }
      }
    }
  }

  lemma FieldMappingDistinct()
    ensures DistinctFields(FieldMapping)
  {
  }

  /**
   * The nested loop that fills `selected_cols`, stopping at the first
   * available name; `preprocess_recipes` runs it over `FieldMapping`.
   */
  method SelectColumns(fieldMapping: seq<(string, seq<string>)>, available: seq<string>)
    returns (selected: map<string, string>)
    ensures selected == Selection(fieldMapping, available)
  {
    selected := map[];
    for f := 0 to |fieldMapping|
      invariant selected == Selection(fieldMapping[..f], available)
    {
      var field := fieldMapping[f].0;
      var possibleNames := fieldMapping[f].1;
      assert fieldMapping[..f + 1][..f] == fieldMapping[..f];
      var found := false;
      var i := 0;
      while i < |possibleNames|
        invariant 0 <= i <= |possibleNames|
        invariant forall j :: 0 <= j < i ==> possibleNames[j] !in available
        invariant !found
        invariant selected == Selection(fieldMapping[..f], available)
      {
        var name := possibleNames[i];
        if name in available {
          FirstAvailableAt(possibleNames, available, i);
          selected := selected[field := name];
          found := true;
          break;
        }
        i := i + 1;
      }
      if !found {
        FirstAvailableNone(possibleNames, available);
      }
      assert selected == Selection(fieldMapping[..f + 1], available);
    }
    assert fieldMapping[..|fieldMapping|] == fieldMapping;
  }

  lemma FirstAvailableAt(candidates: seq<string>, available: seq<string>, i: nat)
    requires i < |candidates| && candidates[i] in available
    requires forall j :: 0 <= j < i ==> candidates[j] !in available
    ensures FirstAvailable(candidates, available) == Some(candidates[i])
  {
  }

  lemma FirstAvailableNone(candidates: seq<string>, available: seq<string>)
    requires forall j :: 0 <= j < |candidates| ==> candidates[j] !in available
    ensures FirstAvailable(candidates, available) == None
  {
  }

  // ---------------------------------------------------------------- cells

  /** A data-frame cell: missing (None or NaN), text, or a number. */
  datatype Cell = Null | Str(text: string) | Num(value: real)

  /** `.fillna('').astype(str)`: `show` is how a number prints. */
  function CellString(cell: Cell, show: real -> string): string {
    match cell
    case Null => ""
    case Str(s) => s
    case Num(x) => show(x)
  }

  /** The text cleaning: missing becomes "", then lower-cased and stripped. */
  function CleanText(cell: Cell, show: real -> string): (r: string)
    ensures NoUpper(r)
    ensures r == [] || (!IsSpace(r[0]) && !IsSpace(r[|r| - 1]))
    ensures cell.Null? ==> r == ""
  {
    StripOfLower(CellString(cell, show));
    StripEnds(Lower(CellString(cell, show)));
    Strip(Lower(CellString(cell, show)))
  }

  /** Cleaning a cleaned value changes nothing. */
  lemma CleanTextIdempotent(cell: Cell, show: real -> string)
    ensures CleanText(Str(CleanText(cell, show)), show) == CleanText(cell, show)
  {
    var r := CleanText(cell, show);
    LowerOfNoUpper(r);
    StripLeftOf(r);
    StripRightOf(r);
  }

  /** `pd.to_numeric(errors='coerce')`: `parse` reads a number from text, anything unreadable becomes missing. */
  function ToNumeric(cell: Cell, parse: string -> Option<real>): (r: Cell)
    ensures r.Null? || r.Num?
    ensures cell.Num? ==> r == cell
  {
    match cell
    case Null => Null
    case Num(x) => Num(x)
    case Str(s) => if parse(s).Some? then Num(parse(s).value) else Null
  }

  // ---------------------------------------------------------------- health category

  const HealthLabels: seq<string> := ["low_calorie", "moderate", "high_calorie", "very_high_calorie"]

  /** The bin of `pd.cut(calories, bins=[0, 200, 400, 600, inf])`: intervals closed on the right. */
  function HealthBin(calories: real): (b: Option<nat>)
    ensures b.Some? <==> calories > 0.0
    ensures b.Some? ==> b.value < |HealthLabels|
    ensures b.Some? && b.value > 0 ==> calories > 200.0 * b.value as real
    ensures b.Some? && b.value < 3 ==> calories <= 200.0 * (b.value + 1) as real
  {
    if calories <= 0.0 then None
    else if calories <= 200.0 then Some(0)
    else if calories <= 400.0 then Some(1)
    else if calories <= 600.0 then Some(2)
    else Some(3)
  }

  function HealthCategory(calories: Cell): (category: Cell)
    ensures category.Str? <==> calories.Num? && calories.value > 0.0
    ensures category.Str? ==> category.text in HealthLabels
    ensures !category.Str? ==> category == Null
  {
    if calories.Num? && HealthBin(calories.value).Some? then Str(HealthLabels[HealthBin(calories.value).value]) else Null
  }

  /** The category table: (0,200], (200,400], (400,600], above 600, and none at 0 or below or when missing. */
  lemma HealthCategoryTable(calories: Cell)
    ensures HealthCategory(calories) == Str("low_calorie") <==> calories.Num? && 0.0 < calories.value <= 200.0
    ensures HealthCategory(calories) == Str("moderate") <==> calories.Num? && 200.0 < calories.value <= 400.0
    ensures HealthCategory(calories) == Str("high_calorie") <==> calories.Num? && 400.0 < calories.value <= 600.0
    ensures HealthCategory(calories) == Str("very_high_calorie") <==> calories.Num? && 600.0 < calories.value
    ensures HealthCategory(calories) == Null <==> !calories.Num? || calories.value <= 0.0
  {
    if calories.Num? {
      var b := HealthBin(calories.value);
      if b.Some? {
        assert HealthLabels[b.value] == HealthLabels[b.value];
      }
    }
  }

  /** More calories never give a lower category. */
  lemma HealthBinMonotone(c1: real, c2: real)
    requires 0.0 < c1 <= c2
    ensures HealthBin(c1).Some? && HealthBin(c2).Some? && HealthBin(c1).value <= HealthBin(c2).value
  {
  }

  // ---------------------------------------------------------------- rows

  type Row = map<string, Cell>

  /** A column the row does not have reads as missing. */
  function Lookup(row: Row, column: string): Cell {
    if column in row then row[column] else Null
  }

  predicate IsTextField(field: string) {
    field == "title" || field == "tags" || field == "ingredients"
  }

  predicate IsNumericField(field: string) {
    field == "calories" || field == "protein" || field == "sugars" || field == "sodium" || field == "duration"
  }

  /** The numeric field names differ in length from the text field names. */
  lemma NumericNotText(field: string)
    requires IsNumericField(field)
    ensures !IsTextField(field)
  {
    assert 6 <= |field| <= 8;
  }

  function PrepareCell(field: string, cell: Cell, show: real -> string, parse: string -> Option<real>): Cell {
    if IsTextField(field) then Str(CleanText(cell, show))
    else if IsNumericField(field) then ToNumeric(cell, parse)
    else cell
  }

  /**
   * One row of `df_processed` before rows are dropped: the selected columns
   * renamed, text and numeric fields cleaned, and a health category whenever
   * calories were selected.
   */
  function ProcessRow(selected: map<string, string>, row: Row, show: real -> string, parse: string -> Option<real>): Row {
    var renamed := Renamed(selected, row, show, parse);
    if "calories" in renamed then renamed["health_category" := HealthCategory(renamed["calories"])] else renamed
  }

  /** Each selected field, read from its chosen column and prepared. */
  function Renamed(selected: map<string, string>, row: Row, show: real -> string, parse: string -> Option<real>): (m: Row)
    ensures m.Keys == selected.Keys
    ensures forall f :: f in selected ==> m[f] == PrepareCell(f, Lookup(row, selected[f]), show, parse)
  {
    map field | field in selected :: PrepareCell(field, Lookup(row, selected[field]), show, parse)
  }

  /** The processed row has the selected fields, cleaned, and a category exactly when calories were selected. */
  lemma ProcessRowFields(selected: map<string, string>, row: Row, show: real -> string, parse: string -> Option<real>)
    requires "health_category" !in selected
    ensures var r := ProcessRow(selected, row, show, parse);
      && r.Keys == selected.Keys + (if "calories" in selected then {"health_category"} else {})
      && (forall f :: f in selected && IsTextField(f) ==> r[f] == Str(CleanText(Lookup(row, selected[f]), show)))
      && (forall f :: f in selected && IsNumericField(f) ==> r[f].Null? || r[f].Num?)
      && (forall f :: f in selected && !IsTextField(f) && !IsNumericField(f) ==> r[f] == Lookup(row, selected[f]))
      && ("calories" in selected ==> r["health_category"] == HealthCategory(r["calories"]))
  {
    var renamed := Renamed(selected, row, show, parse);
    var r := ProcessRow(selected, row, show, parse);
    assert forall f :: f in selected ==> r[f] == renamed[f];
    forall f | f in selected && IsNumericField(f) ensures r[f].Null? || r[f].Num? {
      NumericNotText(f);
      assert r[f] == ToNumeric(Lookup(row, selected[f]), parse);
    }
  }

  /** `dropna(subset=[recipe_id, title])`, for those of the two columns the frame has. */
  predicate HasEssentials(r: Row) {
    && ("recipe_id" in r ==> r["recipe_id"] != Null)
    && ("title" in r ==> r["title"] != Null)
  }

  function ProcessRows(selected: map<string, string>, rows: seq<Row>, show: real -> string, parse: string -> Option<real>)
    : (out: seq<Row>)
    ensures |out| == |rows| && forall i :: 0 <= i < |rows| ==> out[i] == ProcessRow(selected, rows[i], show, parse)
  {
    seq(|rows|, i requires 0 <= i < |rows| => ProcessRow(selected, rows[i], show, parse))
  }

  function DropIncomplete(rows: seq<Row>): (kept: seq<Row>)
    ensures |kept| <= |rows|
    decreases |rows|
  {
    if rows == [] then []
    else DropIncomplete(rows[..|rows| - 1]) + (if HasEssentials(rows[|rows| - 1]) then [rows[|rows| - 1]] else [])
  }

  /**
   * `preprocess_recipes` after the columns are chosen. The new frame starts
   * empty and takes its rows from the first column copied into it, so with
   * no column selected it has no rows at all.
   */
  function Preprocess(selected: map<string, string>, rows: seq<Row>, show: real -> string, parse: string -> Option<real>)
    : (out: seq<Row>)
    ensures |out| <= |rows|
  {
    if selected == map[] then [] else DropIncomplete(ProcessRows(selected, rows, show, parse))
  }

  /** Dropping keeps, in order, exactly the rows that have their essential fields. */
  lemma {:induction false} DropIncompleteFilters(rows: seq<Row>)
    ensures var out := DropIncomplete(rows);
      && |out| <= |rows|
      && (forall r :: r in out ==> HasEssentials(r) && r in rows)
      && (forall i :: 0 <= i < |rows| && HasEssentials(rows[i]) ==> rows[i] in out)
    decreases |rows|
  {
    if rows != [] {
      var n := |rows| - 1;
      var prefix, last := rows[..n], rows[n];
      DropIncompleteFilters(prefix);
      var out, earlier := DropIncomplete(rows), DropIncomplete(prefix);
      assert out == earlier + (if HasEssentials(last) then [last] else []);
      forall r | r in out ensures HasEssentials(r) && r in rows {
        if r in earlier {
          var i :| 0 <= i < |prefix| && prefix[i] == r;
          assert rows[i] == r;
        }
      }
      forall i | 0 <= i < |rows| && HasEssentials(rows[i]) ensures rows[i] in out {
        if i < n {
          assert rows[i] == prefix[i];
        }
      }
    }
  }

  /** A single row is kept exactly when it has its essential fields. */
  lemma DropIncompleteSingle(r: Row)
    ensures DropIncomplete([r]) == if HasEssentials(r) then [r] else []
  {
    assert [r][..0] == [];
  }

  /**
   * Dropping works row by row and keeps the survivors in their order: it
   * distributes over concatenation. With `DropIncompleteSingle` this fixes
   * the result for every frame, duplicate rows included.
   */
  lemma {:induction false} DropIncompleteInOrder(front: seq<Row>, back: seq<Row>)
    ensures DropIncomplete(front + back) == DropIncomplete(front) + DropIncomplete(back)
    decreases |back|
  {
    if back == [] {
      assert front + back == front;
    } else {
      var init, last := back[..|back| - 1], back[|back| - 1];
      var tail := if HasEssentials(last) then [last] else [];
      var whole := front + back;
      assert whole[..|whole| - 1] == front + init;
      assert whole[|whole| - 1] == last;
      assert DropIncomplete(whole) == DropIncomplete(front + init) + tail;
      assert DropIncomplete(back) == DropIncomplete(init) + tail;
      DropIncompleteInOrder(front, init);
    }
  }

  /** The kept rows are, in order, the processed rows that have their essential fields. */
  lemma PreprocessFilters(selected: map<string, string>, rows: seq<Row>, show: real -> string, parse: string -> Option<real>)
    ensures var out := Preprocess(selected, rows, show, parse);
      && |out| <= |rows|
      && (selected == map[] ==> out == [])
      && (forall r :: r in out ==> HasEssentials(r))
      && (forall r :: r in out ==> exists i :: 0 <= i < |rows| && r == ProcessRow(selected, rows[i], show, parse))
      && (selected != map[] ==>
            forall i :: 0 <= i < |rows| && HasEssentials(ProcessRow(selected, rows[i], show, parse)) ==>
              ProcessRow(selected, rows[i], show, parse) in out)
  {
    if selected != map[] {
      var processed := ProcessRows(selected, rows, show, parse);
      DropIncompleteFilters(processed);
      forall r | r in DropIncomplete(processed)
        ensures exists i :: 0 <= i < |rows| && r == ProcessRow(selected, rows[i], show, parse)
      {
        var i :| 0 <= i < |processed| && processed[i] == r;
      }
    }
  }

  /**
   * Titles are filled with "" before rows are dropped, so a missing title
   * never drops a row: only a missing recipe id does.
   */
  lemma TitleNeverDropped(selected: map<string, string>, row: Row, show: real -> string, parse: string -> Option<real>)
    requires "title" in selected
    ensures HasEssentials(ProcessRow(selected, row, show, parse)) <==>
      ("recipe_id" in selected ==> Lookup(row, selected["recipe_id"]) != Null)
  {
    var r := ProcessRow(selected, row, show, parse);
    var renamed := Renamed(selected, row, show, parse);
    assert r["title"] == renamed["title"] == Str(CleanText(Lookup(row, selected["title"]), show));
    if "recipe_id" in selected {
      assert r["recipe_id"] == renamed["recipe_id"] == Lookup(row, selected["recipe_id"]);
    }
  }

  /** A row with an id and no title is kept, with the empty title. */
  lemma MissingTitleKept(show: real -> string, parse: string -> Option<real>)
    ensures Preprocess(map["recipe_id" := "id", "title" := "Name"], [map["id" := Num(7.0), "Name" := Null]], show, parse)
      == [map["recipe_id" := Num(7.0), "title" := Str("")]]
  {
    var selected := map["recipe_id" := "id", "title" := "Name"];
    var row := map["id" := Num(7.0), "Name" := Null];
    var r := ProcessRow(selected, row, show, parse);
    assert r.Keys == {"recipe_id", "title"};
    assert r["title"] == Str(CleanText(Null, show)) == Str("");
    assert r == map["recipe_id" := Num(7.0), "title" := Str("")];
    assert ProcessRows(selected, [row], show, parse) == [r];
    assert HasEssentials(r);
    assert [r][..0] == [];
    assert DropIncomplete([r]) == DropIncomplete([]) + [r];
  }

  /** The essential check made on the cells as read, before cleaning. */
  predicate HasRawEssentials(selected: map<string, string>, row: Row) {
    && ("recipe_id" in selected ==> Lookup(row, selected["recipe_id"]) != Null)
    && ("title" in selected ==> Lookup(row, selected["title"]) != Null)
  }

  function KeepRawComplete(selected: map<string, string>, rows: seq<Row>): (kept: seq<Row>)
    ensures |kept| <= |rows|
    decreases |rows|
  {
    if rows == [] then []
    else
      KeepRawComplete(selected, rows[..|rows| - 1])
        + (if HasRawEssentials(selected, rows[|rows| - 1]) then [rows[|rows| - 1]] else [])
  }

  /**
   * Preprocessing that drops rows missing an id or a title, as its comment
   * intends. With no column selected the frame still has no rows.
   */
  function PreprocessIntended(selected: map<string, string>, rows: seq<Row>, show: real -> string, parse: string -> Option<real>)
    : (out: seq<Row>)
    ensures |out| <= |rows|
  {
    if selected == map[] then [] else ProcessRows(selected, KeepRawComplete(selected, rows), show, parse)
  }

  lemma {:induction false} KeepRawCompleteFilters(selected: map<string, string>, rows: seq<Row>)
    ensures var out := KeepRawComplete(selected, rows);
      && |out| <= |rows|
      && (forall r :: r in out ==> HasRawEssentials(selected, r) && r in rows)
      && (forall i :: 0 <= i < |rows| && HasRawEssentials(selected, rows[i]) ==> rows[i] in out)
    decreases |rows|
  {
    if rows != [] {
      var n := |rows| - 1;
      var prefix, last := rows[..n], rows[n];
      KeepRawCompleteFilters(selected, prefix);
      var out, earlier := KeepRawComplete(selected, rows), KeepRawComplete(selected, prefix);
      assert out == earlier + (if HasRawEssentials(selected, last) then [last] else []);
      forall r | r in out ensures HasRawEssentials(selected, r) && r in rows {
        if r in earlier {
          var i :| 0 <= i < |prefix| && prefix[i] == r;
          assert rows[i] == r;
        }
      }
      forall i | 0 <= i < |rows| && HasRawEssentials(selected, rows[i]) ensures rows[i] in out {
        if i < n {
          assert rows[i] == prefix[i];
        }
      }
    }
  }

  /** Every kept row had an id and a title as read, and every such row is kept. */
  lemma PreprocessIntendedDrops(selected: map<string, string>, rows: seq<Row>, show: real -> string, parse: string -> Option<real>)
    ensures var out := PreprocessIntended(selected, rows, show, parse);
      && |out| <= |rows|
      && (selected == map[] ==> out == [])
      && (forall r :: r in out ==>
            exists i :: 0 <= i < |rows| && HasRawEssentials(selected, rows[i]) && r == ProcessRow(selected, rows[i], show, parse))
      && (selected != map[] ==>
            forall i :: 0 <= i < |rows| && HasRawEssentials(selected, rows[i]) ==>
              ProcessRow(selected, rows[i], show, parse) in out)
  {
    if selected != map[] {
      var kept := KeepRawComplete(selected, rows);
      var out := PreprocessIntended(selected, rows, show, parse);
      KeepRawCompleteFilters(selected, rows);
      forall r | r in out
        ensures exists i :: 0 <= i < |rows| && HasRawEssentials(selected, rows[i]) && r == ProcessRow(selected, rows[i], show, parse)
      {
        var j :| 0 <= j < |kept| && out[j] == r;
        assert kept[j] in kept;
        var i :| 0 <= i < |rows| && rows[i] == kept[j];
      }
      forall i | 0 <= i < |rows| && HasRawEssentials(selected, rows[i])
        ensures ProcessRow(selected, rows[i], show, parse) in out
      {
        var j :| 0 <= j < |kept| && kept[j] == rows[i];
        assert out[j] == ProcessRow(selected, rows[i], show, parse);
      }
    }
  }

  /** The intended rule drops the row that `MissingTitleKept` keeps. */
  lemma MissingTitleDroppedWhenIntended(show: real -> string, parse: string -> Option<real>)
    ensures PreprocessIntended(map["recipe_id" := "id", "title" := "Name"], [map["id" := Num(7.0), "Name" := Null]], show, parse) == []
  {
    var selected := map["recipe_id" := "id", "title" := "Name"];
    var row := map["id" := Num(7.0), "Name" := Null];
    assert Lookup(row, selected["title"]) == Null;
    assert KeepRawComplete(selected, [row]) == [];
  }

  // ---------------------------------------------------------------- searchable text

  function PresentPart(row: Row, field: string, show: real -> string): seq<string> {
    if field in row && row[field] != Null then [CellString(row[field], show)] else []
  }

  /** The parts `create_recipe_text` collects: title, tags, ingredients, each when present and not missing. */
  function RecipeTextParts(row: Row, show: real -> string): seq<string> {
    PresentPart(row, "title", show) + PresentPart(row, "tags", show) + PresentPart(row, "ingredients", show)
  }

  /** `create_recipe_text` */
  method CreateRecipeText(row: Row, show: real -> string) returns (text: string)
    ensures text == Join(" ", RecipeTextParts(row, show))
  {
    var parts: seq<string> := [];
    if "title" in row && row["title"] != Null {
      parts := parts + [CellString(row["title"], show)];
    }
    assert parts == PresentPart(row, "title", show);
    if "tags" in row && row["tags"] != Null {
      parts := parts + [CellString(row["tags"], show)];
    }
    assert parts == PresentPart(row, "title", show) + PresentPart(row, "tags", show);
    if "ingredients" in row && row["ingredients"] != Null {
      parts := parts + [CellString(row["ingredients"], show)];
    }
    assert parts == RecipeTextParts(row, show);
    text := Join(" ", parts);
  }

  /**
   * The searchable text has one part per present field and one space between
   * each two, so an empty part still adds its space; it starts with the title
   * when there is one.
   */
  lemma RecipeTextLayout(row: Row, show: real -> string)
    ensures var parts, text := RecipeTextParts(row, show), Join(" ", RecipeTextParts(row, show));
      && |parts| == |PresentPart(row, "title", show)| + |PresentPart(row, "tags", show)| + |PresentPart(row, "ingredients", show)|
      && (parts != [] ==> |text| == TotalLength(parts) + |parts| - 1)
      && (parts == [] ==> text == "")
      && ("title" in row && row["title"] != Null ==> StartsWith(text, CellString(row["title"], show)))
  {
    var parts := RecipeTextParts(row, show);
    if parts != [] {
      JoinLength(" ", parts);
      JoinStartsWith(" ", parts);
    }
  }

  /** An empty title still contributes its separator. */
  lemma EmptyTitleKeepsSeparator(show: real -> string)
    ensures Join(" ", RecipeTextParts(map["title" := Str(""), "tags" := Str("vegan")], show)) == " vegan"
  {
    var row := map["title" := Str(""), "tags" := Str("vegan")];
    assert RecipeTextParts(row, show) == ["", "vegan"];
  }
}
