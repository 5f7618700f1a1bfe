/**
 * components/utilities/Table.js: the parts of the generic table the
 * repository writes itself — the `text` column filter, the empty-input
 * conventions of the filter inputs, the composed column list, the page
 * jump input, the CSV projection and the bulk-remove and filter buttons.
 * Sorting, paging and selection are react-table's and are not modelled.
 */
module Table {
  import opened Wrappers
  import opened Json
  import Strings

  /** A react-table row: its cell values by column id, and the data object it came from. */
  datatype Row = Row(values: map<string, Value>, original: Value)

  /** `row.values[id]` */
  function CellValue(row: Row, id: string): Value {
    if id in row.values then row.values[id] else Undefined
  }

  /** `String(v).toLowerCase()` */
  function LowerString(v: Value): string {
    Strings.Lower(ToJsString(v))
  }

  /** Whether the `text` filter keeps a row: no value in the column, or a case-insensitive prefix match. */
  predicate Keeps(row: Row, id: string, filterValue: Value)
    ensures CellValue(row, id) == Undefined ==> Keeps(row, id, filterValue)
    ensures CellValue(row, id) != Undefined ==>
      var cell, text := LowerString(CellValue(row, id)), LowerString(filterValue);
      (Keeps(row, id, filterValue) <==> |text| <= |cell| && cell[..|text|] == text)
    ensures LowerString(CellValue(row, id)) == LowerString(filterValue) ==> Keeps(row, id, filterValue)
  {
    CellValue(row, id) == Undefined
    || Strings.StartsWith(LowerString(CellValue(row, id)), LowerString(filterValue))
  }

  /** `filterTypes.text` */
  function TextFilter(rows: seq<Row>, id: string, filterValue: Value): (r: seq<Row>)
    ensures |r| <= |rows|
    ensures forall x :: x in r <==> x in rows && Keeps(x, id, filterValue)
  {
    if |rows| == 0 then []
    else
      var rest := TextFilter(rows[1..], id, filterValue);
      assert forall x :: x in rows <==> x == rows[0] || x in rows[1..];
      if Keeps(rows[0], id, filterValue) then [rows[0]] + rest else rest
  }

  /** Each kept row appears as many times as in the input; a dropped row not at all. */
  lemma {:induction false} TextFilterCounts(rows: seq<Row>, id: string, filterValue: Value)
    ensures forall x ::
      multiset(TextFilter(rows, id, filterValue))[x] == (if Keeps(x, id, filterValue) then multiset(rows)[x] else 0)
  {
    if |rows| > 0 {
      TextFilterCounts(rows[1..], id, filterValue);
      assert rows == [rows[0]] + rows[1..];
    }
  }

  /** `a` is `b` with some elements left out, in the same order. */
  predicate IsSubseq<T(==)>(a: seq<T>, b: seq<T>)
    decreases |b|
  {
    |a| == 0 || (|b| > 0 && ((a[0] == b[0] && IsSubseq(a[1..], b[1..])) || IsSubseq(a, b[1..])))
  }

  /** The filter only drops rows: what is left is in the original order. */
  lemma {:induction false} TextFilterSubseq(rows: seq<Row>, id: string, filterValue: Value)
    ensures IsSubseq(TextFilter(rows, id, filterValue), rows)
  {
    if |rows| > 0 {
      TextFilterSubseq(rows[1..], id, filterValue);
      var rest := TextFilter(rows[1..], id, filterValue);
      if Keeps(rows[0], id, filterValue) {
        assert ([rows[0]] + rest)[1..] == rest;
      }
    }
  }

  /** Rows are kept exactly when every one of them passes. */
  lemma {:induction false} TextFilterAll(rows: seq<Row>, id: string, filterValue: Value)
    ensures TextFilter(rows, id, filterValue) == rows <==> forall x :: x in rows ==> Keeps(x, id, filterValue)
  {
    if |rows| > 0 {
      TextFilterAll(rows[1..], id, filterValue);
      assert forall x :: x in rows <==> x == rows[0] || x in rows[1..];
      if !Keeps(rows[0], id, filterValue) {
        assert |TextFilter(rows, id, filterValue)| < |rows| by {
          assert |TextFilter(rows[1..], id, filterValue)| <= |rows[1..]|;
        }
      }
    }
  }

  /** Filtering twice by the same value changes nothing more. */
  lemma TextFilterIdempotent(rows: seq<Row>, id: string, filterValue: Value)
    ensures TextFilter(TextFilter(rows, id, filterValue), id, filterValue) == TextFilter(rows, id, filterValue)
  {
    TextFilterAll(TextFilter(rows, id, filterValue), id, filterValue);
  }

  /** An empty filter string keeps every row. */
  lemma EmptyFilterKeepsAll(rows: seq<Row>, id: string)
    ensures TextFilter(rows, id, Str("")) == rows
  {
    TextFilterAll(rows, id, Str(""));
  }

  lemma StartsWithTrans(s: string, p: string, q: string)
    requires Strings.StartsWith(s, p) && Strings.StartsWith(p, q)
    ensures Strings.StartsWith(s, q)
  {
    assert s[..|q|] == s[..|p|][..|q|];
  }

  /**
   * Typing more: when the new filter text extends the old one, filtering
   * what the old one left gives what the new one gives on all rows.
   */
  lemma {:induction false} TextFilterNarrows(rows: seq<Row>, id: string, shorter: Value, longer: Value)
    requires Strings.StartsWith(LowerString(longer), LowerString(shorter))
    ensures TextFilter(TextFilter(rows, id, shorter), id, longer) == TextFilter(rows, id, longer)
  {
    if |rows| > 0 {
      TextFilterNarrows(rows[1..], id, shorter, longer);
      var r := rows[0];
      if Keeps(r, id, longer) && CellValue(r, id) != Undefined {
        StartsWithTrans(LowerString(CellValue(r, id)), LowerString(longer), LowerString(shorter));
      }
    }
  }

  /** Filters on two columns give the same rows in either order. */
  lemma {:induction false} TextFiltersCommute(rows: seq<Row>, a: string, f: Value, b: string, g: Value)
    ensures TextFilter(TextFilter(rows, a, f), b, g) == TextFilter(TextFilter(rows, b, g), a, f)
  {
    if |rows| > 0 {
      TextFiltersCommute(rows[1..], a, f, b, g);
    }
  }

  /** `fuzzyTextFilterFn.autoRemove`: a falsy filter value removes the filter. */
  predicate AutoRemove(val: Value)
    ensures val.Str? ==> (AutoRemove(val) <==> val.s == "")
    ensures val.Undefined? || val.Null? ==> AutoRemove(val)
    ensures AutoRemove(val) ==> Displayed(val) == Str("")
  {
    !Truthy(val)
  }

  /** `e.target.value || undefined`, what the column and global filter inputs store. */
  function FilterInput(text: string): (v: Value)
    ensures v == Undefined <==> text == ""
    ensures text != "" ==> v == Str(text)
  {
    if text != "" then Str(text) else Undefined
  }

  /** `filterValue || ""`, what those inputs display. */
  function Displayed(filterValue: Value): (r: Value)
    ensures Truthy(r) <==> Truthy(filterValue)
    ensures Truthy(filterValue) ==> r == filterValue
    ensures !Truthy(filterValue) ==> r == Str("")
  {
    if Truthy(filterValue) then filterValue else Str("")
  }

  /**
   * Clearing an input removes its filter and nothing else does; the input
   * then displays exactly what was typed.
   */
  lemma FilterInputRoundTrip(text: string)
    ensures AutoRemove(FilterInput(text)) <==> text == ""
    ensures Displayed(FilterInput(text)) == Str(text)
  {
  }

  /** An entry of the composed column list. */
  datatype ColumnEntry<C> = Selection | Data(column: C) | Options

  /** Which row-action props were given (truthy). */
  datatype RowActions = RowActions(
    onEdit: bool, onAnswer: bool, onWhatsapp: bool, onAnswerList: bool,
    customUtilities: bool, onGenerate: bool, onAddParticipant: bool, onRemove: bool)

  /** The props that put an options menu on each row; `onRemove` is not one of them. */
  predicate HasRowOptions(a: RowActions) {
    a.onEdit || a.onAnswer || a.onWhatsapp || a.onAnswerList
    || a.customUtilities || a.onGenerate || a.onAddParticipant
  }

  /** The `visibleColumns` hook: a selection column, the caller's columns, and maybe an options column. */
  function ComposeColumns<C>(columns: seq<C>, actions: RowActions): (r: seq<ColumnEntry<C>>)
    ensures |r| == |columns| + 1 + (if HasRowOptions(actions) then 1 else 0)
    ensures r[0] == Selection
    ensures forall i :: 0 <= i < |columns| ==> r[i + 1] == Data(columns[i])
    ensures r[|r| - 1] == Options <==> HasRowOptions(actions)
    ensures forall i :: 0 < i < |r| - 1 ==> r[i].Data?
  {
    var finalColumns := [Selection] + seq(|columns|, i requires 0 <= i < |columns| => Data(columns[i]));
    if HasRowOptions(actions) then finalColumns + [Options] else finalColumns
  }

  /** The `Data` entries of a column list, in order. */
  function DataColumns<C>(entries: seq<ColumnEntry<C>>): seq<C> {
    if |entries| == 0 then []
    else (if entries[0].Data? then [entries[0].column] else []) + DataColumns(entries[1..])
  }

  lemma {:induction false} DataColumnsOfData<C>(columns: seq<C>)
    ensures DataColumns(seq(|columns|, i requires 0 <= i < |columns| => Data(columns[i]))) == columns
  {
    if |columns| > 0 {
      var d := seq(|columns|, i requires 0 <= i < |columns| => Data(columns[i]));
      assert d[1..] == seq(|columns[1..]|, i requires 0 <= i < |columns[1..]| => Data(columns[1..][i]));
      DataColumnsOfData(columns[1..]);
    }
  }

  lemma {:induction false} DataColumnsAppend<C>(a: seq<ColumnEntry<C>>, b: seq<ColumnEntry<C>>)
    ensures DataColumns(a + b) == DataColumns(a) + DataColumns(b)
  {
    if |a| == 0 {
      assert a + b == b;
    } else {
      assert (a + b)[0] == a[0];
      assert (a + b)[1..] == a[1..] + b;
      DataColumnsAppend(a[1..], b);
    }
  }

  /** The caller's columns come through all, once each, in their order, whatever the row actions. */
  lemma ComposeKeepsColumns<C>(columns: seq<C>, actions: RowActions)
    ensures DataColumns(ComposeColumns(columns, actions)) == columns
  {
    var d := seq(|columns|, i requires 0 <= i < |columns| => Data(columns[i]));
    DataColumnsOfData(columns);
    DataColumnsAppend([Selection], d);
    if HasRowOptions(actions) {
      DataColumnsAppend([Selection] + d, [Options]);
    }
  }

  /** A remove handler on its own adds no options column. */
  lemma RemoveAloneNoOptions<C>(columns: seq<C>)
    ensures var a := RowActions(false, false, false, false, false, false, false, true);
      ComposeColumns(columns, a) == [Selection] + seq(|columns|, i requires 0 <= i < |columns| => Data(columns[i]))
  {
  }

  /**
   * The page-jump input: an empty input (`None`) goes to page index 0,
   * a number `n` to index `n - 1`.
   */
  function PageJump(input: Option<int>): (page: int)
    ensures input.None? ==> page == 0
    ensures input.Some? ==> page + 1 == input.value
  {
    if input.Some? then input.value - 1 else 0
  }

  /** The input shows `pageIndex + 1`; submitting it goes back to `pageIndex`. */
  lemma PageJumpRoundTrip(pageIndex: int)
    ensures PageJump(Some(pageIndex + 1)) == pageIndex
  {
  }

  /** Typing 0 asks for page index -1, which is not a page; an empty input asks for the first page. */
  lemma PageJumpZero()
    ensures PageJump(Some(0)) == -1
    ensures PageJump(None) == PageJump(Some(1)) == 0
  {
  }

  /** lodash `get` along a path already split into keys: `undefined` once a step reaches `null` or `undefined`. */
  function GetPath(v: Value, path: seq<string>): (r: Value)
    ensures |path| == 0 ==> r == v
    ensures |path| > 0 && (v.Undefined? || v.Null?) ==> r == Undefined
    ensures |path| == 1 && !v.Undefined? && !v.Null? ==> r == Get(v, path[0])
    decreases |path|
  {
    if |path| == 0 then v
    else if v.Undefined? || v.Null? then Undefined
    else GetPath(Get(v, path[0]), path[1..])
  }

  /** lodash `get(obj, accessor)` for a dot-separated accessor. */
  function LodashGet(obj: Value, accessor: string): (r: Value)
    ensures obj.Undefined? || obj.Null? ==> r == Undefined
  {
    GetPath(obj, Strings.Split(accessor, "."))
  }

  /** An accessor without a dot reads one property, and nothing from `null` or `undefined`. */
  lemma PlainAccessor(obj: Value, accessor: string)
    requires '.' !in accessor
    ensures LodashGet(obj, accessor) == if obj.Undefined? || obj.Null? then Undefined else Get(obj, accessor)
  {
    forall k | 0 <= k <= |accessor| ensures !Strings.OccursAt(accessor, ".", k) {
      if k + 1 <= |accessor| {
        assert accessor[k..k + 1][0] == accessor[k];
      }
    }
    assert Strings.Split(accessor, ".") == [accessor];
    if !obj.Undefined? && !obj.Null? {
      assert GetPath(obj, [accessor]) == GetPath(Get(obj, accessor), []);
    }
  }

  lemma PlainAccessorIf(obj: Value, accessor: string)
    ensures '.' !in accessor ==>
      LodashGet(obj, accessor) == if obj.Undefined? || obj.Null? then Undefined else Get(obj, accessor)
  {
    if '.' !in accessor {
      PlainAccessor(obj, accessor);
    }
  }

  /** Reading along `p + q` is reading `q` from what `p` reaches. */
  lemma {:induction false} GetPathConcat(v: Value, p: seq<string>, q: seq<string>)
    ensures GetPath(v, p + q) == GetPath(GetPath(v, p), q)
    decreases |p|
  {
    if |p| == 0 {
      assert p + q == q;
    } else if v.Undefined? || v.Null? {
      assert |p + q| > 0;
    } else {
      assert (p + q)[0] == p[0] && (p + q)[1..] == p[1..] + q;
      GetPathConcat(Get(v, p[0]), p[1..], q);
    }
  }

  /** A dotted accessor reads its first segment, then the rest of the path from there. */
  lemma LodashGetDotted(obj: Value, a: string, b: string)
    requires '.' !in a
    ensures LodashGet(obj, a + "." + b) == LodashGet(LodashGet(obj, a), b)
  {
    var t := "." + b;
    assert a + "." + b == a + t;
    forall k | 0 <= k < |a| ensures !Strings.OccursAt(a + t, ".", k) {
      assert (a + t)[k] == a[k];
      if k + 1 <= |a + t| {
        assert (a + t)[k..k + 1][0] == (a + t)[k];
      }
    }
    Strings.SplitShift(a, t, ".");
    var pt := Strings.Split(t, ".");
    assert pt == [""] + Strings.Split(b, ".") by {
      assert Strings.OccursAt(t, ".", 0);
      Strings.SplitAtStart(t, ".");
      assert t[|"."|..] == b;
    }
    assert pt[0] == "" && pt[1..] == Strings.Split(b, ".");
    assert a + pt[0] == a;
    assert Strings.Split(a + t, ".") == [a] + Strings.Split(b, ".");
    GetPathConcat(obj, [a], Strings.Split(b, "."));
    PlainAccessor(obj, a);
    if !obj.Undefined? && !obj.Null? {
      assert GetPath(obj, [a]) == GetPath(Get(obj, a), []);
    }
  }

  /** A CSV column: its header, its accessor, and an optional formatter of the looked-up value. */
  datatype CsvColumn = CsvColumn(header: Value, accessor: string, csvFormatter: Option<(Value, Row) -> Value>)

  /** One CSV cell: the formatter's result when the column has one, the looked-up value otherwise. */
  function CsvCell(column: CsvColumn, row: Row): (r: Value)
    ensures column.csvFormatter.None? && '.' !in column.accessor ==>
      r == if row.original.Undefined? || row.original.Null? then Undefined else Get(row.original, column.accessor)
    ensures column.csvFormatter.Some? ==> r == column.csvFormatter.value(LodashGet(row.original, column.accessor), row)
  {
    PlainAccessorIf(row.original, column.accessor);
    var value := LodashGet(row.original, column.accessor);
    if column.csvFormatter.Some? then column.csvFormatter.value(value, row) else value
  }

  function CsvRow(columns: seq<CsvColumn>, row: Row): (r: seq<Value>)
    ensures |r| == |columns|
    ensures forall j :: 0 <= j < |columns| ==> r[j] == CsvCell(columns[j], row)
  {
    seq(|columns|, j requires 0 <= j < |columns| => CsvCell(columns[j], row))
  }

  /** `newData` in `CSVDownloadButton`: the header line, then one line per row. */
  function CsvData(columns: seq<CsvColumn>, rows: seq<Row>): (data: seq<seq<Value>>)
    ensures |data| == |rows| + 1
    ensures data[0] == seq(|columns|, j requires 0 <= j < |columns| => columns[j].header)
    ensures forall i :: 0 <= i < |data| ==> |data[i]| == |columns|
    ensures forall i, j :: 0 <= i < |rows| && 0 <= j < |columns| ==>
      data[i + 1][j] == if columns[j].csvFormatter.Some? then columns[j].csvFormatter.value(LodashGet(rows[i].original, columns[j].accessor), rows[i])
                        else LodashGet(rows[i].original, columns[j].accessor)
  {
    [seq(|columns|, j requires 0 <= j < |columns| => columns[j].header)]
      + seq(|rows|, i requires 0 <= i < |rows| => CsvRow(columns, rows[i]))
  }

  /** Exporting two batches of rows gives the lines of both, after one header line. */
  lemma CsvDataAppend(columns: seq<CsvColumn>, a: seq<Row>, b: seq<Row>)
    ensures CsvData(columns, a + b) == CsvData(columns, a) + CsvData(columns, b)[1..]
  {
  }

  /** `csvDownloaderConfig.filename || "data.csv"` */
  function CsvFilename(config: Value): (v: Value)
    requires !config.Undefined? && !config.Null?
    ensures Truthy(v)
    ensures Truthy(Get(config, "filename")) ==> v == Get(config, "filename")
    ensures !Truthy(Get(config, "filename")) ==> v == Str("data.csv")
  {
    var f := Get(config, "filename");
    if Truthy(f) then f else Str("data.csv")
  }

  /** `csvDownloaderConfig.separator || ","` */
  function CsvSeparator(config: Value): (v: Value)
    requires !config.Undefined? && !config.Null?
    ensures Truthy(v)
    ensures Truthy(Get(config, "separator")) ==> v == Get(config, "separator")
    ensures !Truthy(Get(config, "separator")) ==> v == Str(",")
  {
    var s := Get(config, "separator");
    if Truthy(s) then s else Str(",")
  }

  /** An empty configuration object gives the defaults. */
  lemma CsvDefaults()
    ensures CsvFilename(Obj([])) == Str("data.csv") && CsvSeparator(Obj([])) == Str(",")
  {
  }

  /** `selectedFlatRows.map((r) => r.original)` */
  function Originals(selected: seq<Row>): (r: seq<Value>)
    ensures |r| == |selected|
    ensures forall i :: 0 <= i < |r| ==> r[i] == selected[i].original
  {
    seq(|selected|, i requires 0 <= i < |selected| => selected[i].original)
  }

  /** The table's own state: the filter-row toggle, and the payloads handed to `onRemove`. */
  class TableView {
    var filterVisible: bool
    var removed: seq<seq<Value>>

    /** The remove button is disabled while nothing is selected, so no payload is empty. */
    ghost predicate Valid()
      reads this
    {
      forall i :: 0 <= i < |removed| ==> |removed[i]| > 0
    }

    constructor ()
      ensures Valid() && !filterVisible && removed == []
    {
      filterVisible := false;
      removed := [];
    }

    /** The filter button. */
    method ToggleFilter()
      requires Valid()
      modifies this
      ensures Valid()
      ensures filterVisible == !old(filterVisible) && removed == old(removed)
    {
      filterVisible := !filterVisible;
    }

    /** A click on the remove button with the given rows selected. */
    method ClickRemove(selected: seq<Row>)
      requires Valid()
      modifies this
      ensures Valid()
      ensures filterVisible == old(filterVisible)
      ensures removed == if |selected| == 0 then old(removed) else old(removed) + [Originals(selected)]
    {
      if |selected| == 0 {
        return;
      }
      removed := removed + [Originals(selected)];
    }
  }
}
