/** The table layout shared by the two `print` helpers: options normalised to
    columns, rows picked to the column names, every column as wide as its widest
    text, and a header of padded names. */
module Table {
  import opened Js

  /** One entry of `_options`: a bare column name, or an object naming the column
      with an optional `transform` and `colorize` flag. */
  datatype OptionSpec =
    | Named(name: string)
    | Described(name: string, transform: Option<Value -> string>, colorize: bool)

  /** `_options` itself: one entry, or an array of them. */
  datatype Options = Single(spec: OptionSpec) | List(specs: seq<OptionSpec>)

  /** A normalised option: `{name, transform, colorize}`. */
  datatype Column = Column(name: string, transform: Value -> string, colorize: bool)

  /** The default transform `` i => `${i}` ``. */
  function Stringify(): Value -> string {
    (v: Value) => ToStr(v)
  }

  /** `_.flatten([_options])` */
  function Specs(options: Options): seq<OptionSpec> {
    match options
    case Single(s) => [s]
    case List(ss) => ss
  }

  /** A string option becomes `{name}`; `_.defaults` adds the default transform
      when the option has none. */
  function Normalised(spec: OptionSpec): Column {
    match spec
    case Named(n) => Column(n, Stringify(), false)
    case Described(n, t, c) => Column(n, if t.Some? then t.value else Stringify(), c)
  }

  function Columns(options: Options): (r: seq<Column>)
    ensures |r| == |Specs(options)|
    ensures forall i :: 0 <= i < |r| ==> r[i] == Normalised(Specs(options)[i])
  {
    var specs := Specs(options);
    seq(|specs|, i requires 0 <= i < |specs| => Normalised(specs[i]))
  }

  /** A column written back as an option object. */
  function AsSpec(c: Column): OptionSpec {
    Described(c.name, Some(c.transform), c.colorize)
  }

  /** Every column keeps the name it was given, takes the default transform only
      when none was given, and normalising the result again changes nothing. */
  lemma ColumnsNormalise(options: Options)
    ensures forall i :: 0 <= i < |Specs(options)| ==>
      Columns(options)[i].name == Specs(options)[i].name &&
      (Columns(options)[i].colorize <==> Specs(options)[i].Described? && Specs(options)[i].colorize) &&
      (Specs(options)[i].Described? && Specs(options)[i].transform.Some? ==>
         Columns(options)[i].transform == Specs(options)[i].transform.value)
    ensures Columns(List(seq(|Columns(options)|, i requires 0 <= i < |Columns(options)| => AsSpec(Columns(options)[i])))) ==
      Columns(options)
  {
    var cs := Columns(options);
    var again := Columns(List(seq(|cs|, i requires 0 <= i < |cs| => AsSpec(cs[i]))));
    assert |again| == |cs|;
    forall i | 0 <= i < |cs| ensures again[i] == cs[i] {
      assert again[i] == Normalised(AsSpec(cs[i]));
    }
  }

  function Names(columns: seq<Column>): (r: seq<string>)
    ensures |r| == |columns| && forall i :: 0 <= i < |r| ==> r[i] == columns[i].name
  {
    seq(|columns|, i requires 0 <= i < |columns| => columns[i].name)
  }

  // ---------------------------------------------------------------------------
  // Rows

  /** `_.pick(obj, names)` of one entry of the data. */
  function Row(v: Value, names: seq<string>): seq<Prop> {
    Pick(OwnProps(v), names)
  }

  /** `_.chain([data]).flatten().compact().map(obj => _.pick(obj, names))` */
  function Rows(data: Value, columns: seq<Column>): (r: seq<seq<Prop>>)
    ensures |r| == |Compact(Wrap(data))|
    ensures forall i :: 0 <= i < |r| ==> r[i] == Row(Compact(Wrap(data))[i], Names(columns))
  {
    var entries := Compact(Wrap(data));
    seq(|entries|, i requires 0 <= i < |entries| => Row(entries[i], Names(columns)))
  }

  /** A row holds exactly the data's values under the column names; falsy entries
      of the data make no row. */
  lemma RowsPicked(data: Value, columns: seq<Column>, i: nat, k: string)
    requires i < |Rows(data, columns)|
    ensures Truthy(Compact(Wrap(data))[i])
    ensures Lookup(Rows(data, columns)[i], k) ==
      if k in Names(columns) then Lookup(OwnProps(Compact(Wrap(data))[i]), k) else None
  {
    assert Compact(Wrap(data))[i] in Compact(Wrap(data));
  }

  /** Entries that are all falsy print no rows. */
  lemma {:induction false} NoTruthyNoRows(data: seq<Value>, columns: seq<Column>)
    requires forall i :: 0 <= i < |data| ==> !Truthy(data[i])
    ensures Rows(Arr(data), columns) == []
  {
    if Compact(data) != [] {
      assert Compact(data)[0] in Compact(data);
    }
  }

  // ---------------------------------------------------------------------------
  // Column widths

  /** `row[name]` */
  function Cell(row: seq<Prop>, name: string): Value {
    match Lookup(row, name)
    case None => Undefined
    case Some(v) => v
  }

  /** `` `${row[name]}`.length `` */
  function CellLength(row: seq<Prop>, name: string): nat {
    |ToStr(Cell(row, name))|
  }

  /** The width of the column `name`: the longest of the name and the texts of its cells. */
  function Width(name: string, rows: seq<seq<Prop>>): (w: nat)
    ensures w >= |name|
    decreases |rows|
  {
    if rows == [] then |name|
    else
      var w := Width(name, rows[..|rows| - 1]);
      var n := CellLength(rows[|rows| - 1], name);
      if n > w then n else w
  }

  /** No cell is wider than its column, and the width is the name's or some cell's. */
  lemma {:induction false} WidthBounds(name: string, rows: seq<seq<Prop>>)
    ensures forall i :: 0 <= i < |rows| ==> Width(name, rows) >= CellLength(rows[i], name)
    ensures Width(name, rows) == |name| || (exists i :: 0 <= i < |rows| && Width(name, rows) == CellLength(rows[i], name))
    decreases |rows|
  {
    if rows != [] {
      var init := rows[..|rows| - 1];
      WidthBounds(name, init);
      assert forall i :: 0 <= i < |init| ==> init[i] == rows[i];
      if Width(name, rows) != |name| && Width(name, rows) != CellLength(rows[|rows| - 1], name) {
        var i :| 0 <= i < |init| && Width(name, init) == CellLength(init[i], name);
        assert Width(name, rows) == CellLength(rows[i], name);
      }
    }
  }

  /** The width of every column, by name. */
  function Widths(columns: seq<Column>, rows: seq<seq<Prop>>): map<string, nat> {
    map k | k in Names(columns) :: Width(k, rows)
  }

  /** `columnLengths`, built by the `reduce` over the options. */
  method ColumnWidths(columns: seq<Column>, rows: seq<seq<Prop>>) returns (lengths: map<string, nat>)
    ensures forall k :: k in lengths <==> k in Names(columns)
    ensures forall k :: k in lengths ==> lengths[k] == Width(k, rows)
    ensures lengths == Widths(columns, rows)
  {
    lengths := map[];
    var j := 0;
    while j < |columns|
      invariant 0 <= j <= |columns|
      invariant forall k :: k in lengths <==> k in Names(columns)[..j]
      invariant forall k :: k in lengths ==> lengths[k] == Width(k, rows)
    {
      var name := columns[j].name;
      var length := ColumnWidth(name, rows);
      lengths := lengths[name := length];
      assert Names(columns)[..j + 1] == Names(columns)[..j] + [name];
      j := j + 1;
    }
    assert Names(columns)[..j] == Names(columns);
  }

  /** The inner loop over the rows: the longest of the name and its cells. */
  method ColumnWidth(name: string, rows: seq<seq<Prop>>) returns (length: nat)
    ensures length == Width(name, rows)
  {
    length := |name|;
    var i := 0;
    while i < |rows|
      invariant 0 <= i <= |rows|
      invariant length == Width(name, rows[..i])
    {
      var newLength := CellLength(rows[i], name);
      assert rows[..i + 1][..i] == rows[..i];
      length := if newLength > length then newLength else length;
      i := i + 1;
    }
    assert rows[..i] == rows;
  }

  /** `columnLengths[key]`; a key with no width pads nothing. */
  function WidthOf(lengths: map<string, nat>, k: string): nat {
    if k in lengths then lengths[k] else 0
  }

  // ---------------------------------------------------------------------------
  // Header

  function HeaderCells(columns: seq<Column>, lengths: map<string, nat>): (r: seq<string>)
    ensures |r| == |columns|
    ensures forall j :: 0 <= j < |r| ==> r[j] == PadEnd(columns[j].name, WidthOf(lengths, columns[j].name))
  {
    seq(|columns|, j requires 0 <= j < |columns| => PadEnd(columns[j].name, WidthOf(lengths, columns[j].name)))
  }

  /** The header line: every option name padded to its column width, joined by single spaces. */
  function Header(columns: seq<Column>, lengths: map<string, nat>): string {
    Join(HeaderCells(columns, lengths), " ")
  }

  /** With the computed widths every header cell is exactly as wide as its column,
      starts with the column name and is filled with spaces after it. */
  lemma HeaderAligned(columns: seq<Column>, rows: seq<seq<Prop>>, lengths: map<string, nat>, j: nat)
    requires forall k :: k in lengths <==> k in Names(columns)
    requires forall k :: k in lengths ==> lengths[k] == Width(k, rows)
    requires j < |columns|
    ensures |HeaderCells(columns, lengths)[j]| == Width(columns[j].name, rows)
    ensures HeaderCells(columns, lengths)[j][..|columns[j].name|] == columns[j].name
    ensures forall c :: c in HeaderCells(columns, lengths)[j][|columns[j].name|..] ==> c == ' '
  {
    assert columns[j].name == Names(columns)[j];
    var cell := HeaderCells(columns, lengths)[j];
    forall c | c in cell[|columns[j].name|..] ensures c == ' ' {
      var t :| 0 <= t < |cell[|columns[j].name|..]| && cell[|columns[j].name|..][t] == c;
      assert cell[|columns[j].name| + t] == c;
    }
  }
}
