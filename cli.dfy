/** The command-line entry point: which template file is loaded, the missing-key
    warning, and the colourising `print` that lays data out as a table. */
module Cli {
  import opened Js
  import opened Table

  // ---------------------------------------------------------------------------
  // The template file

  const FormationFilenames: seq<string> := ["formation.yaml", "formation.yml", "formation.json"]

  /** `path.join(dir, name)` for a plain file name (no `..` segments to normalise). */
  function PathJoin(dir: string, name: string): string {
    if dir == [] then name
    else if dir[|dir| - 1] == '/' then dir + name
    else dir + "/" + name
  }

  /** The first file of `names`, joined to `dir`, that exists. */
  function FirstExisting(dir: string, names: seq<string>, exists_: string -> bool): (r: Option<string>)
    ensures r.Some? ==> exists_(r.value)
    ensures r.Some? ==>
      (exists i :: 0 <= i < |names| && r.value == PathJoin(dir, names[i]) &&
         (forall j :: 0 <= j < i ==> !exists_(PathJoin(dir, names[j]))))
    ensures r.None? <==> forall i :: 0 <= i < |names| ==> !exists_(PathJoin(dir, names[i]))
    decreases |names|
  {
    if names == [] then None
    else if exists_(PathJoin(dir, names[0])) then Some(PathJoin(dir, names[0]))
    else
      var r := FirstExisting(dir, names[1..], exists_);
      assert forall i :: 0 <= i < |names| - 1 ==> names[1..][i] == names[i + 1];
      r
  }

  /** The template is `formation.yaml`, else `formation.yml`, else `formation.json`,
      in the working directory, whichever exists first. */
  function TemplatePath(pwd: string, exists_: string -> bool): Option<string> {
    FirstExisting(pwd, FormationFilenames, exists_)
  }

  /** The yaml spelling wins over the short one, which wins over json; with none
      of them present there is no template. */
  lemma TemplatePreference(pwd: string, exists_: string -> bool)
    ensures TemplatePath(pwd, exists_) ==
      if exists_(PathJoin(pwd, "formation.yaml")) then Some(PathJoin(pwd, "formation.yaml"))
      else if exists_(PathJoin(pwd, "formation.yml")) then Some(PathJoin(pwd, "formation.yml"))
      else if exists_(PathJoin(pwd, "formation.json")) then Some(PathJoin(pwd, "formation.json"))
      else None
  {
    var names := FormationFilenames;
    assert names[1..] == ["formation.yml", "formation.json"];
    assert names[1..][1..] == ["formation.json"];
    assert names[1..][1..][1..] == [];
  }

  /** `filename.indexOf(pat) !== -1` */
  predicate Contains(s: string, pat: string) {
    exists i :: 0 <= i <= |s| && MatchesAt(s, pat, i)
  }

  predicate MatchesAt(s: string, pat: string, i: int) {
    0 <= i && i + |pat| <= |s| && s[i..i + |pat|] == pat
  }

  /** The private keys: the files of the working directory whose name contains `.pem`. */
  function Pems(files: seq<string>): (r: seq<string>)
    ensures forall f :: f in r <==> f in files && Contains(f, ".pem")
    decreases |files|
  {
    if files == [] then []
    else
      var rest := Pems(files[1..]);
      assert files == [files[0]] + files[1..];
      if Contains(files[0], ".pem") then [files[0]] + rest else rest
  }

  /** The warning is shown when the formation declares machines but no key is found. */
  predicate MissingKeyWarning(machines: seq<Value>, files: seq<string>) {
    |machines| > 0 && |Pems(files)| == 0
  }

  /** The warning appears exactly when there are machines and no file name contains `.pem`. */
  lemma MissingKeyWarningIff(machines: seq<Value>, files: seq<string>)
    ensures MissingKeyWarning(machines, files) <==> machines != [] && forall f :: f in files ==> !Contains(f, ".pem")
  {
    if |Pems(files)| != 0 {
      assert Pems(files)[0] in Pems(files);
    }
  }

  // ---------------------------------------------------------------------------
  // Colours

  datatype Color = Blue | Green | Red | Yellow | Magenta

  /** `colors` */
  const Rotation: seq<Color> := [Blue, Green, Red, Yellow, Magenta]

  /** The colours `colorMap` starts with. */
  const Presets: map<string, Color> := map["true" := Green, "false" := Red, "ACTIVE" := Green, "DRAINING" := Red]

  /** JavaScript's `\s`, the characters `_.trim` strips. */
  const WhitespaceChars: set<char> :=
    {' ', '\t', '\n', '\r', '\U{B}', '\U{C}', '\U{A0}', '\U{1680}', '\U{2000}', '\U{2001}', '\U{2002}', '\U{2003}',
     '\U{2004}', '\U{2005}', '\U{2006}', '\U{2007}', '\U{2008}', '\U{2009}', '\U{200A}', '\U{2028}', '\U{2029}',
     '\U{202F}', '\U{205F}', '\U{3000}', '\U{FEFF}'}

  predicate Whitespace(c: char) {
    c in WhitespaceChars
  }

  /** `_.trim(value)`, the key a colourised value is filed under. */
  function ColourKey(v: Value): string {
    TrimWhere(LodashStr(v), Whitespace)
  }

  /** `colorIndex` and `colorMap` between two cells. */
  datatype Palette = Palette(index: nat, colours: map<string, Color>)

  const Initial: Palette := Palette(0, Presets)

  /** `colorMap[key] || colors[++colorIndex % colors.length]`, then `colorMap[key] = color`. */
  function Paint(p: Palette, key: string): (r: (Color, Palette))
    ensures r.1.colours == p.colours[key := r.0]
    ensures key in p.colours ==> r == (p.colours[key], p)
    ensures key !in p.colours ==> r.0 == Rotation[(p.index + 1) % 5] && r.1.index == p.index + 1
  {
    if key in p.colours then (p.colours[key], p)
    else
      var i := p.index + 1;
      (Rotation[i % 5], Palette(i, p.colours[key := Rotation[i % 5]]))
  }

  /** The first value without a preset colour is green, the next new one red. */
  lemma FirstNewColours(a: string, b: string)
    requires a !in Presets && b !in Presets && a != b
    ensures Paint(Initial, a).0 == Green
    ensures Paint(Paint(Initial, a).1, b).0 == Red
  {
  }

  // ---------------------------------------------------------------------------
  // The body
  //
  // The body is specified for any function `key` that files a cell's value under
  // a name; `print` files values under `_.trim(value)`, `ColourKey`.

  /** One printed cell: its text and, in a colourised column, its colour. */
  datatype Painted = Painted(text: string, colour: Option<Color>)

  /** The value a cell holds after `_.mapValues` padded the row: its text padded
      to the column width, or undefined when the row lacks the column. */
  function Padded(row: seq<Prop>, name: string, lengths: map<string, nat>): Value {
    match Lookup(row, name)
    case None => Undefined
    case Some(v) => Str(PadEnd(ToStr(v), WidthOf(lengths, name)))
  }

  function Text(row: seq<Prop>, column: Column, lengths: map<string, nat>): string {
    column.transform(Padded(row, column.name, lengths))
  }

  /** One cell, and the palette after it: only a colourised column consults the palette. */
  function CellStep(q: Palette, row: seq<Prop>, c: Column, lengths: map<string, nat>, key: Value -> string): (r: (Painted, Palette))
    ensures r.0.text == Text(row, c, lengths) && (r.0.colour.Some? <==> c.colorize)
  {
    if c.colorize then
      var (colour, q') := Paint(q, key(Padded(row, c.name, lengths)));
      (Painted(Text(row, c, lengths), Some(colour)), q')
    else (Painted(Text(row, c, lengths), None), q)
  }

  /** The cells of one row, and the palette after them. */
  function RowOut(p: Palette, row: seq<Prop>, columns: seq<Column>, lengths: map<string, nat>, key: Value -> string)
    : (r: (seq<Painted>, Palette))
    ensures |r.0| == |columns|
    ensures forall j :: 0 <= j < |columns| ==>
      r.0[j].text == Text(row, columns[j], lengths) && (r.0[j].colour.Some? <==> columns[j].colorize)
    decreases |columns|
  {
    if columns == [] then ([], p)
    else
      var init := columns[..|columns| - 1];
      var (cells, q) := RowOut(p, row, init, lengths, key);
      assert forall j :: 0 <= j < |init| ==> init[j] == columns[j];
      var (cell, q') := CellStep(q, row, columns[|columns| - 1], lengths, key);
      (cells + [cell], q')
  }

  /** The cells of every row, and the palette after them. */
  function BodyOut(p: Palette, rows: seq<seq<Prop>>, columns: seq<Column>, lengths: map<string, nat>, key: Value -> string)
    : (r: (seq<seq<Painted>>, Palette))
    ensures |r.0| == |rows|
    ensures forall i :: 0 <= i < |rows| ==> |r.0[i]| == |columns|
    ensures forall i, j :: 0 <= i < |rows| && 0 <= j < |columns| ==>
      r.0[i][j].text == Text(rows[i], columns[j], lengths) && (r.0[i][j].colour.Some? <==> columns[j].colorize)
    decreases |rows|
  {
    if rows == [] then ([], p)
    else
      var init := rows[..|rows| - 1];
      var (cells, q) := BodyOut(p, init, columns, lengths, key);
      assert forall i :: 0 <= i < |init| ==> init[i] == rows[i];
      var (row, q') := RowOut(q, rows[|rows| - 1], columns, lengths, key);
      (cells + [row], q')
  }

  lemma RowOutPrefix(p: Palette, row: seq<Prop>, columns: seq<Column>, lengths: map<string, nat>, key: Value -> string, j: nat)
    requires j < |columns|
    ensures RowOut(p, row, columns[..j + 1], lengths, key) ==
      var r := RowOut(p, row, columns[..j], lengths, key);
      (r.0 + [CellStep(r.1, row, columns[j], lengths, key).0], CellStep(r.1, row, columns[j], lengths, key).1)
  {
    assert columns[..j + 1][..j] == columns[..j];
  }

  lemma BodyOutPrefix(p: Palette, rows: seq<seq<Prop>>, columns: seq<Column>, lengths: map<string, nat>, key: Value -> string, i: nat)
    requires i < |rows|
    ensures BodyOut(p, rows[..i + 1], columns, lengths, key) ==
      var r := BodyOut(p, rows[..i], columns, lengths, key);
      (r.0 + [RowOut(r.1, rows[i], columns, lengths, key).0], RowOut(r.1, rows[i], columns, lengths, key).1)
  {
    assert rows[..i + 1][..i] == rows[..i];
  }

  /** The cells of one row; `colorIndex` and `colorMap` come in from the cells
      before it and go out to the cells after it. */
  method RowCells(row: seq<Prop>, columns: seq<Column>, lengths: map<string, nat>, key: Value -> string,
                  colorIndex0: nat, colorMap0: map<string, Color>)
    returns (cells: seq<Painted>, colorIndex: nat, colorMap: map<string, Color>)
    ensures (cells, Palette(colorIndex, colorMap)) == RowOut(Palette(colorIndex0, colorMap0), row, columns, lengths, key)
  {
    colorIndex, colorMap := colorIndex0, colorMap0;
    cells := [];
    var j := 0;
    while j < |columns|
      invariant 0 <= j <= |columns|
      invariant (cells, Palette(colorIndex, colorMap)) == RowOut(Palette(colorIndex0, colorMap0), row, columns[..j], lengths, key)
    {
      ghost var before := Palette(colorIndex, colorMap);
      var opt := columns[j];
      var value := Padded(row, opt.name, lengths);
      var text := opt.transform(value);
      if !opt.colorize {
        cells := cells + [Painted(text, None)];
      } else {
        var mapValue := key(value);
        var color;
        if mapValue in colorMap {
          color := colorMap[mapValue];
        } else {
          colorIndex := colorIndex + 1;
          color := Rotation[colorIndex % 5];
        }
        colorMap := colorMap[mapValue := color];
        assert (color, Palette(colorIndex, colorMap)) == Paint(before, mapValue);
        cells := cells + [Painted(text, Some(color))];
      }
      assert (cells, Palette(colorIndex, colorMap)) ==
        (RowOut(Palette(colorIndex0, colorMap0), row, columns[..j], lengths, key).0 + [CellStep(before, row, columns[j], lengths, key).0],
         CellStep(before, row, columns[j], lengths, key).1);
      RowOutPrefix(Palette(colorIndex0, colorMap0), row, columns, lengths, key, j);
      j := j + 1;
    }
    assert columns[..j] == columns;
  }

  /** The cells of the table body, colourised left to right, top to bottom. */
  method Body(rows: seq<seq<Prop>>, columns: seq<Column>, lengths: map<string, nat>, key: Value -> string)
    returns (cells: seq<seq<Painted>>)
    ensures cells == BodyOut(Initial, rows, columns, lengths, key).0
  {
    var colorIndex := 0;
    var colorMap := Presets;
    cells := [];
    var i := 0;
    while i < |rows|
      invariant 0 <= i <= |rows|
      invariant (cells, Palette(colorIndex, colorMap)) == BodyOut(Initial, rows[..i], columns, lengths, key)
    {
      var row;
      row, colorIndex, colorMap := RowCells(rows[i], columns, lengths, key, colorIndex, colorMap);
      BodyOutPrefix(Initial, rows, columns, lengths, key, i);
      cells := cells + [row];
      i := i + 1;
    }
    assert rows[..i] == rows;
  }

  /** `q` remembers every colour `p` had given. */
  predicate Remembers(p: map<string, Color>, q: map<string, Color>) {
    forall k :: k in p ==> k in q && q[k] == p[k]
  }

  /** The colour of every colourised cell of a row is the one filed under its value. */
  predicate Filed(row: seq<Prop>, columns: seq<Column>, lengths: map<string, nat>, key: Value -> string,
                  cells: seq<Painted>, colours: map<string, Color>)
    requires |cells| == |columns|
  {
    forall j :: 0 <= j < |columns| && columns[j].colorize ==>
      key(Padded(row, columns[j].name, lengths)) in colours &&
      Some(colours[key(Padded(row, columns[j].name, lengths))]) == cells[j].colour
  }

  /** Painting keeps every colour given before and files the one it gives. */
  lemma PaintRemembers(p: Palette, k: string)
    ensures Remembers(p.colours, Paint(p, k).1.colours)
    ensures k in Paint(p, k).1.colours && Paint(p, k).1.colours[k] == Paint(p, k).0
  {
  }

  /** After a row every colourised cell's colour is the one filed under its value,
      and no earlier colour changed. */
  lemma {:induction false} RowColoursFiled(p: Palette, row: seq<Prop>, columns: seq<Column>, lengths: map<string, nat>,
                                           key: Value -> string)
    ensures Remembers(p.colours, RowOut(p, row, columns, lengths, key).1.colours)
    ensures Filed(row, columns, lengths, key, RowOut(p, row, columns, lengths, key).0, RowOut(p, row, columns, lengths, key).1.colours)
    decreases |columns|
  {
    if columns != [] {
      var n := |columns| - 1;
      var init := columns[..n];
      RowColoursFiled(p, row, init, lengths, key);
      var r := RowOut(p, row, init, lengths, key);
      var c := columns[n];
      var (cell, q) := CellStep(r.1, row, c, lengths, key);
      assert RowOut(p, row, columns, lengths, key) == (r.0 + [cell], q);
      if c.colorize {
        PaintRemembers(r.1, key(Padded(row, c.name, lengths)));
      }
      assert Remembers(r.1.colours, q.colours);
      forall j | 0 <= j < |columns| && columns[j].colorize
        ensures key(Padded(row, columns[j].name, lengths)) in q.colours &&
                Some(q.colours[key(Padded(row, columns[j].name, lengths))]) == (r.0 + [cell])[j].colour
      {
        if j < n {
          assert init[j] == columns[j];
        }
      }
    }
  }

  /** After the body every colourised cell's colour is the one filed under its
      value, and no colour given before changed. */
  lemma {:induction false} BodyColoursFiled(p: Palette, rows: seq<seq<Prop>>, columns: seq<Column>, lengths: map<string, nat>,
                                            key: Value -> string)
    ensures Remembers(p.colours, BodyOut(p, rows, columns, lengths, key).1.colours)
    ensures forall i :: 0 <= i < |rows| ==>
      Filed(rows[i], columns, lengths, key, BodyOut(p, rows, columns, lengths, key).0[i], BodyOut(p, rows, columns, lengths, key).1.colours)
    decreases |rows|
  {
    if rows != [] {
      var n := |rows| - 1;
      var init := rows[..n];
      BodyColoursFiled(p, init, columns, lengths, key);
      var b := BodyOut(p, init, columns, lengths, key);
      RowColoursFiled(b.1, rows[n], columns, lengths, key);
      var r := RowOut(b.1, rows[n], columns, lengths, key);
      assert BodyOut(p, rows, columns, lengths, key) == (b.0 + [r.0], r.1);
      var out := b.0 + [r.0];
      forall i | 0 <= i < |rows|
        ensures Filed(rows[i], columns, lengths, key, out[i], r.1.colours)
      {
        if i < n {
          assert init[i] == rows[i];
          assert out[i] == b.0[i];
          FiledKept(rows[i], columns, lengths, key, b.0[i], b.1.colours, r.1.colours);
        } else {
          assert out[i] == r.0;
        }
      }
    }
  }

  /** A row filed against a palette stays filed once more colours are given. */
  lemma FiledKept(row: seq<Prop>, columns: seq<Column>, lengths: map<string, nat>, key: Value -> string,
                  cells: seq<Painted>, before: map<string, Color>, after: map<string, Color>)
    requires |cells| == |columns|
    requires Filed(row, columns, lengths, key, cells, before) && Remembers(before, after)
    ensures Filed(row, columns, lengths, key, cells, after)
  {
  }

  /** Two colourised cells whose values are filed under the same name have the same
      colour, and the names `true`, `false`, `ACTIVE` and `DRAINING` keep their
      preset colours. */
  lemma ColoursConsistent(rows: seq<seq<Prop>>, columns: seq<Column>, lengths: map<string, nat>, key: Value -> string,
                          i: nat, j: nat, i': nat, j': nat)
    requires i < |rows| && i' < |rows| && j < |columns| && j' < |columns|
    requires columns[j].colorize && columns[j'].colorize
    ensures key(Padded(rows[i], columns[j].name, lengths)) == key(Padded(rows[i'], columns[j'].name, lengths)) ==>
      BodyOut(Initial, rows, columns, lengths, key).0[i][j].colour == BodyOut(Initial, rows, columns, lengths, key).0[i'][j'].colour
    ensures key(Padded(rows[i], columns[j].name, lengths)) in Presets ==>
      BodyOut(Initial, rows, columns, lengths, key).0[i][j].colour == Some(Presets[key(Padded(rows[i], columns[j].name, lengths))])
  {
    BodyColoursFiled(Initial, rows, columns, lengths, key);
    var b := BodyOut(Initial, rows, columns, lengths, key);
    assert Filed(rows[i], columns, lengths, key, b.0[i], b.1.colours);
    assert Filed(rows[i'], columns, lengths, key, b.0[i'], b.1.colours);
  }

  /** Every cell holding a value is padded to exactly its column's width, the width
      of the header cell above it. */
  lemma CellsAligned(data: Value, options: Options, i: nat, j: nat)
    requires i < |Rows(data, Columns(options))| && j < |Columns(options)|
    requires Lookup(Rows(data, Columns(options))[i], Columns(options)[j].name).Some?
    ensures |Padded(Rows(data, Columns(options))[i], Columns(options)[j].name, Widths(Columns(options), Rows(data, Columns(options)))).s| ==
      |HeaderCells(Columns(options), Widths(Columns(options), Rows(data, Columns(options))))[j]|
  {
    var columns := Columns(options);
    var rows := Rows(data, columns);
    assert columns[j].name == Names(columns)[j];
    assert WidthOf(Widths(columns, rows), columns[j].name) == Width(columns[j].name, rows);
    WidthBounds(columns[j].name, rows);
  }

  // ---------------------------------------------------------------------------
  // print

  /** What `print` writes: the header line and the colourised cells of the body,
      row by row. */
  datatype Printed = Printed(header: string, body: seq<seq<Painted>>)

  method Print(data: Value, options: Options) returns (t: Printed)
    ensures t.header == Header(Columns(options), Widths(Columns(options), Rows(data, Columns(options))))
    ensures t.body == BodyOut(Initial, Rows(data, Columns(options)), Columns(options),
                              Widths(Columns(options), Rows(data, Columns(options))), ColourKey).0
  {
    var columns := Columns(options);
    var rows := Rows(data, columns);
    var columnLengths := ColumnWidths(columns, rows);
    var header := Header(columns, columnLengths);
    var body := Body(rows, columns, columnLengths, ColourKey);
    t := Printed(header, body);
  }
}
