/** The command installer: the default formation file name, the modules that
    register the commands, and the plain `print` they are given. */
module Cmds {
  import opened Js
  import opened Table

  // ---------------------------------------------------------------------------
  // DEFAULT_FORMATION

  const DefaultFormationVar := "DEFAULT_FORMATION"
  const DefaultFormationFile := "formation.json"

  /** `process.env.DEFAULT_FORMATION = process.env.DEFAULT_FORMATION || 'formation.json'` */
  function WithDefaultFormation(env: map<string, string>): (r: map<string, string>)
    ensures r.Keys == env.Keys + {DefaultFormationVar}
    ensures r[DefaultFormationVar] ==
      if DefaultFormationVar in env && env[DefaultFormationVar] != "" then env[DefaultFormationVar] else DefaultFormationFile
    ensures forall k :: k in env && k != DefaultFormationVar ==> r[k] == env[k]
  {
    if DefaultFormationVar in env && env[DefaultFormationVar] != "" then env
    else env[DefaultFormationVar := DefaultFormationFile]
  }

  /** A set, non-empty value is kept, so installing twice changes nothing more. */
  lemma DefaultFormationIdempotent(env: map<string, string>)
    ensures WithDefaultFormation(WithDefaultFormation(env)) == WithDefaultFormation(env)
  {
    var once := WithDefaultFormation(env);
    assert once[DefaultFormationVar] != "";
  }

  // ---------------------------------------------------------------------------
  // The installer

  /** Which `print` a command module is handed. */
  datatype Printer = ColourPrint | PlainPrint

  /** A command module called with `(vorpal, print, formation)`. */
  datatype Installed = Installed(command: string, printer: Printer, formation: Value)

  /** The command modules whose installer reads the formation argument. */
  const FormationCommands: seq<string> := ["deploy", "run", "services", "status", "task", "terminate"]

  /** The installer as written: every module gets this file's plain `print` and no
      formation, whatever the caller passed. */
  function InstallAsWritten(commands: seq<string>, printer: Printer, formation: Value): (r: seq<Installed>)
    ensures |r| == |commands|
    ensures forall i :: 0 <= i < |r| ==> r[i] == Installed(commands[i], PlainPrint, Undefined)
  {
    seq(|commands|, i requires 0 <= i < |commands| => Installed(commands[i], PlainPrint, Undefined))
  }

  /** The command line installs the commands with its colourising `print` and the
      loaded formation; as written, the `run` command receives `undefined` instead. */
  lemma InstallerDropsFormation(formation: Value)
    requires formation.Obj?
    ensures InstallAsWritten(FormationCommands, ColourPrint, formation)[1] == Installed("run", PlainPrint, Undefined)
    ensures InstallAsWritten(FormationCommands, ColourPrint, formation)[1].formation != formation
  {
  }

  /** The installer as intended: every module gets the caller's `print` and formation. */
  function Install(commands: seq<string>, printer: Printer, formation: Value): (r: seq<Installed>)
    ensures |r| == |commands|
    ensures forall i :: 0 <= i < |r| ==> r[i].command == commands[i]
  {
    seq(|commands|, i requires 0 <= i < |commands| => Installed(commands[i], printer, formation))
  }

  /** Every module, in order, receives exactly what the caller passed, so a module
      that reads the formation sees the loaded one. */
  lemma InstallPassesThrough(commands: seq<string>, printer: Printer, formation: Value)
    ensures forall i :: 0 <= i < |commands| ==>
      Install(commands, printer, formation)[i].printer == printer && Install(commands, printer, formation)[i].formation == formation
    ensures forall c :: c in FormationCommands && c in commands ==>
      (exists i :: 0 <= i < |commands| && Install(commands, printer, formation)[i] == Installed(c, printer, formation))
  {
    forall c | c in FormationCommands && c in commands
      ensures exists i :: 0 <= i < |commands| && Install(commands, printer, formation)[i] == Installed(c, printer, formation)
    {
      var i :| 0 <= i < |commands| && commands[i] == c;
      assert Install(commands, printer, formation)[i] == Installed(c, printer, formation);
    }
  }

  // ---------------------------------------------------------------------------
  // The plain print

  /** A cell after `_.padEnd(value, width)`: lodash renders null and undefined as
      '' and keeps 'null' inside arrays; undefined when the row lacks the column. */
  function PlainPadded(row: seq<Prop>, name: string, lengths: map<string, nat>): Value {
    match Lookup(row, name)
    case None => Undefined
    case Some(v) => Str(PadEnd(LodashStr(v), WidthOf(lengths, name)))
  }

  function PlainLine(row: seq<Prop>, columns: seq<Column>, lengths: map<string, nat>): string {
    Join(seq(|columns|, j requires 0 <= j < |columns| => columns[j].transform(PlainPadded(row, columns[j].name, lengths))), " ")
  }

  function PlainBody(rows: seq<seq<Prop>>, columns: seq<Column>, lengths: map<string, nat>): string {
    Join(seq(|rows|, i requires 0 <= i < |rows| => PlainLine(rows[i], columns, lengths)), "\n")
  }

  /** `print(data, _options)`: the header line and the body text. */
  method Print(data: Value, options: Options) returns (header: string, body: string)
    ensures header == Header(Columns(options), Widths(Columns(options), Rows(data, Columns(options))))
    ensures body == PlainBody(Rows(data, Columns(options)), Columns(options), Widths(Columns(options), Rows(data, Columns(options))))
  {
    var columns := Columns(options);
    var rows := Rows(data, columns);
    var columnLengths := ColumnWidths(columns, rows);
    header := Header(columns, columnLengths);
    body := PlainBody(rows, columns, columnLengths);
  }

  /** A string, number or boolean cell is padded to exactly its column's width, and
      a null or undefined value to a blank cell of that width. */
  lemma PlainScalarsAligned(rows: seq<seq<Prop>>, columns: seq<Column>, i: nat, j: nat)
    requires i < |rows| && j < |columns|
    requires Lookup(rows[i], columns[j].name).Some?
    requires var v := Lookup(rows[i], columns[j].name).value; v.Str? || v.Num? || v.Bool? || v.Null? || v.Undefined?
    ensures |PlainPadded(rows[i], columns[j].name, Widths(columns, rows)).s| == Width(columns[j].name, rows)
    ensures Lookup(rows[i], columns[j].name).value.Null? || Lookup(rows[i], columns[j].name).value.Undefined? ==>
      PlainPadded(rows[i], columns[j].name, Widths(columns, rows)).s == Spaces(Width(columns[j].name, rows))
  {
    var name := columns[j].name;
    assert name == Names(columns)[j];
    assert WidthOf(Widths(columns, rows), name) == Width(name, rows);
    WidthBounds(name, rows);
    assert CellLength(rows[i], name) <= Width(name, rows);
  }

  /** The width counts `` `${[null]}` ``, which is empty, but lodash pads the text
      'null': the cell is wider than its column and its header. */
  lemma ArrayWithNullOverflows()
    ensures var rows := [[Prop("ab", Arr([Null]))]];
            var columns := [Column("ab", Stringify(), false)];
            Width("ab", rows) == 2 &&
            PlainPadded(rows[0], "ab", Widths(columns, rows)) == Str("null")
  {
    var rows := [[Prop("ab", Arr([Null]))]];
    var columns := [Column("ab", Stringify(), false)];
    assert ToStr(Arr([Null])) == "";
    assert CellLength(rows[0], "ab") == 0;
    assert Width("ab", rows[..0]) == 2;
    assert Width("ab", rows) == 2;
    assert Names(columns)[0] == "ab";
    assert LodashStr(Arr([Null])) == "null";
  }
}
