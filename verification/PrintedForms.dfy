/** A generated module as the reader sees it: the syntax the emitters print
    (python/sdpstudio_codegen/python_backend.py), and what reading each printed operator does to its
    configuration. */
module PrintedForms {
  import opened Sorting
  import opened Documents
  import opened Graph
  import opened Validation
  import opened PythonNames
  import opened PythonProgram
  import opened SourceMap
  import opened PythonBackend
  import opened Reconcile

  /** How an operator is printed, as far as the reader can tell: the first six carry literals that it reads
      back; it also reads the next eight; WithColumn, Passed and Masked, the filter of a split, it passes over;
      Variable is no attribute call; UserCode is code of the user. */
  datatype Form =
    | FromTable
    | Filtered
    | Selected
    | Derived
    | Dropped
    | Limited
    | Referenced
    | Renamed
    | Deduplicated
    | Reordered
    | Flattened
    | WithoutDuplicates
    | EventDeduplicated
    | Posexploded
    | WithColumn(inner: string)
    | Passed(attr: string)
    | Masked
    | Variable
    | UserCode

  function SourceForm(op: string): Form {
    match op
    case "table" => FromTable
    case "dataset_reference" => Referenced
    case "sql_query" => Passed("sql")
    case "custom_pyspark" => UserCode
    case _ => Passed("load")
  }

  function TransformForm(op: string): Form {
    match op
    case "filter" => Filtered
    case "select" => Selected
    case "derive" => Derived
    case "drop" => Dropped
    case "limit" => Limited
    case "rename" => Renamed
    case "distinct" => Deduplicated
    case "reorder" => Reordered
    case "flatten_struct" => Flattened
    case "drop_duplicates" => WithoutDuplicates
    case "deduplicate_event_time" => EventDeduplicated
    case "posexplode" => Posexploded
    case "pyspark_block" => UserCode
    case "sql_project" => Passed("selectExpr")
    case "fill_nulls" => Passed("fillna")
    case "drop_nulls" => Passed("dropna")
    case "sort" => Passed("sort")
    case "repartition" => Passed("repartition")
    case "coalesce" => Passed("coalesce")
    case "watermark" => Passed("withWatermark")
    case "aggregate" => Passed("agg")
    case "cast" => WithColumn("cast")
    case "explode" => WithColumn("explode")
    case "json_parse" => WithColumn("from_json")
    case "window" => WithColumn("over")
    case "build_struct" => WithColumn("struct")
    case "build_map" => WithColumn("create_map")
    case "build_array" => WithColumn("array")
    case _ => WithColumn("otherwise")
  }

  function FormOf(kind: Kind): Form {
    match kind
    case Source(op) => SourceForm(op)
    case ComponentInput => Referenced
    case Transform(op) => TransformForm(op)
    case Combine(op) => Passed(op)
    case Split => Masked
    case _ => Variable
  }

  predicate LiteralForm(form: Form) {
    form.FromTable? || form.Filtered? || form.Selected? || form.Derived? || form.Dropped? || form.Limited?
  }

  /** The operators whose literals the reader recovers. */
  predicate Literal(kind: Kind) { LiteralForm(FormOf(kind)) }

  predicate TextAt(config: Config, key: string) { key in config && config[key].Str? }

  predicate TextItems(items: seq<Json>) { forall i :: 0 <= i < |items| ==> items[i].Str? }

  predicate TextsAt(config: Config, key: string) { key in config && config[key].List? && TextItems(config[key].items) }

  predicate TextValues(fields: map<string, Json>) { forall k :: k in fields ==> fields[k].Str? }

  /** The fields that are printed have the types the operators document. */
  predicate Typed(form: Form, config: Config) {
    match form
    case FromTable => TextAt(config, "table")
    case Filtered => TextAt(config, "expression")
    case Derived => TextAt(config, "name") && TextAt(config, "expression")
    case Limited => "count" in config && config["count"].Int?
    case Selected => TextsAt(config, "columns")
    case Dropped => TextsAt(config, "columns")
    case Reordered => TextsAt(config, "columns")
    case Referenced => TextAt(config, "name")
    case Renamed => "mapping" in config && config["mapping"].Dict? && TextValues(config["mapping"].fields)
    case Flattened => TextAt(config, "column")
    case WithoutDuplicates => "columns" in config ==> TextsAt(config, "columns")
    case EventDeduplicated =>
      && TextsAt(config, "columns") && config["columns"].items != [] && TextAt(config, "eventTime")
      && ("watermark" in config ==> TextAt(config, "watermark"))
    case Posexploded => TextAt(config, "target")
    case UserCode => false
    case _ => true
  }

  // ---- Printing ----

  /** How custom code is printed, and operators whose fields have other types than documented. */
  type Printer = Expr -> Py

  function SqlText(v: Json): Py { Call(OtherPy, ExprCall, [Const(v)]) }

  function SelectArg(c: Json): Py { if c == Str("*") then Const(c) else SqlText(c) }

  function SelectArgs(items: seq<Json>): seq<Py> { seq(|items|, i requires 0 <= i < |items| => SelectArg(items[i])) }

  function ConstArgs(items: seq<Json>): seq<Py> { seq(|items|, i requires 0 <= i < |items| => Const(items[i])) }

  function LimitArg(v: Json): Py { if v.Int? && v.n >= 0 then Const(v) else OtherPy }

  function ItemsOr(items: seq<Json>, default: seq<Json>): seq<Json> { if items == [] then default else items }

  /** The last call of a rename is for the last of the sorted names. */
  function LastKey(fields: map<string, Json>): string
    requires fields != map[]
    ensures LastKey(fields) in fields
  {
    var keys := SortedKeys(fields.Keys);
    assert |fields.Keys| == |fields|;
    assert keys[|keys| - 1] in keys;
    keys[|keys| - 1]
  }

  lemma {:induction false} LastIsGreatest(s: set<string>)
    requires s != {}
    ensures SortedKeys(s) != [] && forall x :: x in s ==> TextLeq(x, SortedKeys(s)[|SortedKeys(s)| - 1])
  {
    var least := Least(s);
    var rest := s - {least};
    TextTotal(least, least);
    if rest != {} {
      LastIsGreatest(rest);
      var keys := SortedKeys(rest);
      assert keys[|keys| - 1] in keys;
    }
  }

  /** The reader sees the renaming of the greatest name. */
  lemma LastKeyIsGreatest(fields: map<string, Json>)
    requires fields != map[]
    ensures forall x :: x in fields ==> TextLeq(x, LastKey(fields))
  {
    assert |fields.Keys| == |fields|;
    LastIsGreatest(fields.Keys);
  }

  function RenameCall(fields: map<string, Json>): Py {
    if fields == map[] then OtherPy else Call(OtherPy, RenamedCall, [Const(Str(LastKey(fields))), Const(fields[LastKey(fields)])])
  }

  function DuplicatesArgs(config: Config): seq<Py>
    requires "columns" in config ==> TextsAt(config, "columns")
  {
    if "columns" in config && config["columns"].items != [] then [PyList(ConstArgs(config["columns"].items))] else []
  }

  const WATERMARK := Str("10 minutes")

  /** The expression printed for an operator; the receiver is shown only where the reader looks at it. */
  function FormCall(form: Form, config: Config): Py
    requires Typed(form, config)
  {
    match form
    case FromTable => Call(OtherPy, TableCall, [Const(config["table"])])
    case Filtered => Call(OtherPy, FilterCall, [SqlText(config["expression"])])
    case Selected => Call(OtherPy, SelectCall, SelectArgs(ItemsOr(config["columns"].items, [Str("*")])))
    case Derived => Call(OtherPy, WithColumnCall, [Const(config["name"]), SqlText(config["expression"])])
    case Dropped => Call(OtherPy, DropCall, ConstArgs(config["columns"].items))
    case Limited => Call(OtherPy, LimitCall, [LimitArg(config["count"])])
    case Referenced => Call(OtherPy, TableCall, [Const(config["name"])])
    case Renamed => RenameCall(config["mapping"].fields)
    case Deduplicated => Call(OtherPy, DistinctCall, [])
    case Reordered => Call(OtherPy, SelectCall, ConstArgs(config["columns"].items))
    case Flattened => Call(Call(OtherPy, SelectCall, [OtherPy]), DropCall, [Const(config["column"])])
    case WithoutDuplicates => Call(OtherPy, DropDuplicatesCall, DuplicatesArgs(config))
    case EventDeduplicated =>
      var watermark := if "watermark" in config then config["watermark"] else WATERMARK;
      Call(Call(OtherPy, WatermarkCall, [Const(config["eventTime"]), Const(watermark)]), DropDuplicatesCall,
           [PyList(ConstArgs(config["columns"].items))])
    case Posexploded => Call(OtherPy, RenamedCall, [Const(Str("col")), Const(config["target"])])
    case WithColumn(inner) => Call(OtherPy, WithColumnCall, [OtherPy, Call(OtherPy, OtherCall(inner), [])])
    case Passed(attr) => Call(OtherPy, OtherCall(attr), [])
    case Masked => Call(OtherPy, FilterCall, [OtherPy])
    case _ => OtherPy
  }

  function PrintedCall(kind: Kind, config: Config, expr: Expr, other: Printer): Py {
    if Typed(FormOf(kind), config) then FormCall(FormOf(kind), config) else other(expr)
  }

  function PyOf(expr: Expr, other: Printer): Py {
    match expr
    case Read(kind, config) => PrintedCall(kind, config, expr, other)
    case Table(name, _) => Call(OtherPy, TableCall, [Const(Str(name))])
    case Apply(kind, config, _, _) => PrintedCall(kind, config, expr, other)
    case Copy(_) => OtherPy
  }

  function StatementOf(line: Line, other: Printer): seq<Statement> {
    match line
    case Assign(v, expr, check) => [Assigns(v, if check.Some? then PlainCall([]) else PyOf(expr, other))]
    case CapturePlan(_, _) => [Capture]
    case Return(_) => [Returns]
    case CheckAppend(_) => [OtherStatement]
    case RaiseEmpty => [OtherStatement]
    case _ => []
  }

  function Statements(lines: seq<Line>, other: Printer): seq<Statement> {
    if lines == [] then [] else Statements(lines[..|lines| - 1], other) + StatementOf(lines[|lines| - 1], other)
  }

  function TextOf(items: seq<Json>): seq<string>
    requires TextItems(items)
  {
    seq(|items|, i requires 0 <= i < |items| => items[i].s)
  }

  /** The keys of a CDC flow as far as the decorator shows literal texts; no keys print an empty list. */
  function KeysOf(config: Config): Option<seq<string>> {
    if !Flag(config, "keys") then Some([])
    else if TextsAt(config, "keys") then Some(TextOf(config["keys"].items))
    else None
  }

  function HeadDecorator(n: Node): PyDecorator {
    var name := TextField(n.config, "name", "dataset");
    if n.kind.Sink? then PyDecorator(true, "append_flow", None, Some(name), None, None)
    else if n.kind == Dataset("auto_cdc_scd1") then
      PyDecorator(true, DecoratorName(n.kind), None, Some(name), KeysOf(n.config),
                  if TextAt(n.config, "sequence_by") then Some(n.config["sequence_by"].s) else None)
    else PyDecorator(true, DecoratorName(n.kind), None, None, None, None)
  }

  ghost function FunctionOf(d: Document, def: Definition, other: Printer): PyFunction
    requires def.node in d.Ids()
  {
    var n := d.At(def.node);
    PyFunction(FunctionName(n.kind.Sink?, OutputName(n)), [HeadDecorator(n)], Statements(DefinitionText(def), other))
  }

  ghost function FunctionsOf(d: Document, defs: seq<Definition>, other: Printer): seq<PyFunction> {
    if defs == [] then []
    else
      var def := defs[|defs| - 1];
      FunctionsOf(d, defs[..|defs| - 1], other) + (if def.node in d.Ids() then [FunctionOf(d, def, other)] else [])
  }

  // ---- Reading literals back ----

  function LiteralFields(form: Form): set<string>
    requires LiteralForm(form)
  {
    match form
    case FromTable => {"table"}
    case Filtered => {"expression"}
    case Derived => {"name", "expression"}
    case Limited => {"count"}
    case _ => {"columns"}
  }

  ghost predicate SameOutside(fields: set<string>, c: Config, c': Config) {
    forall k :: k !in fields ==> (k in c <==> k in c') && (k in c && k in c' ==> c[k] == c'[k])
  }

  /** The literals that survive printing and reading: column lists that are not empty, counts that
      are not negative. */
  predicate Recoverable(form: Form, config: Config)
    requires LiteralForm(form) && Typed(form, config)
  {
    match form
    case Selected => config["columns"].items != []
    case Dropped => config["columns"].items != []
    case Limited => config["count"].n >= 0
    case _ => true
  }

  lemma SelectReads(items: seq<Json>)
    requires items != [] && TextItems(items)
    ensures var args := SelectArgs(items);
            Spread(args) == args && AllColumns(args) && Columns(args) == items
  {
    var args := SelectArgs(items);
    assert args[0] == SelectArg(items[0]) && !args[0].PyList?;
    forall i | 0 <= i < |items| ensures IsColumn(args[i]) { assert args[i] == SelectArg(items[i]); }
    forall i | 0 <= i < |items| ensures Columns(args)[i] == items[i] { assert args[i] == SelectArg(items[i]); }
  }

  lemma ConstsRead(items: seq<Json>)
    requires TextItems(items)
    ensures var args := ConstArgs(items);
            && |args| == |items| && AllTexts(args) && Texts(args) == items
            && Spread(args) == args && AllColumns(args) && Columns(args) == items && Spread([PyList(args)]) == args
  {
    var args := ConstArgs(items);
    forall i | 0 <= i < |items| ensures IsText(args[i]) && args[i].value == items[i] { assert args[i] == Const(items[i]); }
    assert Texts(args) == items && Columns(args) == items;
  }

  lemma Restored(c: Config, c': Config, key: string)
    requires key in c' && SameOutside({key}, c, c')
    ensures c[key := c'[key]] == c'
  {
  }

  /** Reading a printed literal node back gives its literals, unless the column list is empty (then select
      reads ["*"] and drop nothing) or the count negative (then nothing). */
  lemma LiteralReads(form: Form, c: Config, c': Config)
    requires LiteralForm(form) && Typed(form, c') && SameOutside(LiteralFields(form), c, c')
    ensures var r := ReadValue(c, FormCall(form, c'));
            if Recoverable(form, c') then r == Applied(c')
            else if form.Selected? then r == Applied(c["columns" := List([Str("*")])])
            else r == Ignored
  {
    match form
    case FromTable => Restored(c, c', "table");
    case Filtered => Restored(c, c', "expression");
    case Limited => Restored(c, c', "count");
    case Derived => assert c["name" := c'["name"]]["expression" := c'["expression"]] == c';
    case Selected =>
      SelectReads(ItemsOr(c'["columns"].items, [Str("*")]));
      Restored(c, c', "columns");
    case Dropped =>
      ConstsRead(c'["columns"].items);
      Restored(c, c', "columns");
  }

  // ---- Reading the other operators ----

  /** What reading a printed expression leaves of a configuration. */
  function Effect(c: Config, v: Py): Config { if ReadValue(c, v).Applied? then ReadValue(c, v).config else c }

  /** Reading the same code again changes nothing more and is reported just the same. */
  lemma EffectTwice(c: Config, v: Py)
    ensures Effect(Effect(c, v), v) == Effect(c, v)
    ensures ReadValue(Effect(c, v), v).Refused? <==> ReadValue(c, v).Refused?
  {
    ReadingIsStable(c, Effect(c, v), v);
  }

  /** Reading an assignment in terms of its effect. */
  lemma StatementReads(byVar: map<string, string>, p: Progress, target: string, v: Py)
    ensures ReadStatement(byVar, p, Assigns(target, v)) ==
            if target in byVar && byVar[target] in p.configs
            then
              var c := p.configs[byVar[target]];
              Progress(p.configs[byVar[target] := Effect(c, v)], p.clean && !ReadValue(c, v).Refused?)
            else p
  {
    if target in byVar && byVar[target] in p.configs {
      var c := p.configs[byVar[target]];
      assert p.configs[byVar[target] := c] == p.configs;
    }
  }

  lemma TableEffect(c: Config, table: Json)
    requires table.Str?
    ensures Effect(c, Call(OtherPy, TableCall, [Const(table)])) == c["table" := table]
  {
  }

  lemma EntryStays(c: Config, key: string, v: Json)
    ensures c[key := v] == c <==> key in c && c[key] == v
  {
    if c[key := v] == c { assert key in c[key := v]; }
  }

  /** The configurations that reading the printed operator leaves as they are: a reference gains its name as
      "table", a flattened struct its column as "columns", a deduplication its default watermark and a
      posexplode its target as the new name of "col", unless they are there already. */
  predicate Kept(form: Form, c: Config)
    requires Typed(form, c)
  {
    match form
    case Referenced => "table" in c && c["table"] == c["name"]
    case Flattened => "columns" in c && c["columns"] == List([c["column"]])
    case EventDeduplicated => "watermark" in c
    case Posexploded =>
      && "mapping" in c && c["mapping"].Dict? && "col" in c["mapping"].fields && c["mapping"].fields["col"] == c["target"]
    case _ => true
  }

  /** A printed variable is no call, and neither is a rename of nothing. */
  predicate Unread(form: Form, c: Config)
    requires Typed(form, c)
  {
    form.Variable? || (form.Renamed? && c["mapping"].fields == map[])
  }

  lemma RenameKept(c: Config)
    requires Typed(Renamed, c) && c["mapping"].fields != map[]
    ensures ReadValue(c, FormCall(Renamed, c)) == Applied(c)
  {
    var fields := c["mapping"].fields;
    var last := LastKey(fields);
    assert fields[last := fields[last]] == fields;
    EntryStays(c, "mapping", Dict(fields));
  }

  lemma PosexplodeRead(c: Config)
    requires Typed(Posexploded, c)
    ensures !ReadValue(c, FormCall(Posexploded, c)).Refused?
    ensures Effect(c, FormCall(Posexploded, c)) == c <==> Kept(Posexploded, c)
  {
    var fields := if "mapping" in c && c["mapping"].Dict? then c["mapping"].fields else map[];
    var extended := fields["col" := c["target"]];
    EntryStays(c, "mapping", Dict(extended));
    EntryStays(fields, "col", c["target"]);
  }

  lemma EventDeduplicatedRead(c: Config)
    requires Typed(EventDeduplicated, c)
    ensures !ReadValue(c, FormCall(EventDeduplicated, c)).Refused?
    ensures Effect(c, FormCall(EventDeduplicated, c)) == c <==> Kept(EventDeduplicated, c)
  {
    ConstsRead(c["columns"].items);
    var watermark := if "watermark" in c then c["watermark"] else WATERMARK;
    var read := c["eventTime" := c["eventTime"]]["watermark" := watermark]["columns" := c["columns"]];
    assert ReadValue(c, FormCall(EventDeduplicated, c)) == Applied(read);
    assert "watermark" in read;
    if "watermark" in c { assert read == c; }
  }

  lemma ColumnsKept(form: Form, c: Config)
    requires (form.Reordered? || form.WithoutDuplicates?) && Typed(form, c)
    ensures !ReadValue(c, FormCall(form, c)).Refused? && Effect(c, FormCall(form, c)) == c
  {
    if "columns" in c {
      ConstsRead(c["columns"].items);
      EntryStays(c, "columns", c["columns"]);
    }
  }

  lemma FlattenedRead(c: Config)
    requires Typed(Flattened, c)
    ensures ReadValue(c, FormCall(Flattened, c)) == Applied(c["columns" := List([c["column"]])])
  {
    var args := [Const(c["column"])];
    assert AllTexts(args) && Texts(args) == [c["column"]];
  }

  /** Reading an unedited operator: when the module is reported as code-owned, and when the configuration
      stays as it was. */
  lemma OperatorReads(form: Form, c: Config)
    requires !LiteralForm(form) && Typed(form, c)
    ensures ReadValue(c, FormCall(form, c)).Refused? <==> Unread(form, c)
    ensures Effect(c, FormCall(form, c)) == c <==> Kept(form, c)
  {
    match form
    case Referenced => EntryStays(c, "table", c["name"]);
    case Renamed => if c["mapping"].fields != map[] { RenameKept(c); }
    case Posexploded => PosexplodeRead(c);
    case EventDeduplicated => EventDeduplicatedRead(c);
    case Reordered => ColumnsKept(form, c);
    case WithoutDuplicates => ColumnsKept(form, c);
    case Flattened =>
      FlattenedRead(c);
      EntryStays(c, "columns", List([c["column"]]));
    case _ =>
  }

  /** Reading an unedited module rewrites a dataset reference: it gains a "table" entry. */
  lemma ReferenceRewritten()
    ensures var c := map["name" := Str("orders")];
            && Typed(FormOf(Source("dataset_reference")), c)
            && ReadValue(c, FormCall(FormOf(Source("dataset_reference")), c)) == Applied(map["name" := Str("orders"), "table" := Str("orders")])
            && Effect(c, FormCall(FormOf(Source("dataset_reference")), c)) != c
  {
    var c := map["name" := Str("orders")];
    assert "table" !in c;
  }

  /** And a flattened struct: it gains a "columns" entry. */
  lemma FlattenRewritten()
    ensures var c := map["column" := Str("address")];
            && Typed(FormOf(Transform("flatten_struct")), c)
            && Effect(c, FormCall(FormOf(Transform("flatten_struct")), c))
               == map["column" := Str("address"), "columns" := List([Str("address")])] != c
  {
    var c := map["column" := Str("address")];
    FlattenedRead(c);
    assert "columns" !in c;
  }
}
