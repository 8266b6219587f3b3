/** `reconcile_python` (python/sdpstudio_codegen/reconcile.py): reading edited literals of a generated module
    back into the document. */
module Reconcile {
  import opened Sorting
  import opened Documents
  import opened Graph
  import opened Validation
  import opened PythonNames

  // ---- The part of Python's syntax the reader looks at ----

  /** The attribute that is called; OtherCall holds any attribute the reader does not look for. */
  datatype Method =
    | TableCall
    | WithColumnCall
    | RenamedCall
    | CastCall
    | DistinctCall
    | DropCall
    | LimitCall
    | FilterCall
    | DropDuplicatesCall
    | SelectCall
    | ExprCall
    | ColCall
    | WatermarkCall
    | OtherCall(name: string)

  /** Call is a call of an attribute; PlainCall calls anything else. */
  datatype Py =
    | Const(value: Json)
    | Call(receiver: Py, attr: Method, args: seq<Py>)
    | PlainCall(args: seq<Py>)
    | PyList(elts: seq<Py>)
    | OtherPy

  datatype Statement = Assigns(target: string, value: Py) | Capture | Returns | OtherStatement

  /** A call of an attribute, of "dp" when onDp; the fields after attr are its literal arguments. */
  datatype PyDecorator =
    | PyDecorator(onDp: bool, attr: string, first: Option<string>, target: Option<string>,
                  keys: Option<seq<string>>, sequence: Option<string>)
    | OtherDecorator

  datatype PyFunction = PyFunction(name: string, decorators: seq<PyDecorator>, body: seq<Statement>)

  predicate IsText(e: Py) { e.Const? && e.value.Str? }

  predicate IsTextExpr(e: Py) { e.Call? && e.attr.ExprCall? && e.args != [] && IsText(e.args[0]) }

  predicate AllTexts(es: seq<Py>) { forall i :: 0 <= i < |es| ==> IsText(es[i]) }

  function Texts(es: seq<Py>): seq<Json>
    requires AllTexts(es)
  {
    seq(|es|, i requires 0 <= i < |es| => es[i].value)
  }

  /** A column is a string literal or an `F.expr` of one. */
  predicate IsColumn(e: Py) { IsText(e) || IsTextExpr(e) }

  predicate AllColumns(es: seq<Py>) { forall i :: 0 <= i < |es| ==> IsColumn(es[i]) }

  function Columns(es: seq<Py>): seq<Json>
    requires AllColumns(es)
  {
    seq(|es|, i requires 0 <= i < |es| => if IsText(es[i]) then es[i].value else es[i].args[0].value)
  }

  /** A list literal as only argument stands for its elements. */
  function Spread(args: seq<Py>): seq<Py> {
    if |args| == 1 && args[0].PyList? then args[0].elts else args
  }

  // ---- Reading one assignment ----

  datatype Reading = Applied(config: Config) | Ignored | Refused

  function ReadRename(config: Config, args: seq<Py>): Reading {
    if |args| == 2 && AllTexts(args) then
      var mapping := if "mapping" in config && config["mapping"].Dict? then config["mapping"].fields else map[];
      Applied(config["mapping" := Dict(mapping[args[0].value.s := args[1].value])])
    else Ignored
  }

  function ReadCast(config: Config, receiver: Py, args: seq<Py>): Reading {
    if receiver.Call? && receiver.attr.ColCall? && receiver.args != [] && IsText(receiver.args[0])
       && args != [] && IsText(args[0])
    then Applied(config["column" := receiver.args[0].value]["dataType" := args[0].value])
    else Ignored
  }

  function ReadDeduplicate(config: Config, receiver: Py, args: seq<Py>): Reading {
    var values := Spread(args);
    if receiver.Call? && receiver.attr.WatermarkCall? && |receiver.args| == 2 && AllTexts(receiver.args)
       && values != [] && AllTexts(values)
    then Applied(config["eventTime" := receiver.args[0].value]["watermark" := receiver.args[1].value]
                       ["columns" := List(Texts(values))])
    else Ignored
  }

  function ReadColumns(config: Config, args: seq<Py>): Reading {
    var values := Spread(args);
    if values != [] && AllColumns(values) then Applied(config["columns" := List(Columns(values))]) else Ignored
  }

  /** What the right-hand side of an assignment to a known variable does to the node's configuration. */
  function ReadValue(config: Config, value: Py): Reading {
    if !value.Call? then Refused
    else
      var args := value.args;
      match value.attr
      case TableCall => if args != [] && IsText(args[0]) then Applied(config["table" := args[0].value]) else Ignored
      case WithColumnCall =>
        if |args| == 2 && IsText(args[0]) && IsTextExpr(args[1])
        then Applied(config["name" := args[0].value]["expression" := args[1].args[0].value]) else Ignored
      case RenamedCall => ReadRename(config, args)
      case CastCall => ReadCast(config, value.receiver, args)
      case DistinctCall => if args == [] then Applied(config) else Ignored
      case DropCall => if args != [] && AllTexts(args) then Applied(config["columns" := List(Texts(args))]) else Ignored
      case LimitCall =>
        if |args| == 1 && args[0].Const? && (args[0].value.Int? || args[0].value.Bool?)
        then Applied(config["count" := args[0].value]) else Ignored
      case FilterCall =>
        if args == [] || !(args[0].Call? || args[0].PlainCall?) then Ignored
        else if IsTextExpr(args[0]) then Applied(config["expression" := args[0].args[0].value])
        else Refused
      case DropDuplicatesCall =>
        if value.receiver.Call? || value.receiver.PlainCall? then ReadDeduplicate(config, value.receiver, args)
        else ReadColumns(config, args)
      case SelectCall => ReadColumns(config, args)
      case _ => Ignored
  }

  /** Reading the same code twice changes nothing more, and whether it is read does not depend on the
      configuration. */
  lemma ReadingIsStable(config: Config, config': Config, value: Py)
    ensures ReadValue(config, value).Applied? <==> ReadValue(config', value).Applied?
    ensures ReadValue(config, value).Refused? <==> ReadValue(config', value).Refused?
    ensures ReadValue(config, value).Applied? ==>
              ReadValue(ReadValue(config, value).config, value) == ReadValue(config, value)
  {
    ReadingIgnoresConfig(config, config', value);
    if ReadValue(config, value).Applied? { ReadingTwice(config, value); }
  }

  lemma ReadingIgnoresConfig(config: Config, config': Config, value: Py)
    ensures ReadValue(config, value).Applied? <==> ReadValue(config', value).Applied?
    ensures ReadValue(config, value).Refused? <==> ReadValue(config', value).Refused?
  {
  }

  lemma RenamingTwice(config: Config, args: seq<Py>)
    requires ReadRename(config, args).Applied?
    ensures ReadRename(ReadRename(config, args).config, args) == ReadRename(config, args)
  {
    var c := ReadRename(config, args).config;
    var m := c["mapping"].fields;
    assert m[args[0].value.s := args[1].value] == m;
    assert c["mapping" := Dict(m)] == c;
  }

  lemma ReadingTwice(config: Config, value: Py)
    requires ReadValue(config, value).Applied?
    ensures ReadValue(ReadValue(config, value).config, value) == ReadValue(config, value)
  {
    if value.attr.RenamedCall? {
      RenamingTwice(config, value.args);
    } else {
      var c := ReadValue(config, value).config;
      ReadingIgnoresConfig(config, c, value);
      assert ReadValue(c, value).config == c;
    }
  }

  // ---- Reading a module ----

  /** configs: the configurations of the copied nodes; clean: no problem was reported. */
  datatype Progress = Progress(configs: map<string, Config>, clean: bool)

  function ReadStatement(byVar: map<string, string>, p: Progress, s: Statement): Progress {
    match s
    case Capture => p
    case Returns => p
    case OtherStatement => p.(clean := false)
    case Assigns(v, value) =>
      if v !in byVar || byVar[v] !in p.configs then p
      else
        match ReadValue(p.configs[byVar[v]], value)
        case Applied(config) => p.(configs := p.configs[byVar[v] := config])
        case Ignored => p
        case Refused => p.(clean := false)
  }

  function ReadBody(byVar: map<string, string>, p: Progress, body: seq<Statement>): Progress {
    if body == [] then p
    else ReadStatement(byVar, ReadBody(byVar, p, body[..|body| - 1]), body[|body| - 1])
  }

  predicate NamedIn(configs: map<string, Config>, id: string, name: Option<string>) {
    name.Some? && id in configs && "name" in configs[id] && configs[id]["name"] == Str(name.value)
  }

  /** The first node configured with a name. */
  function FindNamed(ids: seq<string>, configs: map<string, Config>, name: Option<string>): (r: Option<string>)
    ensures r.Some? ==> r.value in configs && NamedIn(configs, r.value, name)
    ensures r.Some? ==> exists i :: 0 <= i < |ids| && ids[i] == r.value && forall j :: 0 <= j < i ==> !NamedIn(configs, ids[j], name)
    ensures r.None? ==> forall i :: 0 <= i < |ids| ==> !NamedIn(configs, ids[i], name)
  {
    if ids == [] then None
    else if NamedIn(configs, ids[0], name) then Some(ids[0])
    else
      var r := FindNamed(ids[1..], configs, name);
      assert r.Some? ==> exists i :: 0 <= i < |ids| && ids[i] == r.value && forall j :: 0 <= j < i ==> !NamedIn(configs, ids[j], name) by {
        if r.Some? {
          var i :| 0 <= i < |ids[1..]| && ids[1..][i] == r.value && forall j :: 0 <= j < i ==> !NamedIn(configs, ids[1..][j], name);
          assert ids[i + 1] == r.value;
          forall j | 0 <= j < i + 1 ensures !NamedIn(configs, ids[j], name) { if j > 0 { assert ids[j] == ids[1..][j - 1]; } }
        }
      }
      r
  }

  predicate KnownDecorator(attr: string) {
    attr in {"materialized_view", "table", "temporary_view", "append_flow", "create_auto_cdc_flow"}
  }

  function Assigned(configs: map<string, Config>, id: string, key: string, value: Json): map<string, Config>
    requires id in configs
  {
    configs[id := configs[id][key := value]]
  }

  function StrList(items: seq<string>): Json { List(seq(|items|, i requires 0 <= i < |items| => Str(items[i]))) }

  function ReadDecorator(ids: seq<string>, p: Progress, name: string, dec: PyDecorator): Progress {
    if dec.OtherDecorator? then p
    else if !KnownDecorator(dec.attr) then p.(clean := false)
    else
      var own := FindNamed(ids, p.configs, Some(name));
      var renamed := if own.Some? && dec.first.Some? then Assigned(p.configs, own.value, "name", Str(dec.first.value)) else p.configs;
      var output := if own.Some? then own else FindNamed(ids, renamed, dec.target);
      if output.None? || dec.attr != "create_auto_cdc_flow" then p.(configs := renamed)
      else
        var keyed := if dec.keys.Some? then Assigned(renamed, output.value, "keys", StrList(dec.keys.value)) else renamed;
        var sequenced := if dec.sequence.Some? then Assigned(keyed, output.value, "sequence_by", Str(dec.sequence.value)) else keyed;
        p.(configs := sequenced)
  }

  function ReadDecorators(ids: seq<string>, p: Progress, name: string, decs: seq<PyDecorator>): Progress {
    if decs == [] then p
    else ReadDecorator(ids, ReadDecorators(ids, p, name, decs[..|decs| - 1]), name, decs[|decs| - 1])
  }

  function ReadFunction(ids: seq<string>, byVar: map<string, string>, p: Progress, f: PyFunction): Progress {
    ReadBody(byVar, ReadDecorators(ids, p, f.name, f.decorators), f.body)
  }

  function ReadFunctions(ids: seq<string>, byVar: map<string, string>, p: Progress, fs: seq<PyFunction>): Progress {
    if fs == [] then p
    else ReadFunction(ids, byVar, ReadFunctions(ids, byVar, p, fs[..|fs| - 1]), fs[|fs| - 1])
  }

  function Dashed(id: string): string { seq(|id|, i requires 0 <= i < |id| => if id[i] == '-' then '_' else id[i]) }

  /** The variable name the reader expects for a node. */
  function Key(id: string): string { "n_" + Dashed(id) }

  /** The reader confuses two ids exactly when they differ only in having a dash where the other has an underscore. */
  lemma KeysClashExactly(a: string, b: string)
    ensures Key(a) == Key(b) <==> |a| == |b| && forall i :: 0 <= i < |a| && a[i] != b[i] ==> {a[i], b[i]} == {'-', '_'}
  {
    assert Key(a)[2..] == Dashed(a) && Key(b)[2..] == Dashed(b);
    if Key(a) == Key(b) {
      forall i | 0 <= i < |a| && a[i] != b[i] ensures {a[i], b[i]} == {'-', '_'} {
        assert Dashed(a)[i] == Dashed(b)[i];
      }
    } else if |a| == |b| {
      var i :| 0 <= i < |a| && Dashed(a)[i] != Dashed(b)[i];
      assert '-' in {'-', '_'} && '_' in {'-', '_'};
      assert a[i] in {a[i], b[i]} && b[i] in {a[i], b[i]};
    }
  }

  /** `by_var`: of two nodes with one expected variable, the later wins. */
  function ByVar(key: string -> string, nodes: seq<Node>): map<string, string> {
    if nodes == [] then map[]
    else ByVar(key, nodes[..|nodes| - 1])[key(nodes[|nodes| - 1].id) := nodes[|nodes| - 1].id]
  }

  function ConfigsOf(nodes: seq<Node>): map<string, Config> {
    if nodes == [] then map[]
    else ConfigsOf(nodes[..|nodes| - 1])[nodes[|nodes| - 1].id := nodes[|nodes| - 1].config]
  }

  function WithConfigs(nodes: seq<Node>, configs: map<string, Config>): seq<Node> {
    seq(|nodes|, i requires 0 <= i < |nodes| =>
          if nodes[i].id in configs then nodes[i].(config := configs[nodes[i].id]) else nodes[i])
  }

  /** The nodes for which a declaration is expected. */
  predicate IsDeclared(kind: Kind) { kind.Dataset? || kind == Sink("external") }

  function CountDefinitions(nodes: seq<Node>): nat {
    if nodes == [] then 0
    else CountDefinitions(nodes[..|nodes| - 1]) + (if IsDeclared(nodes[|nodes| - 1].kind) then 1 else 0)
  }

  predicate OnDp(dec: PyDecorator) { dec.PyDecorator? && dec.onDp }

  predicate Declaring(f: PyFunction) { exists i :: 0 <= i < |f.decorators| && OnDp(f.decorators[i]) }

  function IsDeclaring(): PyFunction -> bool { (f: PyFunction) => Declaring(f) }

  /** Visual: the graph follows the code. Custom: the code stays as it is and the document is kept. */
  datatype Reconciliation = Visual(document: Document, changed: bool) | Custom(kept: Document)

  /** What `reconcile_python` returns; tree is None for code that does not parse. */
  function Reconciled(key: string -> string, d: Document, tree: Option<seq<PyFunction>>, blank: bool): Reconciliation {
    if tree.None? then Custom(d)
    else
      var outputs := Filter(IsDeclaring(), tree.value);
      if (outputs == [] && !blank) || |outputs| != CountDefinitions(d.nodes) then Custom(d)
      else
        var p := ReadFunctions(IdList(d.nodes), ByVar(key, d.nodes), Progress(ConfigsOf(d.nodes), true), outputs);
        var updated := Document(WithConfigs(d.nodes, p.configs), d.edges);
        if p.clean then Visual(updated, updated != d) else Custom(d)
  }

  // ---- What is read, spelled out ----

  ghost predicate ShowsText(c: Config, key: string, e: Py) { key in c && c[key].Str? && e == Const(c[key]) }

  /** `F.expr` of a text. */
  ghost predicate ShowsExpr(c: Config, key: string, e: Py) {
    e.Call? && e.attr == ExprCall && e.args != [] && ShowsText(c, key, e.args[0])
  }

  /** The texts listed under a key, as literals or, where allowed, wrapped in `F.expr`. */
  ghost predicate ShowsTexts(c: Config, key: string, es: seq<Py>, wrapped: bool) {
    && key in c && c[key].List? && |c[key].items| == |es| && es != []
    && forall i :: 0 <= i < |es| ==>
         && c[key].items[i].Str?
         && (es[i] == Const(c[key].items[i])
             || (wrapped && es[i].Call? && es[i].attr == ExprCall && es[i].args != [] && es[i].args[0] == Const(c[key].items[i])))
  }

  ghost predicate ShowsEntry(c: Config, key: string, from: Py, to: Py) {
    && key in c && c[key].Dict? && from.Const? && from.value.Str? && from.value.s in c[key].fields
    && to == Const(c[key].fields[from.value.s]) && to.value.Str?
  }

  /** The literals of a call are those of a configuration. */
  ghost predicate Shows(value: Py, c: Config)
    requires value.Call?
  {
    var args, on := value.args, value.receiver;
    var list := if |args| == 1 && args[0].PyList? then args[0].elts else args;
    match value.attr
    case TableCall => args != [] && ShowsText(c, "table", args[0])
    case WithColumnCall => |args| == 2 && ShowsText(c, "name", args[0]) && ShowsExpr(c, "expression", args[1])
    case RenamedCall => |args| == 2 && ShowsEntry(c, "mapping", args[0], args[1])
    case CastCall =>
      && on.Call? && on.attr == ColCall && on.args != [] && ShowsText(c, "column", on.args[0])
      && args != [] && ShowsText(c, "dataType", args[0])
    case DistinctCall => args == []
    case DropCall => ShowsTexts(c, "columns", args, false)
    case LimitCall => |args| == 1 && "count" in c && (c["count"].Int? || c["count"].Bool?) && args[0] == Const(c["count"])
    case FilterCall => args != [] && ShowsExpr(c, "expression", args[0])
    case DropDuplicatesCall =>
      if !(on.Call? || on.PlainCall?) then ShowsTexts(c, "columns", list, true)
      else
        && on.Call? && on.attr == WatermarkCall && |on.args| == 2 && ShowsText(c, "eventTime", on.args[0])
        && ShowsText(c, "watermark", on.args[1]) && ShowsTexts(c, "columns", list, false)
    case SelectCall => ShowsTexts(c, "columns", list, true)
    case _ => false
  }

  /** The entries that reading a call may write. */
  function WrittenKeys(value: Py): set<string>
    requires value.Call?
  {
    match value.attr
    case TableCall => {"table"}
    case WithColumnCall => {"name", "expression"}
    case RenamedCall => {"mapping"}
    case CastCall => {"column", "dataType"}
    case DropCall => {"columns"}
    case SelectCall => {"columns"}
    case LimitCall => {"count"}
    case FilterCall => {"expression"}
    case DropDuplicatesCall => {"columns", "eventTime", "watermark"}
    case _ => {}
  }

  lemma ReadIsShown(config: Config, value: Py)
    requires value.Call? && ReadValue(config, value).Applied?
    ensures Shows(value, ReadValue(config, value).config)
  {
  }

  lemma ShownIsRead(config: Config, value: Py, c: Config)
    requires value.Call? && Shows(value, c)
    ensures ReadValue(config, value).Applied?
  {
  }

  /** A call is read exactly when its literals can be those of a configuration; they then are those of the result,
      whose other entries are as they were. */
  lemma ReadsWhatIsShown(config: Config, value: Py)
    requires value.Call?
    ensures ReadValue(config, value).Applied? ==> Shows(value, ReadValue(config, value).config)
    ensures forall c :: Shows(value, c) ==> ReadValue(config, value).Applied?
    ensures ReadValue(config, value).Applied? ==> OthersKept(config, ReadValue(config, value).config, WrittenKeys(value))
  {
    if ReadValue(config, value).Applied? {
      ReadIsShown(config, value);
      ReadKeepsOthers(config, value);
    }
    forall c | Shows(value, c) ensures ReadValue(config, value).Applied? { ShownIsRead(config, value, c); }
  }

  /** The entries outside keys are as they were. */
  ghost predicate OthersKept(before: Config, after: Config, keys: set<string>) {
    forall k :: k !in keys ==> (k in after <==> k in before) && (k in before ==> after[k] == before[k])
  }

  lemma ReadKeepsOthers(config: Config, value: Py)
    requires value.Call? && ReadValue(config, value).Applied?
    ensures OthersKept(config, ReadValue(config, value).config, WrittenKeys(value))
  {
  }

  /** Renaming one column keeps the other entries of the mapping. */
  lemma RenameKeepsMapping(config: Config, value: Py, column: string)
    requires value.Call? && value.attr == RenamedCall && ReadValue(config, value).Applied? && value.args[0] != Const(Str(column))
    ensures var after := ReadValue(config, value).config["mapping"];
            && after.Dict?
            && (column in after.fields <==> "mapping" in config && config["mapping"].Dict? && column in config["mapping"].fields)
            && (column in after.fields ==> after.fields[column] == config["mapping"].fields[column])
  {
  }

  /** What the reader reports as unsupported: anything but a call of an attribute, and a filter by a call that is no
      `F.expr` of a text. */
  predicate Unreadable(value: Py) {
    || !value.Call?
    || (value.attr == FilterCall && value.args != [] && (value.args[0].Call? || value.args[0].PlainCall?)
        && !(value.args[0].Call? && value.args[0].attr == ExprCall && value.args[0].args != []
             && value.args[0].args[0].Const? && value.args[0].args[0].value.Str?))
  }

  lemma RefusedExactly(config: Config, value: Py)
    ensures ReadValue(config, value).Refused? <==> Unreadable(value)
  {
  }

  lemma {:induction false} ByVarMembers(key: string -> string, nodes: seq<Node>)
    ensures forall n :: n in nodes ==> key(n.id) in ByVar(key, nodes)
    ensures forall v :: v in ByVar(key, nodes) ==>
              key(ByVar(key, nodes)[v]) == v && exists n :: n in nodes && n.id == ByVar(key, nodes)[v]
  {
    if nodes != [] {
      SplitLast(nodes);
      ByVarMembers(key, nodes[..|nodes| - 1]);
    }
  }

  /** A variable expected for several nodes stands for the last of them. */
  lemma {:induction false} ByVarLast(key: string -> string, nodes: seq<Node>, i: nat)
    requires i < |nodes| && forall j :: i < j < |nodes| ==> key(nodes[j].id) != key(nodes[i].id)
    ensures key(nodes[i].id) in ByVar(key, nodes) && ByVar(key, nodes)[key(nodes[i].id)] == nodes[i].id
  {
    if i < |nodes| - 1 { ByVarLast(key, nodes[..|nodes| - 1], i); }
  }

  lemma {:induction false} ConfigsOfMembers(nodes: seq<Node>)
    ensures forall n :: n in nodes ==> n.id in ConfigsOf(nodes)
    ensures forall id :: id in ConfigsOf(nodes) ==> exists n :: n in nodes && n.id == id
  {
    if nodes != [] {
      SplitLast(nodes);
      ConfigsOfMembers(nodes[..|nodes| - 1]);
    }
  }

  /** The statement gives the reader nothing to report. */
  predicate StatementLegible(byVar: map<string, string>, known: set<string>, s: Statement) {
    match s
    case Assigns(v, value) => v in byVar && byVar[v] in known ==> !Unreadable(value)
    case OtherStatement => false
    case _ => true
  }

  lemma StatementClean(byVar: map<string, string>, p: Progress, s: Statement)
    ensures ReadStatement(byVar, p, s).configs.Keys == p.configs.Keys
    ensures ReadStatement(byVar, p, s).clean <==> p.clean && StatementLegible(byVar, p.configs.Keys, s)
  {
    if s.Assigns? && s.target in byVar && byVar[s.target] in p.configs { RefusedExactly(p.configs[byVar[s.target]], s.value); }
  }

  lemma {:induction false} BodyClean(byVar: map<string, string>, p: Progress, body: seq<Statement>)
    ensures ReadBody(byVar, p, body).configs.Keys == p.configs.Keys
    ensures ReadBody(byVar, p, body).clean <==> p.clean && forall s :: s in body ==> StatementLegible(byVar, p.configs.Keys, s)
  {
    if body != [] {
      SplitLast(body);
      BodyClean(byVar, p, body[..|body| - 1]);
      StatementClean(byVar, ReadBody(byVar, p, body[..|body| - 1]), body[|body| - 1]);
    }
  }

  predicate DecoratorLegible(dec: PyDecorator) {
    dec.PyDecorator? ==> dec.attr in {"materialized_view", "table", "temporary_view", "append_flow", "create_auto_cdc_flow"}
  }

  lemma DecoratorClean(ids: seq<string>, p: Progress, name: string, dec: PyDecorator)
    ensures ReadDecorator(ids, p, name, dec).configs.Keys == p.configs.Keys
    ensures ReadDecorator(ids, p, name, dec).clean <==> p.clean && DecoratorLegible(dec)
  {
  }

  ghost predicate DecoratorsLegible(decs: seq<PyDecorator>) { forall dec :: dec in decs ==> DecoratorLegible(dec) }

  lemma {:induction false} DecoratorsClean(ids: seq<string>, p: Progress, name: string, decs: seq<PyDecorator>)
    ensures ReadDecorators(ids, p, name, decs).configs.Keys == p.configs.Keys
    ensures ReadDecorators(ids, p, name, decs).clean <==> p.clean && DecoratorsLegible(decs)
  {
    if decs != [] {
      var before, dec := decs[..|decs| - 1], decs[|decs| - 1];
      SplitLast(decs);
      DecoratorsClean(ids, p, name, before);
      DecoratorClean(ids, ReadDecorators(ids, p, name, before), name, dec);
      assert DecoratorsLegible(decs) <==> DecoratorsLegible(before) && DecoratorLegible(dec);
    }
  }

  ghost predicate FunctionLegible(byVar: map<string, string>, known: set<string>, f: PyFunction) {
    && DecoratorsLegible(f.decorators)
    && (forall s :: s in f.body ==> StatementLegible(byVar, known, s))
  }

  lemma FunctionClean(ids: seq<string>, byVar: map<string, string>, p: Progress, f: PyFunction)
    ensures ReadFunction(ids, byVar, p, f).configs.Keys == p.configs.Keys
    ensures ReadFunction(ids, byVar, p, f).clean <==> p.clean && FunctionLegible(byVar, p.configs.Keys, f)
  {
    DecoratorsClean(ids, p, f.name, f.decorators);
    BodyClean(byVar, ReadDecorators(ids, p, f.name, f.decorators), f.body);
  }

  ghost predicate FunctionsLegible(byVar: map<string, string>, known: set<string>, fs: seq<PyFunction>) {
    forall f :: f in fs ==> FunctionLegible(byVar, known, f)
  }

  lemma {:induction false} FunctionsClean(ids: seq<string>, byVar: map<string, string>, p: Progress, fs: seq<PyFunction>)
    ensures ReadFunctions(ids, byVar, p, fs).configs.Keys == p.configs.Keys
    ensures ReadFunctions(ids, byVar, p, fs).clean <==> p.clean && FunctionsLegible(byVar, p.configs.Keys, fs)
  {
    if fs != [] {
      SplitLast(fs);
      var before, f := fs[..|fs| - 1], fs[|fs| - 1];
      FunctionsClean(ids, byVar, p, before);
      FunctionClean(ids, byVar, ReadFunctions(ids, byVar, p, before), f);
      assert FunctionsLegible(byVar, p.configs.Keys, fs) <==>
             FunctionsLegible(byVar, p.configs.Keys, before) && FunctionLegible(byVar, p.configs.Keys, f);
    }
  }

  /** A variable the reader knows: the one expected for some node. */
  ghost predicate KnownVariable(d: Document, v: string) { exists n :: n in d.nodes && Key(n.id) == v }

  /** A declared function the reader understands: its call decorators are known, its statements are assignments, plan
      captures and returns, and what it assigns to known variables can be read. */
  ghost predicate Understood(d: Document, f: PyFunction) {
    && (forall dec :: dec in f.decorators && dec.PyDecorator? ==>
          dec.attr in {"materialized_view", "table", "temporary_view", "append_flow", "create_auto_cdc_flow"})
    && (forall s :: s in f.body ==> s.Assigns? || s.Capture? || s.Returns?)
    && (forall s :: s in f.body && s.Assigns? && KnownVariable(d, s.target) ==> !Unreadable(s.value))
  }

  lemma KnownExactly(d: Document, v: string)
    ensures var byVar := ByVar(Key, d.nodes);
            v in byVar && byVar[v] in ConfigsOf(d.nodes).Keys <==> KnownVariable(d, v)
  {
    ByVarMembers(Key, d.nodes);
    ConfigsOfMembers(d.nodes);
  }

  lemma UnderstoodExactly(d: Document, f: PyFunction)
    ensures FunctionLegible(ByVar(Key, d.nodes), ConfigsOf(d.nodes).Keys, f) <==> Understood(d, f)
  {
    var byVar, known := ByVar(Key, d.nodes), ConfigsOf(d.nodes).Keys;
    forall v ensures v in byVar && byVar[v] in known <==> KnownVariable(d, v) { KnownExactly(d, v); }
    if forall s :: s in f.body ==> StatementLegible(byVar, known, s) {
      forall s | s in f.body ensures s.Assigns? || s.Capture? || s.Returns? { assert StatementLegible(byVar, known, s); }
      forall s | s in f.body && s.Assigns? && KnownVariable(d, s.target) ensures !Unreadable(s.value) {
        assert StatementLegible(byVar, known, s);
      }
    }
    forall dec ensures DecoratorLegible(dec) <==>
      (dec.PyDecorator? ==> dec.attr in {"materialized_view", "table", "temporary_view", "append_flow", "create_auto_cdc_flow"}) {}
  }

  /** Some decorator of the function is called on dp. */
  ghost predicate DeclaredOnDp(f: PyFunction) { exists dec :: dec in f.decorators && dec.PyDecorator? && dec.onDp }

  lemma DeclaringExactly(f: PyFunction)
    ensures Declaring(f) <==> DeclaredOnDp(f)
  {
    if Declaring(f) {
      var i :| 0 <= i < |f.decorators| && OnDp(f.decorators[i]);
      assert f.decorators[i] in f.decorators;
    }
    if DeclaredOnDp(f) {
      var dec :| dec in f.decorators && dec.PyDecorator? && dec.onDp;
      var i :| 0 <= i < |f.decorators| && f.decorators[i] == dec;
      assert OnDp(f.decorators[i]);
    }
  }

  /** The places of the declared functions, and those of the nodes for which a declaration is expected. */
  ghost function DeclarationPlaces(fs: seq<PyFunction>): set<int> { set i | 0 <= i < |fs| && DeclaredOnDp(fs[i]) }

  ghost function ExpectedPlaces(nodes: seq<Node>): set<int> {
    set i | 0 <= i < |nodes| && (nodes[i].kind.Dataset? || nodes[i].kind == Sink("external"))
  }

  lemma DeclarationPlacesGrow(fs: seq<PyFunction>, f: PyFunction)
    ensures |DeclarationPlaces(fs + [f])| == |DeclarationPlaces(fs)| + if DeclaredOnDp(f) then 1 else 0
  {
    var k := |fs|;
    forall i | 0 <= i < k ensures (fs + [f])[i] == fs[i] {}
    assert DeclarationPlaces(fs + [f]) == DeclarationPlaces(fs) + (if DeclaredOnDp(f) then {k} else {});
    assert k !in DeclarationPlaces(fs);
  }

  lemma {:induction false} DeclarationsCounted(fs: seq<PyFunction>)
    ensures |Filter(IsDeclaring(), fs)| == |DeclarationPlaces(fs)|
  {
    if fs == [] {
      assert DeclarationPlaces(fs) == {};
    } else {
      var k := |fs| - 1;
      DeclarationsCounted(fs[..k]);
      FilterSplitsAt(IsDeclaring(), fs, k);
      TakeGrows(fs, k);
      assert fs[..k + 1] == fs;
      DeclaringExactly(fs[k]);
      DeclarationPlacesGrow(fs[..k], fs[k]);
    }
  }

  lemma ExpectedPlacesGrow(nodes: seq<Node>, n: Node)
    ensures |ExpectedPlaces(nodes + [n])| == |ExpectedPlaces(nodes)| + if IsDeclared(n.kind) then 1 else 0
  {
    var k := |nodes|;
    forall i | 0 <= i < k ensures (nodes + [n])[i] == nodes[i] {}
    assert ExpectedPlaces(nodes + [n]) == ExpectedPlaces(nodes) + (if IsDeclared(n.kind) then {k} else {});
    assert k !in ExpectedPlaces(nodes);
  }

  lemma {:induction false} ExpectedCounted(nodes: seq<Node>)
    ensures CountDefinitions(nodes) == |ExpectedPlaces(nodes)|
  {
    if nodes == [] {
      assert ExpectedPlaces(nodes) == {};
    } else {
      var before, n := nodes[..|nodes| - 1], nodes[|nodes| - 1];
      SplitLast(nodes);
      ExpectedCounted(before);
      ExpectedPlacesGrow(before, n);
    }
  }

  /** When the graph follows the code: as many functions are declared as there are datasets and sinks, a source that
      is not blank declares something, and every declared function is understood. */
  ghost predicate Follows(d: Document, tree: seq<PyFunction>, blank: bool) {
    && |DeclarationPlaces(tree)| == |ExpectedPlaces(d.nodes)|
    && (blank || DeclarationPlaces(tree) != {})
    && (forall f :: f in tree && DeclaredOnDp(f) ==> Understood(d, f))
  }

  lemma FollowsExactly(d: Document, tree: seq<PyFunction>, blank: bool)
    ensures Reconciled(Key, d, Some(tree), blank).Visual? <==> Follows(d, tree, blank)
  {
    var outputs := Filter(IsDeclaring(), tree);
    var byVar, start := ByVar(Key, d.nodes), Progress(ConfigsOf(d.nodes), true);
    DeclarationsCounted(tree);
    ExpectedCounted(d.nodes);
    FunctionsClean(IdList(d.nodes), byVar, start, outputs);
    FilterMembers(IsDeclaring(), tree);
    forall f ensures f in outputs <==> f in tree && DeclaredOnDp(f) { DeclaringExactly(f); }
    forall f ensures FunctionLegible(byVar, start.configs.Keys, f) <==> Understood(d, f) { UnderstoodExactly(d, f); }
  }

  // ---- Node by node ----

  /** Reading some values one after the other. */
  function Reread(config: Config, values: seq<Py>): Config {
    if values == [] then config
    else
      var before := Reread(config, values[..|values| - 1]);
      var reading := ReadValue(before, values[|values| - 1]);
      if reading.Applied? then reading.config else before
  }

  /** The values assigned to the variable of a node, in order. */
  function AssignedValues(byVar: map<string, string>, u: string, body: seq<Statement>): seq<Py> {
    if body == [] then []
    else
      var s := body[|body| - 1];
      AssignedValues(byVar, u, body[..|body| - 1]) + (if s.Assigns? && s.target in byVar && byVar[s.target] == u then [s.value] else [])
  }

  lemma RereadGrows(config: Config, values: seq<Py>, value: Py)
    ensures Reread(config, values + [value]) ==
            var before := Reread(config, values);
            if ReadValue(before, value).Applied? then ReadValue(before, value).config else before
    ensures Reread(config, values + []) == Reread(config, values)
  {
    assert (values + [value])[..|values|] == values && values + [] == values;
  }

  /** One statement concerns only the node whose variable it assigns. */
  lemma StatementReadsNode(byVar: map<string, string>, p: Progress, s: Statement, u: string)
    requires u in p.configs
    ensures u in ReadStatement(byVar, p, s).configs
    ensures ReadStatement(byVar, p, s).configs[u] ==
            if s.Assigns? && s.target in byVar && byVar[s.target] == u && ReadValue(p.configs[u], s.value).Applied?
            then ReadValue(p.configs[u], s.value).config else p.configs[u]
  {
  }

  /** A body is read node by node: each node gets what is assigned to its own variable, in order, whatever else is
      assigned in between. */
  lemma {:induction false} BodyReadsNodewise(byVar: map<string, string>, p: Progress, body: seq<Statement>, u: string)
    requires u in p.configs
    ensures u in ReadBody(byVar, p, body).configs
    ensures ReadBody(byVar, p, body).configs[u] == Reread(p.configs[u], AssignedValues(byVar, u, body))
  {
    if body != [] {
      var before, s := body[..|body| - 1], body[|body| - 1];
      BodyReadsNodewise(byVar, p, before, u);
      StatementReadsNode(byVar, ReadBody(byVar, p, before), s, u);
      if s.Assigns? {
        RereadGrows(p.configs[u], AssignedValues(byVar, u, before), s.value);
      } else {
        RereadGrows(p.configs[u], AssignedValues(byVar, u, before), OtherPy);
      }
    }
  }

  // ---- What decorators edit ----

  /** Entry k of node u is v, or as it was when v is None. */
  ghost predicate EntryIs(before: map<string, Config>, after: map<string, Config>, u: string, k: string, v: Option<Json>)
    requires u in before && u in after
  {
    if v.Some? then k in after[u] && after[u][k] == v.value
    else (k in after[u] <==> k in before[u]) && (k in before[u] ==> after[u][k] == before[u][k])
  }

  /** A known decorator with a text as first argument renames the first node named like its function; one of a change
      data capture flow writes its keys and its sequence column to that node or, if there is none, to the first node
      named like its target. Nothing else changes. */
  lemma DecoratorEdits(ids: seq<string>, p: Progress, name: string, dec: PyDecorator, u: string, k: string)
    requires dec.PyDecorator? && KnownDecorator(dec.attr) && u in p.configs
    ensures var q := ReadDecorator(ids, p, name, dec);
            var own := FindNamed(ids, p.configs, Some(name));
            var node := if own.Some? then own else FindNamed(ids, p.configs, dec.target);
            && q.clean == p.clean && q.configs.Keys == p.configs.Keys
            && EntryIs(p.configs, q.configs, u, k,
                     if k == "name" && own == Some(u) && dec.first.Some? then Some(Str(dec.first.value))
                     else if node != Some(u) || dec.attr != "create_auto_cdc_flow" then None
                     else if k == "keys" && dec.keys.Some? then Some(StrList(dec.keys.value))
                     else if k == "sequence_by" && dec.sequence.Some? then Some(Str(dec.sequence.value))
                     else None)
  {
  }

  /** Decorators without a text as first argument and without a change data capture flow edit nothing. */
  predicate Inert(f: PyFunction) {
    forall i :: 0 <= i < |f.decorators| && f.decorators[i].PyDecorator? ==>
      f.decorators[i].first.None? && f.decorators[i].attr != "create_auto_cdc_flow"
  }

  lemma {:induction false} InertDecorators(ids: seq<string>, p: Progress, name: string, decs: seq<PyDecorator>)
    requires forall i :: 0 <= i < |decs| && decs[i].PyDecorator? ==> decs[i].first.None? && decs[i].attr != "create_auto_cdc_flow"
    ensures ReadDecorators(ids, p, name, decs).configs == p.configs
  {
    if decs != [] { InertDecorators(ids, p, name, decs[..|decs| - 1]); }
  }

  /** The values that functions assign to the variable of a node, in order. */
  function AssignedIn(byVar: map<string, string>, u: string, fs: seq<PyFunction>): seq<Py> {
    if fs == [] then [] else AssignedIn(byVar, u, fs[..|fs| - 1]) + AssignedValues(byVar, u, fs[|fs| - 1].body)
  }

  lemma {:induction false} RereadAppend(config: Config, a: seq<Py>, b: seq<Py>)
    ensures Reread(config, a + b) == Reread(Reread(config, a), b)
  {
    if b == [] {
      assert a + b == a;
    } else {
      var before, last := b[..|b| - 1], b[|b| - 1];
      SplitLast(b);
      assert a + b == (a + before) + [last];
      RereadAppend(config, a, before);
      RereadGrows(config, a + before, last);
      RereadGrows(Reread(config, a), before, last);
    }
  }

  lemma {:induction false} FunctionsReadNodewise(ids: seq<string>, byVar: map<string, string>, p: Progress, fs: seq<PyFunction>, u: string)
    requires u in p.configs && forall f :: f in fs ==> Inert(f)
    ensures u in ReadFunctions(ids, byVar, p, fs).configs
    ensures ReadFunctions(ids, byVar, p, fs).configs[u] == Reread(p.configs[u], AssignedIn(byVar, u, fs))
  {
    if fs != [] {
      var before, f := fs[..|fs| - 1], fs[|fs| - 1];
      SplitLast(fs);
      assert Inert(f);
      FunctionsReadNodewise(ids, byVar, p, before, u);
      var q := ReadFunctions(ids, byVar, p, before);
      InertDecorators(ids, q, f.name, f.decorators);
      BodyReadsNodewise(byVar, ReadDecorators(ids, q, f.name, f.decorators), f.body, u);
      RereadAppend(p.configs[u], AssignedIn(byVar, u, before), AssignedValues(byVar, u, f.body));
    }
  }

  lemma {:induction false} ConfigsAre(nodes: seq<Node>)
    requires forall i, j :: 0 <= i < j < |nodes| ==> nodes[i].id != nodes[j].id
    ensures forall n :: n in nodes ==> n.id in ConfigsOf(nodes) && ConfigsOf(nodes)[n.id] == n.config
    ensures ConfigsOf(nodes).Keys == set n | n in nodes :: n.id
  {
    if nodes != [] {
      ConfigsAre(nodes[..|nodes| - 1]);
      SplitLast(nodes);
    }
  }

  /** The document that comes back holds, node by node, what the declared functions assign to the variable of the
      node, read in their order, when their decorators edit nothing. */
  lemma ComesBackNodewise(d: Document, tree: seq<PyFunction>, blank: bool, i: nat)
    requires d.UniqueIds() && i < |d.nodes| && Reconciled(Key, d, Some(tree), blank).Visual?
    requires forall f :: f in tree && DeclaredOnDp(f) ==> Inert(f)
    ensures var r := Reconciled(Key, d, Some(tree), blank).document.nodes;
            var values := AssignedIn(ByVar(Key, d.nodes), d.nodes[i].id, Filter(IsDeclaring(), tree));
            |r| == |d.nodes| && r[i] == d.nodes[i].(config := Reread(d.nodes[i].config, values))
  {
    var outputs := Filter(IsDeclaring(), tree);
    FilterMembers(IsDeclaring(), tree);
    forall f | f in outputs ensures Inert(f) {
      assert IsDeclaring()(f);
      DeclaringExactly(f);
    }
    ConfigsAre(d.nodes);
    assert d.nodes[i] in d.nodes;
    FunctionsReadNodewise(IdList(d.nodes), ByVar(Key, d.nodes), Progress(ConfigsOf(d.nodes), true), outputs, d.nodes[i].id);
  }

  // ---- The loops ----

  method ReadStatements(byVar: map<string, string>, start: Progress, body: seq<Statement>) returns (p: Progress)
    ensures p == ReadBody(byVar, start, body)
  {
    p := start;
    for i := 0 to |body|
      invariant p == ReadBody(byVar, start, body[..i])
    {
      assert body[..i + 1][..i] == body[..i];
      match body[i]
      case Capture => {}
      case Returns => {}
      case OtherStatement => p := p.(clean := false);
      case Assigns(v, value) =>
        if v in byVar && byVar[v] in p.configs {
          var node := byVar[v];
          match ReadValue(p.configs[node], value)
          case Applied(config) => p := p.(configs := p.configs[node := config]);
          case Ignored => {}
          case Refused => p := p.(clean := false);
        }
    }
    assert body[..|body|] == body;
  }

  method ReadOutputs(ids: seq<string>, byVar: map<string, string>, start: Progress, fs: seq<PyFunction>) returns (p: Progress)
    ensures p == ReadFunctions(ids, byVar, start, fs)
  {
    p := start;
    for i := 0 to |fs|
      invariant p == ReadFunctions(ids, byVar, start, fs[..i])
    {
      assert fs[..i + 1][..i] == fs[..i];
      var f := fs[i];
      var q := p;
      for j := 0 to |f.decorators|
        invariant q == ReadDecorators(ids, p, f.name, f.decorators[..j])
      {
        assert f.decorators[..j + 1][..j] == f.decorators[..j];
        q := ReadDecorator(ids, q, f.name, f.decorators[j]);
      }
      assert f.decorators[..|f.decorators|] == f.decorators;
      p := ReadStatements(byVar, q, f.body);
    }
    assert fs[..|fs|] == fs;
  }

  method IndexVariables(key: string -> string, nodes: seq<Node>) returns (byVar: map<string, string>, configs: map<string, Config>, count: nat)
    ensures byVar == ByVar(key, nodes) && configs == ConfigsOf(nodes) && count == CountDefinitions(nodes)
  {
    byVar, configs, count := map[], map[], 0;
    for i := 0 to |nodes|
      invariant byVar == ByVar(key, nodes[..i]) && configs == ConfigsOf(nodes[..i]) && count == CountDefinitions(nodes[..i])
    {
      assert nodes[..i + 1][..i] == nodes[..i];
      byVar := byVar[key(nodes[i].id) := nodes[i].id];
      configs := configs[nodes[i].id := nodes[i].config];
      if IsDeclared(nodes[i].kind) { count := count + 1; }
    }
    assert nodes[..|nodes|] == nodes;
  }

  /** `reconcile_python`. The document is returned unchanged unless every statement was understood. */
  method ReconcilePython(d: Document, tree: Option<seq<PyFunction>>, blank: bool) returns (r: Reconciliation)
    ensures r == Reconciled(Key, d, tree, blank)
    ensures r.Visual? <==> tree.Some? && Follows(d, tree.value, blank)
    ensures r.Custom? ==> r.kept == d
    ensures r.Visual? ==> r.document.edges == d.edges && (r.changed <==> r.document != d)
    ensures r.Visual? ==>
              && |r.document.nodes| == |d.nodes|
              && forall i :: 0 <= i < |d.nodes| ==> r.document.nodes[i] == d.nodes[i].(config := r.document.nodes[i].config)
  {
    if tree.Some? { FollowsExactly(d, tree.value, blank); }
    if tree.None? { return Custom(d); }
    var outputs := Filter(IsDeclaring(), tree.value);
    var byVar, configs, count := IndexVariables(Key, d.nodes);
    if (outputs == [] && !blank) || |outputs| != count { return Custom(d); }
    var p := ReadOutputs(IdList(d.nodes), byVar, Progress(configs, true), outputs);
    if !p.clean { return Custom(d); }
    var updated := Document(WithConfigs(d.nodes, p.configs), d.edges);
    r := Visual(updated, updated != d);
  }
}
