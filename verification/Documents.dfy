/** The persisted pipeline document (python/sdpstudio_core/models.py). */
module Documents {
  import opened Sorting
  import opened Digraph

  datatype Option<+T> = None | Some(value: T)

  datatype Result<+T, +E> = Success(value: T) | Failure(error: E)

  function Lower(c: char): char {
    if 'A' <= c <= 'Z' then (c as int + 32) as char else c
  }

  /** `str.lower` on ASCII letters. */
  function LowerAll(s: string): string {
    seq(|s|, i requires 0 <= i < |s| => Lower(s[i]))
  }

  /** A JSON value. An object is a map: Python dictionaries compare without regard to order. */
  datatype Json =
    | Null
    | Bool(b: bool)
    | Int(n: int)
    | Float(x: real)
    | Str(s: string)
    | List(items: seq<Json>)
    | Dict(fields: map<string, Json>)

  type Config = map<string, Json>

  /** An operator type, such as "transform.filter", sorted by how the compiler treats it: Combine
      holds the transforms with a left and a right input, Split is "quality.quarantine_split" and
      ComponentInput is "utility.component_input"; the other constructors follow the text before the
      first dot. */
  datatype Kind =
    | Source(op: string)
    | ComponentInput
    | Transform(op: string)
    | Combine(op: string)
    | Quality(op: string)
    | Split
    | Utility(op: string)
    | Dataset(op: string)
    | Sink(op: string)
    | Unknown(name: string)
  {
    predicate IsDefinition() { Dataset? || Sink? }

    /** `type.startswith("quality.")`. */
    predicate IsQuality() { Quality? || Split? }
  }

  /** A port name; Other holds any name the catalog does not use. */
  datatype Port = In | Left | Right | Reference | Out | Accepted | Quarantine | Other(name: string)
  {
    function Text(): string {
      match this
      case In => "in"
      case Left => "left"
      case Right => "right"
      case Reference => "reference"
      case Out => "out"
      case Accepted => "accepted"
      case Quarantine => "quarantine"
      case Other(name) => name
    }
  }

  datatype PortRef = PortRef(node: string, port: Port)

  datatype Node = Node(id: string, kind: Kind, config: Config)

  datatype Edge = Edge(id: string, src: PortRef, dst: PortRef)

  datatype Document = Document(nodes: seq<Node>, edges: seq<Edge>) {

    /** Both id lists are free of repeats; the document model rejects anything else. */
    ghost predicate UniqueIds() {
      && (forall i, j :: 0 <= i < j < |nodes| ==> nodes[i].id != nodes[j].id)
      && (forall i, j :: 0 <= i < j < |edges| ==> edges[i].id != edges[j].id)
    }

    function Ids(): set<string> { set n | n in nodes :: n.id }

    ghost predicate Has(id: string, n: Node) { n in nodes && n.id == id }

    /** `index.nodes[id]`. */
    ghost function At(id: string): (n: Node)
      requires id in Ids()
      ensures Has(id, n)
    {
      var m :| m in nodes && m.id == id;
      assert Has(id, m);
      var n :| Has(id, n);
      n
    }

    ghost function KindAt(id: string): Kind
      requires id in Ids()
    {
      At(id).kind
    }

    /** Every edge joins two nodes of the document. */
    ghost predicate Closed() {
      forall e :: e in edges ==> e.src.node in Ids() && e.dst.node in Ids()
    }

    /** The edges between existing nodes, as a relation on node ids. */
    ghost function Arcs(): Relation {
      set e | e in edges && e.src.node in Ids() && e.dst.node in Ids() :: (e.src.node, e.dst.node)
    }
  }

  function FromNode(v: string): Edge -> bool { (e: Edge) => e.src.node == v }

  function IntoNode(v: string): Edge -> bool { (e: Edge) => e.dst.node == v }

  function Outgoing(d: Document, v: string): seq<Edge> { Filter(FromNode(v), d.edges) }

  function Incoming(d: Document, v: string): seq<Edge> { Filter(IntoNode(v), d.edges) }

  lemma IncomingMembers(d: Document, v: string)
    ensures forall e :: e in Incoming(d, v) <==> e in d.edges && e.dst.node == v
  {
    FilterMembers(IntoNode(v), d.edges);
  }

  lemma OutgoingMembers(d: Document, v: string)
    ensures forall e :: e in Outgoing(d, v) <==> e in d.edges && e.src.node == v
  {
    FilterMembers(FromNode(v), d.edges);
  }

  lemma ArcMembers(d: Document, a: string, b: string)
    ensures (a, b) in d.Arcs() <==>
            a in d.Ids() && b in d.Ids() && exists e :: e in d.edges && e.src.node == a && e.dst.node == b
  {
  }

  lemma AtUnique(d: Document, n: Node)
    requires d.UniqueIds() && n in d.nodes
    ensures n.id in d.Ids() && d.At(n.id) == n
  {
    var m := d.At(n.id);
    var i :| 0 <= i < |d.nodes| && d.nodes[i] == n;
    var j :| 0 <= j < |d.nodes| && d.nodes[j] == m;
    assert !(i < j) && !(j < i);
  }

  lemma EdgeUnique(d: Document, a: Edge, b: Edge)
    requires d.UniqueIds() && a in d.edges && b in d.edges && a.id == b.id
    ensures a == b
  {
    var i :| 0 <= i < |d.edges| && d.edges[i] == a;
    var j :| 0 <= j < |d.edges| && d.edges[j] == b;
    assert !(i < j) && !(j < i);
  }

  lemma {:induction false} IdCount(d: Document)
    requires d.UniqueIds()
    ensures |d.Ids()| == |d.nodes|
  {
    var ids := seq(|d.nodes|, i requires 0 <= i < |d.nodes| => d.nodes[i].id);
    assert Distinct(ids);
    DistinctCount(ids);
    forall x ensures x in ids <==> x in d.Ids() {
      if x in d.Ids() {
        var n :| n in d.nodes && n.id == x;
        var i :| 0 <= i < |d.nodes| && d.nodes[i] == n;
        assert ids[i] == x;
      }
    }
    assert (set x | x in ids) == d.Ids();
  }

  /** Two documents with the same nodes and edges, listed in any order. */
  ghost predicate SameGraph(d: Document, d': Document) {
    multiset(d.nodes) == multiset(d'.nodes) && multiset(d.edges) == multiset(d'.edges)
  }

  lemma SameGraphMembers(d: Document, d': Document)
    requires SameGraph(d, d')
    ensures forall n :: n in d.nodes <==> n in d'.nodes
    ensures forall e :: e in d.edges <==> e in d'.edges
    ensures d.Ids() == d'.Ids() && d.Arcs() == d'.Arcs() && |d.nodes| == |d'.nodes|
  {
    forall n ensures n in d.nodes <==> n in d'.nodes {
      assert n in d.nodes <==> n in multiset(d.nodes);
      assert n in d'.nodes <==> n in multiset(d'.nodes);
    }
    forall e ensures e in d.edges <==> e in d'.edges {
      assert e in d.edges <==> e in multiset(d.edges);
      assert e in d'.edges <==> e in multiset(d'.edges);
    }
    assert |d.nodes| == |multiset(d.nodes)| == |multiset(d'.nodes)| == |d'.nodes|;
  }

  lemma SameGraphUnique(d: Document, d': Document)
    requires SameGraph(d, d') && d.UniqueIds()
    ensures d'.UniqueIds()
  {
    forall i, j | 0 <= i < j < |d'.nodes| ensures d'.nodes[i].id != d'.nodes[j].id {
      SharedIdRepeats((n: Node) => n.id, d.nodes, d'.nodes, i, j);
    }
    forall i, j | 0 <= i < j < |d'.edges| ensures d'.edges[i].id != d'.edges[j].id {
      SharedIdRepeats((e: Edge) => e.id, d.edges, d'.edges, i, j);
    }
  }

  lemma SameNode(d: Document, d': Document, id: string)
    requires d.UniqueIds() && SameGraph(d, d') && id in d.Ids()
    ensures id in d'.Ids() && d'.At(id) == d.At(id)
  {
    SameGraphMembers(d, d');
    SameGraphUnique(d, d');
    assert d.Has(id, d.At(id));
    AtUnique(d', d.At(id));
  }

  lemma TwoPlaces<T>(s: seq<T>, i: nat, j: nat)
    requires i < j < |s|
    ensures s[i] != s[j] || multiset(s)[s[i]] >= 2
  {
    assert s == s[..i] + [s[i]] + s[i + 1..j] + [s[j]] + s[j + 1..];
  }

  lemma {:induction false} OnePlace<T>(s: seq<T>, x: T)
    requires Distinct(s)
    ensures multiset(s)[x] <= 1
  {
    if s != [] {
      OnePlace(s[1..], x);
      assert s == [s[0]] + s[1..];
      if x == s[0] { assert x !in s[1..]; assert x !in multiset(s[1..]); }
    }
  }

  lemma SharedIdRepeats<T>(key: T -> string, s: seq<T>, t: seq<T>, i: nat, j: nat)
    requires multiset(s) == multiset(t) && i < j < |t|
    requires forall i, j :: 0 <= i < j < |s| ==> key(s[i]) != key(s[j])
    ensures key(t[i]) != key(t[j])
  {
    TwoPlaces(t, i, j);
    OnePlace(s, t[i]);
    assert t[i] in multiset(t) && t[j] in multiset(t);
    assert t[i] in multiset(s) && t[j] in multiset(s);
    var a :| 0 <= a < |s| && s[a] == t[i];
    var b :| 0 <= b < |s| && s[b] == t[j];
    assert a != b;
  }
}
