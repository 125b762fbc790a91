/** The graph database both stores write to: nodes found by their unique
    property, a node energy where the kind has one, and relationships with
    their payloads. Also the two node kinds whose insertion is the same in
    RePathDB/graph.py and AFIRdb/graph.py: Brutto and Molecule. */
module GraphDb {
  import opened Base
  import opened Mappings

  /** A relationship from node `src` to node `dst`, with its `mapping_json`
      (`mapping` in AFIRdb) property and its `energy` (barrier) property
      when the relationship model has them. */
  datatype Edge = Edge(src: nat, dst: nat, mapping: Option<Json>, energy: Option<real>)

  /** The relationship types, named as in the source. The direction is the
      one `connect` writes: B2C Brutto to Complex, M2C Molecule to Complex,
      E2C state to Complex, B2R Brutto to Reaction, C2R reactant Complex to
      Reaction, R2C product Complex to Reaction (as `Reaction.product`
      declares it), T2R transition state to Reaction, E2T state to
      transition state. */
  datatype Rel = B2C | M2C | E2C | B2R | C2R | R2C | T2R | E2T

  /** A node's label with its unique-indexed property. ES and TS nodes of
      AFIRdb carry no signature. */
  datatype Node =
    | BruttoNode(formula: string)
    | MoleculeNode(cgrdb: int)
    | ComplexNode(signature: string)
    | StateNode(geometry: Option<string>)
    | TransitionNode(geometry: Option<string>)
    | ReactionNode(signature: string)

  /** A label whose property is unique-indexed: every node but the
      signature-less states of AFIRdb. */
  predicate Keyed(n: Node) {
    !(n.StateNode? && n.geometry.None?) && !(n.TransitionNode? && n.geometry.None?)
  }

  /** The database. Node ids are handed out from `next`; `labels` says what
      each node is; `index` finds a node by its label and unique property;
      the relationships of each type are kept in the order they were
      created. */
  datatype Graph = Graph(
    next: nat,
    labels: map<nat, Node>,
    index: map<Node, nat>,
    energy: map<nat, real>,          // the `energy` property of a node
    rels: Rels)

  /** The relationships of each type, in the order they were created. */
  datatype Rels = Rels(
    b2c: seq<Edge>, m2c: seq<Edge>, e2c: seq<Edge>, b2r: seq<Edge>,
    c2r: seq<Edge>, r2c: seq<Edge>, t2r: seq<Edge>, e2t: seq<Edge>)

  /** No relationship of any type. */
  const NoRels := Rels([], [], [], [], [], [], [], [])

  function Of(rels: Rels, r: Rel): seq<Edge> {
    match r
    case B2C => rels.b2c
    case M2C => rels.m2c
    case E2C => rels.e2c
    case B2R => rels.b2r
    case C2R => rels.c2r
    case R2C => rels.r2c
    case T2R => rels.t2r
    case E2T => rels.e2t
  }

  /** `b` has the relationships of `a` of every type other than `r`. */
  predicate Others(a: Rels, b: Rels, r: Rel) {
    (r != B2C ==> b.b2c == a.b2c) && (r != M2C ==> b.m2c == a.m2c) && (r != E2C ==> b.e2c == a.e2c)
    && (r != B2R ==> b.b2r == a.b2r) && (r != C2R ==> b.c2r == a.c2r) && (r != R2C ==> b.r2c == a.r2c)
    && (r != T2R ==> b.t2r == a.t2r) && (r != E2T ==> b.e2t == a.e2t)
  }

  /** Types other than the one replaced keep their relationships. */
  lemma OthersOf(a: Rels, b: Rels, r: Rel, q: Rel)
    requires Others(a, b, r) && q != r
    ensures Of(b, q) == Of(a, q)
  {
  }

  /** `rels` with the relationships of type `r` replaced by `edges`. */
  function With(rels: Rels, r: Rel, edges: seq<Edge>): (s: Rels)
    ensures Of(s, r) == edges && Others(rels, s, r)
  {
    match r
    case B2C => rels.(b2c := edges)
    case M2C => rels.(m2c := edges)
    case E2C => rels.(e2c := edges)
    case B2R => rels.(b2r := edges)
    case C2R => rels.(c2r := edges)
    case R2C => rels.(r2c := edges)
    case T2R => rels.(t2r := edges)
    case E2T => rels.(e2t := edges)
  }

  const Empty := Graph(0, map[], map[], map[], NoRels)

  /** The relationships of type `r`. */
  function Edges(g: Graph, r: Rel): seq<Edge> {
    Of(g.rels, r)
  }

  /** What an insertion leaves behind: the database after it, including any
      writes made before an exception, and its outcome. */
  datatype Out<T> = Out(g: Graph, r: Result<T>)

  /** Both ends of every relationship are ids already handed out. */
  predicate EdgesBelow(edges: seq<Edge>, next: nat) {
    forall i :: 0 <= i < |edges| ==> edges[i].src < next && edges[i].dst < next
  }

  predicate RelsBelow(rels: Rels, next: nat) {
    forall r :: EdgesBelow(Of(rels, r), next)
  }

  /** Every node id in use is below `next`, and the index finds each node
      under its own label, so one unique property never names two nodes and
      nodes of different kinds never share an id. */
  predicate Valid(g: Graph) {
    (forall n :: n in g.labels ==> n < g.next)
    && (forall n :: n in g.energy ==> n in g.labels)
    && (forall k :: k in g.index ==> Keyed(k) && g.index[k] in g.labels && g.labels[g.index[k]] == k)
    && RelsBelow(g.rels, g.next)
  }

  /** `h` is `g` after more writes: no node, label or index entry is lost and
      every node that had an energy still has one. */
  predicate Extends(g: Graph, h: Graph) {
    g.next <= h.next
    && (forall n :: n in g.labels ==> n in h.labels && h.labels[n] == g.labels[n])
    && (forall n :: n in g.energy ==> n in h.energy)
    && (forall k :: k in g.index ==> k in h.index && h.index[k] == g.index[k])
  }

  lemma ExtendsTransitive(a: Graph, b: Graph, c: Graph)
    requires Extends(a, b) && Extends(b, c)
    ensures Extends(a, c)
  {
  }

  /** Only the nodes labelled in `changed` may have a new energy in `h`. */
  predicate EnergyKept(g: Graph, h: Graph, changed: set<Node>) {
    forall n :: n in g.energy && n in g.labels && g.labels[n] !in changed ==> n in h.energy && h.energy[n] == g.energy[n]
  }

  /** A step that leaves every energy as it was keeps what `EnergyKept`
      promised before it. */
  lemma EnergyKeptThrough(g: Graph, h: Graph, k: Graph, changed: set<Node>)
    requires EnergyKept(g, h, changed) && k.energy == h.energy
    ensures EnergyKept(g, k, changed)
  {
  }

  /** `is_connected`: some relationship in `edges` joins the two nodes. */
  predicate Connected(edges: seq<Edge>, src: nat, dst: nat) {
    exists i :: 0 <= i < |edges| && edges[i].src == src && edges[i].dst == dst
  }

  /** Every relationship in `edges` between the two nodes carries `e`'s
      properties. */
  predicate CarriesOnly(edges: seq<Edge>, e: Edge) {
    forall i :: 0 <= i < |edges| && edges[i].src == e.src && edges[i].dst == e.dst ==> edges[i] == e
  }

  /** `connect`: neomodel merges the relationship together with its
      properties (`MERGE (us)-[r:TYPE {props}]->(them)`), so a relationship
      joining the two nodes with the same properties is found and nothing
      is written, while one with other properties is added beside it. */
  function Connect(edges: seq<Edge>, e: Edge): (r: seq<Edge>)
    ensures r == if e in edges then edges else edges + [e]
    ensures Connected(r, e.src, e.dst) && EndsKept(edges, r)
    ensures !Connected(edges, e.src, e.dst) ==> r == edges + [e] && CarriesOnly(r, e)
  {
    if e in edges then edges
    else
      assert (edges + [e])[|edges|] == e;
      edges + [e]
  }

  /** `connect` of each relationship of `es` in turn. */
  function Merge(edges: seq<Edge>, es: seq<Edge>): (r: seq<Edge>)
    ensures edges <= r && |r| <= |edges| + |es|
    ensures forall i :: 0 <= i < |es| ==> es[i] in r
    ensures forall i :: |edges| <= i < |r| ==> r[i] in es && r[i] !in edges
    decreases |es|
  {
    if es == [] then edges
    else
      var init := es[..|es| - 1];
      var m := Merge(edges, init);
      assert forall i :: 0 <= i < |init| ==> es[i] == init[i];
      Connect(m, es[|es| - 1])
  }

  /** Relationships that differ from one another and from those already
      there are each added, in order. */
  lemma {:induction false} MergeFresh(edges: seq<Edge>, es: seq<Edge>)
    requires forall i, j :: 0 <= i < j < |es| ==> es[i] != es[j]
    requires forall i :: 0 <= i < |es| ==> es[i] !in edges
    ensures Merge(edges, es) == edges + es
    decreases |es|
  {
    if es != [] {
      var init := es[..|es| - 1];
      var e := es[|es| - 1];
      assert forall k :: 0 <= k < |init| ==> init[k] == es[k];
      MergeFresh(edges, init);
      assert e !in edges + init;
      assert Merge(edges, es) == Connect(edges + init, e) == edges + init + [e];
      Snoc(es);
      Regroup(edges, init, [e]);
    }
  }

  /** Merging relationships that are all there already writes nothing. */
  lemma {:induction false} MergeKnown(edges: seq<Edge>, es: seq<Edge>)
    requires forall i :: 0 <= i < |es| ==> es[i] in edges
    ensures Merge(edges, es) == edges
    decreases |es|
  {
    if es != [] {
      MergeKnown(edges, es[..|es| - 1]);
    }
  }

  /** `b` keeps, position by position, the two ends of every relationship
      of `a`: properties may have been set, nothing was removed. */
  predicate EndsKept(a: seq<Edge>, b: seq<Edge>) {
    |a| <= |b| && forall i :: 0 <= i < |a| ==> b[i].src == a[i].src && b[i].dst == a[i].dst
  }

  lemma EndsKeptTransitive(a: seq<Edge>, b: seq<Edge>, c: seq<Edge>)
    requires EndsKept(a, b) && EndsKept(b, c)
    ensures EndsKept(a, c)
  {
  }

  /** Nodes that were joined stay joined. */
  lemma EndsKeptConnected(a: seq<Edge>, b: seq<Edge>, src: nat, dst: nat)
    requires EndsKept(a, b) && Connected(a, src, dst)
    ensures Connected(b, src, dst)
  {
    var i :| 0 <= i < |a| && a[i].src == src && a[i].dst == dst;
    assert b[i].src == src && b[i].dst == dst;
  }

  /** `connect` on the database: a relationship of type `r` between two
      existing nodes. */
  function Link(g: Graph, r: Rel, e: Edge): (h: Graph)
    requires Valid(g) && e.src < g.next && e.dst < g.next
    ensures Valid(h) && Extends(g, h) && h == g.(rels := h.rels)
    ensures Edges(h, r) == Connect(Edges(g, r), e) && Others(g.rels, h.rels, r)
  {
    var edges := Connect(Edges(g, r), e);
    var h := g.(rels := With(g.rels, r, edges));
    assert RelsBelow(h.rels, h.next) by {
      forall q ensures EdgesBelow(Of(h.rels, q), h.next) {
        assert EdgesBelow(Of(g.rels, q), g.next);
        if q != r {
          OthersOf(g.rels, h.rels, r, q);
        }
      }
    }
    h
  }

  /** `connect` behind `is_connected`: `e` is appended only when no
      relationship joins its two ends yet, so a relationship already there
      keeps its properties. */
  function Once(edges: seq<Edge>, e: Edge): (r: seq<Edge>)
    ensures edges <= r && |r| <= |edges| + 1 && Connected(r, e.src, e.dst)
    ensures |r| == |edges| + 1 <==> !Connected(edges, e.src, e.dst)
    ensures |r| == |edges| + 1 ==> r[|edges|] == e
  {
    if Connected(edges, e.src, e.dst) then edges
    else
      assert (edges + [e])[|edges|] == e;
      edges + [e]
  }

  /** `if not is_connected: connect` on the database: a relationship between
      two nodes not yet joined is added at the end; otherwise nothing
      changes. */
  function LinkOnce(g: Graph, r: Rel, e: Edge): (h: Graph)
    requires Valid(g) && e.src < g.next && e.dst < g.next
    ensures Valid(h) && Extends(g, h) && h == g.(rels := h.rels)
    ensures Connected(Edges(h, r), e.src, e.dst)
    ensures Edges(g, r) <= Edges(h, r) && |Edges(h, r)| <= |Edges(g, r)| + 1
    ensures Connected(Edges(g, r), e.src, e.dst) <==> h == g
    ensures !Connected(Edges(g, r), e.src, e.dst) ==> Edges(h, r) == Edges(g, r) + [e]
    ensures Edges(h, r) == Once(Edges(g, r), e)
    ensures Others(g.rels, h.rels, r)
  {
    if Connected(Edges(g, r), e.src, e.dst) then g else Link(g, r, e)
  }

  /** The bound of `Valid` for each relationship type. */
  lemma FieldsBelow(g: Graph)
    requires Valid(g)
    ensures EdgesBelow(g.rels.b2c, g.next) && EdgesBelow(g.rels.m2c, g.next) && EdgesBelow(g.rels.e2c, g.next)
    ensures EdgesBelow(g.rels.b2r, g.next) && EdgesBelow(g.rels.c2r, g.next) && EdgesBelow(g.rels.r2c, g.next)
    ensures EdgesBelow(g.rels.t2r, g.next) && EdgesBelow(g.rels.e2t, g.next)
  {
    assert EdgesBelow(Of(g.rels, B2C), g.next) && EdgesBelow(Of(g.rels, M2C), g.next);
    assert EdgesBelow(Of(g.rels, E2C), g.next) && EdgesBelow(Of(g.rels, B2R), g.next);
    assert EdgesBelow(Of(g.rels, C2R), g.next) && EdgesBelow(Of(g.rels, R2C), g.next);
    assert EdgesBelow(Of(g.rels, T2R), g.next) && EdgesBelow(Of(g.rels, E2T), g.next);
  }

  /** An id not yet handed out is an end of no relationship. */
  lemma NotAnEnd(edges: seq<Edge>, next: nat, m: nat, n: nat)
    requires EdgesBelow(edges, next) && next <= n
    ensures !Connected(edges, m, n) && !Connected(edges, n, m)
  {
  }

  /** A node never handed out is joined to nothing. */
  lemma Unconnected(g: Graph, r: Rel, n: nat)
    requires Valid(g) && g.next <= n
    ensures forall m :: !Connected(Edges(g, r), n, m) && !Connected(Edges(g, r), m, n)
  {
    assert EdgesBelow(Of(g.rels, r), g.next);
  }

  /** `save()` of a new node: it takes the next id and its label, and enters
      the index under that label if its property is unique-indexed. */
  function Saved(g: Graph, n: Node): (h: Graph)
    requires Valid(g) && n !in g.index
    ensures Valid(h) && Extends(g, h) && h.rels == g.rels && h.energy == g.energy
    ensures h.next == g.next + 1 && h.labels == g.labels[g.next := n]
    ensures h.index == if Keyed(n) then g.index[n := g.next] else g.index
  {
    var h := g.(next := g.next + 1, labels := g.labels[g.next := n],
      index := if Keyed(n) then g.index[n := g.next] else g.index);
    assert RelsBelow(h.rels, h.next) by {
      forall r ensures EdgesBelow(Of(h.rels, r), h.next) {
        assert EdgesBelow(Of(g.rels, r), g.next);
      }
    }
    h
  }

  /** `save()` of a new node together with its `energy` property. */
  function SavedWithEnergy(g: Graph, n: Node, e: real): (h: Graph)
    requires Valid(g) && n !in g.index
    ensures Valid(h) && Extends(g, h) && h.rels == g.rels && EnergyKept(g, h, {})
    ensures h.next == g.next + 1 && h.labels == g.labels[g.next := n] && h.energy == g.energy[g.next := e]
    ensures h.index == if Keyed(n) then g.index[n := g.next] else g.index
  {
    var h := Saved(g, n);
    h.(energy := h.energy[g.next := e])
  }

  /** `Brutto(structure, **kwargs)` (RePathDB/graph.py:85-93, AFIRdb/graph.py:71-79)
      for a structure whose formula is `formula` (see `Formula.FormulaOf`):
      a structure together with keyword arguments is a ValueError; otherwise
      the node whose `brutto` is the formula, created if missing. */
  function PutBrutto(g: Graph, formula: string, hasKwargs: bool): (o: Out<nat>)
    requires Valid(g)
    ensures Valid(o.g) && Extends(g, o.g) && o.g.rels == g.rels && o.g.energy == g.energy
    ensures o.g.index.Keys <= g.index.Keys + {BruttoNode(formula)}
    ensures o.r.Err? <==> hasKwargs
    ensures o.r.Err? ==> o.r.error == ValueError && o.g == g
    ensures o.r.Ok? ==> BruttoNode(formula) in o.g.index && o.g.index[BruttoNode(formula)] == o.r.value
    ensures BruttoNode(formula) in g.index ==> o.g == g
    ensures o.r.Ok? && BruttoNode(formula) !in g.index ==> o.r.value == g.next && o.g == Saved(g, BruttoNode(formula))
  {
    if hasKwargs then Out(g, Err(ValueError))
    else
      var brutto := BruttoNode(formula);
      if brutto in g.index then Out(g, Ok(g.index[brutto]))
      else Out(Saved(g, brutto), Ok(g.next))
  }

  /** One component of `structure.split()` as the chemistry library answers
      for it: the CGRdb record `find_structure` finds, if any; the id CGRdb
      gives a new record otherwise; and `get_mapping` from the stored
      molecule onto the component. */
  datatype Part = Part(found: Option<int>, newId: int, mapping: Mapping)

  /** The CGRdb id the Molecule node of a component carries. */
  function Key(p: Part): int {
    if p.found.Some? then p.found.value else p.newId
  }

  /** `Molecule(structure)` (RePathDB/graph.py:109-121, AFIRdb/graph.py:94-105):
      a molecule already in CGRdb gets or creates the node with that
      `cgrdb`; a new one is written to CGRdb and its node saved, which is a
      uniqueness violation if a node already carries the new id. */
  function PutMolecule(g: Graph, p: Part): (o: Out<nat>)
    requires Valid(g)
    ensures Valid(o.g) && Extends(g, o.g) && o.g.rels == g.rels && o.g.energy == g.energy
    ensures o.g.index.Keys <= g.index.Keys + {MoleculeNode(Key(p))}
    ensures o.r.Err? <==> p.found.None? && MoleculeNode(p.newId) in g.index
    ensures o.r.Err? ==> o.r.error == UniqueViolation && o.g == g
    ensures o.r.Ok? ==> MoleculeNode(Key(p)) in o.g.index && o.g.index[MoleculeNode(Key(p))] == o.r.value
    ensures MoleculeNode(Key(p)) in g.index ==> o.g == g
    ensures MoleculeNode(Key(p)) !in g.index ==> o.r.value == g.next && o.g == Saved(g, MoleculeNode(Key(p)))
  {
    var molecule := MoleculeNode(Key(p));
    if molecule in g.index then
      if p.found.Some? then Out(g, Ok(g.index[molecule])) else Out(g, Err(UniqueViolation))
    else
      Out(Saved(g, molecule), Ok(g.next))
  }

  /** The database as a mutable object: the node store and the
      relationships, updated by the insertions. */
  class Db {
    var next: nat
    var labels: map<nat, Node>
    var index: map<Node, nat>
    var energy: map<nat, real>
    var rels: Rels

    function Snapshot(): Graph
      reads this
    {
      Graph(next, labels, index, energy, rels)
    }

    /** An empty database. */
    constructor ()
      ensures Snapshot() == Empty
    {
      next, labels, index, energy, rels := 0, map[], map[], map[], NoRels;
    }

    /** `save()` of a new node. */
    method Save(kind: Node) returns (id: nat)
      requires Valid(Snapshot()) && kind !in index
      modifies this
      ensures id == old(next) && Snapshot() == Saved(old(Snapshot()), kind)
    {
      id := next;
      next := next + 1;
      labels := labels[id := kind];
      if Keyed(kind) {
        index := index[kind := id];
      }
    }

    /** `save()` of a new node that carries an `energy` property. */
    method SaveWithEnergy(kind: Node, e: real) returns (id: nat)
      requires Valid(Snapshot()) && kind !in index
      modifies this
      ensures id == old(next) && Snapshot() == SavedWithEnergy(old(Snapshot()), kind, e)
    {
      id := Save(kind);
      energy := energy[id := e];
    }

    /** Assignment of the `energy` property of node `id`, then `save()`. */
    method SetEnergy(id: nat, e: real)
      modifies this
      ensures Snapshot() == old(Snapshot()).(energy := old(energy)[id := e])
    {
      energy := energy[id := e];
    }

    /** `connect` of a relationship of type `r`. */
    method Join(r: Rel, e: Edge)
      requires Valid(Snapshot()) && e.src < next && e.dst < next
      modifies this
      ensures Snapshot() == Link(old(Snapshot()), r, e)
    {
      rels := With(rels, r, Connect(Of(rels, r), e));
    }

    /** `if not is_connected: connect`. */
    method JoinOnce(r: Rel, e: Edge)
      requires Valid(Snapshot()) && e.src < next && e.dst < next
      modifies this
      ensures Snapshot() == LinkOnce(old(Snapshot()), r, e)
    {
      var b := IsConnected(r, e.src, e.dst);
      if !b {
        Join(r, e);
      }
    }

    /** `is_connected` on the relationships of type `r`. */
    method IsConnected(r: Rel, src: nat, dst: nat) returns (b: bool)
      ensures b <==> Connected(Edges(Snapshot(), r), src, dst)
    {
      b := Joined(Of(rels, r), src, dst);
    }
  }

  /** `is_connected`: a scan of the relationships for one joining the two
      nodes. */
  method Joined(edges: seq<Edge>, src: nat, dst: nat) returns (b: bool)
    ensures b <==> Connected(edges, src, dst)
  {
    b := false;
    var i := 0;
    while i < |edges|
      invariant 0 <= i <= |edges|
      invariant b <==> exists j :: 0 <= j < i && edges[j].src == src && edges[j].dst == dst
    {
      if edges[i].src == src && edges[i].dst == dst {
        b := true;
      }
      i := i + 1;
    }
  }

  /** `Brutto(structure)` on the database object. */
  method AddBrutto(db: Db, formula: string, hasKwargs: bool) returns (r: Result<nat>)
    requires Valid(db.Snapshot())
    modifies db
    ensures Out(db.Snapshot(), r) == PutBrutto(old(db.Snapshot()), formula, hasKwargs)
  {
    if hasKwargs {
      return Err(ValueError);
    }
    var brutto := BruttoNode(formula);
    if brutto in db.index {
      return Ok(db.index[brutto]);
    }
    var id := db.Save(brutto);
    return Ok(id);
  }

  /** `Molecule(structure)` on the database object. */
  method AddMolecule(db: Db, p: Part) returns (r: Result<nat>)
    requires Valid(db.Snapshot())
    modifies db
    ensures Out(db.Snapshot(), r) == PutMolecule(old(db.Snapshot()), p)
  {
    var molecule := MoleculeNode(Key(p));
    if molecule in db.index {
      if p.found.None? {
        return Err(UniqueViolation);
      }
      return Ok(db.index[molecule]);
    }
    var id := db.Save(molecule);
    return Ok(id);
  }
}
