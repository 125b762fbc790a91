/** The RePathDB entity store (RePathDB/graph.py): complexes and reactions
    keep the lowest energy seen, equilibrium and transition states are
    found by their geometry signature, and each insertion links what it
    finds or creates. */
module RePathStore {
  import opened Base
  import opened Mappings
  import opened GraphDb
  import Formula

  function Min(a: real, b: real): real {
    if a <= b then a else b
  }

  /** The barrier stored on a relationship into a TS or a reaction: the TS
      energy less the energy of the state or complex it starts from. */
  function Barrier(te: real, e: real): real {
    te - e
  }

  /** Complexes, states, transition states and reactions are saved with an
      energy. */
  predicate Energetic(g: Graph) {
    forall k :: k in g.index && !k.BruttoNode? && !k.MoleculeNode? ==> g.index[k] in g.energy
  }

  /** Energies are kept for every node that had one, so only new nodes with
      an energy-bearing label need checking. */
  lemma EnergeticGrow(g: Graph, h: Graph)
    requires Energetic(g) && Extends(g, h)
    requires forall k :: k in h.index && !k.BruttoNode? && !k.MoleculeNode? && k !in g.index ==> h.index[k] in h.energy
    ensures Energetic(h)
  {
  }

  /** Energies of nodes outside `s1` and then outside `s2` are those of
      nodes outside both. */
  lemma EnergyKeptTransitive(a: Graph, b: Graph, c: Graph, s1: set<Node>, s2: set<Node>)
    requires Extends(a, b) && EnergyKept(a, b, s1) && EnergyKept(b, c, s2)
    ensures EnergyKept(a, c, s1 + s2)
  {
  }

  /** The same when the first step changed no energy. */
  lemma EnergyKeptAfter(a: Graph, b: Graph, c: Graph, s: set<Node>)
    requires Extends(a, b) && EnergyKept(a, b, {}) && EnergyKept(b, c, s)
    ensures EnergyKept(a, c, s)
  {
  }

  /** A geometry as the chemistry library describes it for an insertion. */
  datatype Geometry = Geometry(
    signature: string,      // str(structure): the complex signature
    conformer: string,      // the rounded-coordinates signature of the ES or TS
    energy: real,           // structure.meta['energy']
    symbols: seq<string>,   // the atoms' element symbols, for the Brutto formula
    atoms: seq<int>,        // the atom numbers
    parts: seq<Part>,       // structure.split()
    toStored: Mapping)      // get_mapping onto the stored complex, when there is one

  /** A reaction as the chemistry library describes it for an insertion. */
  datatype ReactionInput = ReactionInput(
    reactant: Geometry,
    product: Geometry,
    ts: Geometry,
    signature: string,          // str(r ^ p): the signature of the reaction's CGR
    toStored: Mapping,          // get_mapping of the CGR onto the stored reaction
    reactantMapping: Mapping,   // get_mapping of the reactant complex onto r
    productMapping: Mapping)    // get_mapping of the product complex onto p

  // Equilibrium and transition states

  datatype Kind = ES | TS

  function Label(kind: Kind, geometry: string): Node {
    if kind == ES then StateNode(Some(geometry)) else TransitionNode(Some(geometry))
  }

  /** The duplicate test on an existing geometry signature (lines 362 and
      496): it fires when the stored and the new energy agree to within
      0.000001, not when they differ. */
  predicate Close(stored: real, energy: real) {
    -0.000001 < stored - energy < 0.000001
  }

  /** `EquilibriumState(structure)` (lines 348-365) and
      `TransitionState(structure)` (lines 482-499): a new geometry signature
      is saved with its energy; an existing one is returned as it is, or
      refused as a ValueError when the energies are close. */
  function PutConformer(g: Graph, kind: Kind, geometry: string, energy: real): (o: Out<nat>)
    requires Valid(g) && Energetic(g)
    ensures Valid(o.g) && Energetic(o.g) && Extends(g, o.g) && EnergyKept(g, o.g, {}) && o.g.rels == g.rels
    ensures o.g.index.Keys <= g.index.Keys + {Label(kind, geometry)} && NoNewReaction(g, o.g)
    ensures o.r.Err? <==> Label(kind, geometry) in g.index && Close(g.energy[g.index[Label(kind, geometry)]], energy)
    ensures o.r.Err? ==> o.r.error == ValueError
    ensures o.r.Ok? ==>
      Label(kind, geometry) in o.g.index && o.g.index[Label(kind, geometry)] == o.r.value && o.r.value in o.g.energy
    ensures Label(kind, geometry) in g.index ==> o.g == g
    ensures Label(kind, geometry) !in g.index ==>
      o.r == Ok(g.next) && o.g == SavedWithEnergy(g, Label(kind, geometry), energy)
  {
    var node := Label(kind, geometry);
    if node in g.index then
      var id := g.index[node];
      if Close(g.energy[id], energy) then Out(g, Err(ValueError)) else Out(g, Ok(id))
    else
      Out(SavedWithEnergy(g, node, energy), Ok(g.next))
  }

  /** A state saved anew and then saved again with the same energy is
      refused the second time: the duplicate test fires on equal energies. */
  lemma ConformerTwice(g: Graph, kind: Kind, geometry: string, energy: real)
    requires Valid(g) && Energetic(g) && Label(kind, geometry) !in g.index
    ensures var first := PutConformer(g, kind, geometry, energy);
      first.r.Ok? && PutConformer(first.g, kind, geometry, energy) == Out(first.g, Err(ValueError))
  {
  }

  // Complexes

  /** Component `i` of `parts` is a new molecule whose CGRdb id is already
      taken, by a node of `index` or by an earlier component. */
  predicate Clash(index: map<Node, nat>, parts: seq<Part>, i: int)
    requires 0 <= i < |parts|
  {
    parts[i].found.None?
    && (MoleculeNode(parts[i].newId) in index || exists j :: 0 <= j < i && Key(parts[j]) == parts[i].newId)
  }

  /** Some component clashes. */
  predicate AnyClash(index: map<Node, nat>, parts: seq<Part>) {
    exists i :: 0 <= i < |parts| && Clash(index, parts, i)
  }

  /** The Molecule labels of the components' CGRdb ids. */
  function MoleculesOf(parts: seq<Part>): (s: set<Node>)
    ensures forall i :: 0 <= i < |parts| ==> MoleculeNode(Key(parts[i])) in s
    ensures forall k :: k in s ==> k.MoleculeNode?
  {
    set i | 0 <= i < |parts| :: MoleculeNode(Key(parts[i]))
  }

  lemma MoleculesOfSnoc(parts: seq<Part>, p: Part)
    ensures MoleculesOf(parts + [p]) == MoleculesOf(parts) + {MoleculeNode(Key(p))}
  {
    var all := parts + [p];
    assert all[|parts|] == p;
    forall n | n in MoleculesOf(all) ensures n in MoleculesOf(parts) + {MoleculeNode(Key(p))} {
      var i :| 0 <= i < |all| && n == MoleculeNode(Key(all[i]));
      if i < |parts| {
        assert all[i] == parts[i];
      }
    }
    forall n | n in MoleculesOf(parts) ensures n in MoleculesOf(all) {
      var i :| 0 <= i < |parts| && n == MoleculeNode(Key(parts[i]));
      assert all[i] == parts[i];
    }
  }

  lemma MoleculesOfWitness(parts: seq<Part>, n: Node) returns (j: nat)
    requires n in MoleculesOf(parts)
    ensures j < |parts| && n == MoleculeNode(Key(parts[j]))
  {
    j :| 0 <= j < |parts| && n == MoleculeNode(Key(parts[j]));
  }

  /** The Molecule node of every component is in `index`. */
  predicate Indexed(index: map<Node, nat>, parts: seq<Part>) {
    forall i :: 0 <= i < |parts| ==> MoleculeNode(Key(parts[i])) in index
  }

  /** The M2C relationship of component `p` into complex `id`: from its
      Molecule node, carrying its mapping. */
  function PartEdge(index: map<Node, nat>, id: nat, p: Part): Edge
    requires MoleculeNode(Key(p)) in index
  {
    Edge(index[MoleculeNode(Key(p))], id, Some(ToJson(p.mapping)), None)
  }

  /** The M2C relationships of the components, in order. */
  function PartEdges(index: map<Node, nat>, id: nat, parts: seq<Part>): seq<Edge>
    requires Indexed(index, parts)
  {
    seq(|parts|, i requires 0 <= i < |parts| => PartEdge(index, id, parts[i]))
  }

  /** No two components are the same molecule under the same mapping, as
      the components of one `split()` cover different atoms. */
  predicate Distinct(parts: seq<Part>) {
    forall i, j :: 0 <= i < j < |parts| ==> Key(parts[i]) != Key(parts[j]) || parts[i].mapping != parts[j].mapping
  }

  /** One pass of the loop at lines 236-238: the component's Molecule node
      is found or created and connected to complex `id` with the
      component's mapping. */
  function LinkPart(g: Graph, id: nat, p: Part): (o: Out<()>)
    requires Valid(g) && id < g.next
    ensures Valid(o.g) && Extends(g, o.g) && o.g.energy == g.energy
    ensures o.g.index == if MoleculeNode(Key(p)) in g.index then g.index else g.index[MoleculeNode(Key(p)) := g.next]
    ensures Others(g.rels, o.g.rels, M2C)
    ensures EndsKept(g.rels.m2c, o.g.rels.m2c)
    ensures o.r.Err? <==> p.found.None? && MoleculeNode(p.newId) in g.index
    ensures o.r.Err? ==> o.r.error == UniqueViolation && o.g == g
    ensures o.r.Ok? ==>
      MoleculeNode(Key(p)) in o.g.index && Connected(o.g.rels.m2c, o.g.index[MoleculeNode(Key(p))], id)
      && o.g.rels.m2c == Connect(g.rels.m2c, PartEdge(o.g.index, id, p))
  {
    var m := PutMolecule(g, p);
    if m.r.Err? then Out(m.g, Err(UniqueViolation))
    else
      var h := Link(m.g, M2C, Edge(m.r.value, id, Some(ToJson(p.mapping)), None));
      ExtendsTransitive(g, m.g, h);
      Out(h, Ok(()))
  }

  /** The Molecule node of every component is joined to complex `id`. */
  predicate AllLinked(g: Graph, id: nat, parts: seq<Part>) {
    forall i :: 0 <= i < |parts| ==>
      MoleculeNode(Key(parts[i])) in g.index && Connected(g.rels.m2c, g.index[MoleculeNode(Key(parts[i]))], id)
  }

  /** The loop at lines 236-238 over the components written so far. */
  function PutParts(g: Graph, id: nat, parts: seq<Part>): (o: Out<()>)
    requires Valid(g) && id < g.next
    ensures Valid(o.g) && Extends(g, o.g) && o.g.energy == g.energy
    ensures Others(g.rels, o.g.rels, M2C)
    ensures EndsKept(g.rels.m2c, o.g.rels.m2c)
    ensures o.r.Err? ==> o.r.error == UniqueViolation
    ensures o.r.Ok? ==> AllLinked(o.g, id, parts)
    ensures o.r.Ok? ==> Indexed(o.g.index, parts) && o.g.rels.m2c == Merge(g.rels.m2c, PartEdges(o.g.index, id, parts))
  {
    if |parts| == 0 then Out(g, Ok(()))
    else
      var init := parts[..|parts| - 1];
      var p := parts[|parts| - 1];
      var o := PutParts(g, id, init);
      Snoc(parts);
      MoleculesOfSnoc(init, p);
      if o.r.Err? then o
      else
        var h := LinkPart(o.g, id, p);
        ExtendsTransitive(g, o.g, h.g);
        EndsKeptTransitive(g.rels.m2c, o.g.rels.m2c, h.g.rels.m2c);
        if h.r.Ok? then
          PartsLinked(o.g, h.g, id, parts);
          PartsMerged(g.rels.m2c, o.g, h.g, id, parts);
          h
        else h
  }

  /** The components' Molecule nodes stay indexed as the graph grows. */
  lemma PartsIndexed(a: Graph, b: Graph, parts: seq<Part>)
    requires |parts| > 0 && Extends(a, b)
    requires Indexed(a.index, parts[..|parts| - 1]) && MoleculeNode(Key(parts[|parts| - 1])) in b.index
    ensures Indexed(b.index, parts)
  {
    forall i | 0 <= i < |parts| - 1 ensures MoleculeNode(Key(parts[i])) in b.index {
      assert parts[i] == parts[..|parts| - 1][i];
    }
  }

  /** The relationships of all components: those of the earlier ones, then
      the last one's, whichever graph indexes them. */
  lemma PartEdgesSnoc(a: Graph, b: Graph, id: nat, parts: seq<Part>)
    requires |parts| > 0 && Extends(a, b)
    requires Indexed(a.index, parts[..|parts| - 1]) && Indexed(b.index, parts)
    ensures PartEdges(b.index, id, parts) ==
      PartEdges(a.index, id, parts[..|parts| - 1]) + [PartEdge(b.index, id, parts[|parts| - 1])]
  {
    var init := parts[..|parts| - 1];
    var es := PartEdges(b.index, id, parts);
    var before := PartEdges(a.index, id, init);
    forall i | 0 <= i < |init| ensures es[i] == before[i] {
      assert parts[i] == init[i];
    }
  }

  /** The relationships of the earlier components, merged, then the last
      component's: the relationships of all of them merged. */
  lemma PartsMerged(m2c: seq<Edge>, a: Graph, b: Graph, id: nat, parts: seq<Part>)
    requires |parts| > 0 && Extends(a, b)
    requires Indexed(a.index, parts[..|parts| - 1])
    requires a.rels.m2c == Merge(m2c, PartEdges(a.index, id, parts[..|parts| - 1]))
    requires MoleculeNode(Key(parts[|parts| - 1])) in b.index
    requires b.rels.m2c == Connect(a.rels.m2c, PartEdge(b.index, id, parts[|parts| - 1]))
    ensures Indexed(b.index, parts) && b.rels.m2c == Merge(m2c, PartEdges(b.index, id, parts))
  {
    PartsIndexed(a, b, parts);
    PartEdgesSnoc(a, b, id, parts);
    var es := PartEdges(b.index, id, parts);
    assert es[..|es| - 1] == PartEdges(a.index, id, parts[..|parts| - 1]);
  }

  /** One more pass of the loop after the first `i` components went
      through. */
  lemma PartsNext(g: Graph, id: nat, parts: seq<Part>, i: nat, o: Out<()>)
    requires Valid(g) && id < g.next && i < |parts|
    requires o == PutParts(g, id, parts[..i]) && o.r.Ok?
    ensures PutParts(g, id, parts[..i + 1]) == LinkPart(o.g, id, parts[i])
  {
    assert parts[..i + 1][..i] == parts[..i];
  }

  /** The loop stops at the first component that fails: the components
      after it change nothing. */
  lemma {:induction false} PartsStop(g: Graph, id: nat, parts: seq<Part>, j: nat)
    requires Valid(g) && id < g.next && j <= |parts|
    requires PutParts(g, id, parts[..j]).r.Err?
    ensures PutParts(g, id, parts) == PutParts(g, id, parts[..j])
    decreases |parts|
  {
    if j < |parts| {
      var init := parts[..|parts| - 1];
      assert init[..j] == parts[..j];
      PartsStop(g, id, init, j);
    } else {
      assert parts[..j] == parts;
    }
  }

  /** Links made for the earlier components survive the merge of a later
      one: `Connect` keeps the ends of every relationship. */
  lemma PartsLinked(a: Graph, b: Graph, id: nat, parts: seq<Part>)
    requires |parts| > 0 && Extends(a, b) && EndsKept(a.rels.m2c, b.rels.m2c)
    requires AllLinked(a, id, parts[..|parts| - 1])
    requires MoleculeNode(Key(parts[|parts| - 1])) in b.index
    requires Connected(b.rels.m2c, b.index[MoleculeNode(Key(parts[|parts| - 1]))], id)
    ensures AllLinked(b, id, parts)
  {
    forall i | 0 <= i < |parts| - 1
      ensures MoleculeNode(Key(parts[i])) in b.index && Connected(b.rels.m2c, b.index[MoleculeNode(Key(parts[i]))], id)
    {
      assert parts[..|parts| - 1][i] == parts[i];
      EndsKeptConnected(a.rels.m2c, b.rels.m2c, a.index[MoleculeNode(Key(parts[i]))], id);
    }
  }

  /** Only the components' molecules enter the index, and a successful
      write adds all of them. */
  lemma {:induction false} PartsKeys(g: Graph, id: nat, parts: seq<Part>)
    requires Valid(g) && id < g.next
    ensures PutParts(g, id, parts).g.index.Keys <= g.index.Keys + MoleculesOf(parts)
    ensures PutParts(g, id, parts).r.Ok? ==>
      PutParts(g, id, parts).g.index.Keys == g.index.Keys + MoleculesOf(parts)
  {
    if |parts| > 0 {
      var init := parts[..|parts| - 1];
      var p := parts[|parts| - 1];
      PartsKeys(g, id, init);
      Snoc(parts);
      MoleculesOfSnoc(init, p);
      var o := PutParts(g, id, init);
      if o.r.Ok? {
        var h := LinkPart(o.g, id, p);
        assert PutParts(g, id, parts) == h;
        var n := MoleculeNode(Key(p));
        LinkPartKeys(o.g, id, p);
        KeysStep(g.index.Keys, o.g.index.Keys, h.g.index.Keys, MoleculesOf(init), n, h.r.Ok?);
      } else {
        assert PutParts(g, id, parts) == o;
      }
    }
  }

  /** One component adds at most its own molecule to the index. */
  lemma LinkPartKeys(g: Graph, id: nat, p: Part)
    requires Valid(g) && id < g.next
    ensures LinkPart(g, id, p).g.index.Keys <= g.index.Keys + {MoleculeNode(Key(p))}
    ensures LinkPart(g, id, p).r.Ok? ==> LinkPart(g, id, p).g.index.Keys == g.index.Keys + {MoleculeNode(Key(p))}
  {
  }

  lemma KeysStep(a: set<Node>, b: set<Node>, c: set<Node>, s: set<Node>, n: Node, ok: bool)
    requires b <= a + s && c <= b + {n}
    requires ok ==> b == a + s && c == b + {n}
    ensures c <= a + (s + {n})
    ensures ok ==> c == a + (s + {n})
  {
  }

  /** Writing the components fails exactly when one of them clashes. */
  lemma {:induction false} PartsOutcome(g: Graph, id: nat, parts: seq<Part>)
    requires Valid(g) && id < g.next
    ensures PutParts(g, id, parts).r.Err? <==> AnyClash(g.index, parts)
  {
    if |parts| > 0 {
      var last := |parts| - 1;
      var init := parts[..last];
      PartsOutcome(g, id, init);
      var o := PutParts(g, id, init);
      ClashPrefix(g.index, parts);
      if o.r.Ok? {
        assert PutParts(g, id, parts) == LinkPart(o.g, id, parts[last]);
        PartsKeys(g, id, init);
        PartsLast(g, o.g, id, parts);
      } else {
        assert PutParts(g, id, parts) == o;
        var i :| 0 <= i < last && Clash(g.index, init, i);
        assert Clash(g.index, parts, i);
      }
    }
  }

  /** The last component, written after the others went through, clashes
      exactly when the whole write fails. */
  lemma PartsLast(g: Graph, h: Graph, id: nat, parts: seq<Part>)
    requires Valid(h) && id < h.next && |parts| > 0
    requires h.index.Keys == g.index.Keys + MoleculesOf(parts[..|parts| - 1])
    requires forall i :: 0 <= i < |parts| - 1 ==> !Clash(g.index, parts, i)
    ensures LinkPart(h, id, parts[|parts| - 1]).r.Err? <==> AnyClash(g.index, parts)
  {
    var last := |parts| - 1;
    var init := parts[..last];
    var p := parts[last];
    assert Clash(g.index, parts, last) <==> p.found.None? && MoleculeNode(p.newId) in h.index by {
      if p.found.None? && MoleculeNode(p.newId) in h.index && MoleculeNode(p.newId) !in g.index {
        var j := MoleculesOfWitness(init, MoleculeNode(p.newId));
        assert init[j] == parts[j];
      }
    }
    assert (AnyClash(g.index, parts)) <==> Clash(g.index, parts, last);
  }

  /** A clash among the first components is a clash among all of them. */
  lemma ClashPrefix(index: map<Node, nat>, parts: seq<Part>)
    requires |parts| > 0
    ensures forall i :: 0 <= i < |parts| - 1 ==> Clash(index, parts, i) == Clash(index, parts[..|parts| - 1], i)
  {
    var init := parts[..|parts| - 1];
    forall i | 0 <= i < |parts| - 1 ensures Clash(index, parts, i) == Clash(index, init, i) {
      assert forall j :: 0 <= j <= i ==> init[j] == parts[j];
    }
  }

  /** Every relationship type a reaction insertion writes is as in `g`. */
  predicate ReactionRelsKept(g: Graph, h: Graph) {
    h.rels.b2r == g.rels.b2r && h.rels.c2r == g.rels.c2r && h.rels.r2c == g.rels.r2c
    && h.rels.t2r == g.rels.t2r && h.rels.e2t == g.rels.e2t
  }

  /** No reaction node appears between `g` and `h`. */
  predicate NoNewReaction(g: Graph, h: Graph) {
    forall k :: k in h.index && k.ReactionNode? ==> k in g.index
  }


  lemma NoNewReactionTransitive(a: Graph, b: Graph, c: Graph)
    requires Extends(a, b) && NoNewReaction(a, b) && NoNewReaction(b, c)
    ensures NoNewReaction(a, c)
  {
  }

  /** Lines 219-232, an existing complex met again through ES `es`: a lower
      energy is taken only through an ES not yet linked, and an ES not yet
      linked is linked with its mapping onto the stored structure. No
      barrier of the complex's reactions is recomputed when its energy
      drops (the warning at line 224). */
  function MergeComplex(g: Graph, c: Geometry, es: nat): (o: Out<(nat, nat)>)
    requires Valid(g) && Energetic(g) && ComplexNode(c.signature) in g.index && es < g.next
    ensures Valid(o.g) && Energetic(o.g) && Extends(g, o.g) && o.g.index == g.index
    ensures EnergyKept(g, o.g, {ComplexNode(c.signature)}) && Others(g.rels, o.g.rels, E2C)
    ensures var id := g.index[ComplexNode(c.signature)];
      (o.r.Err? <==> g.energy[id] > c.energy && Connected(g.rels.e2c, es, id))
      && (o.r.Err? ==> o.r.error == ValueError && o.g == g)
      && (o.r.Ok? ==> o.r.value == (id, es) && Connected(o.g.rels.e2c, es, id) && o.g.energy[id] == Min(g.energy[id], c.energy))
      && (!Connected(g.rels.e2c, es, id) ==> CarriesOnly(o.g.rels.e2c, Edge(es, id, Some(ToJson(c.toStored)), None)))
      && (Connected(g.rels.e2c, es, id) ==> o.g.rels.e2c == g.rels.e2c)
      && (o.r.Ok? && !Connected(g.rels.e2c, es, id) ==>
            o.g.rels.e2c == g.rels.e2c + [Edge(es, id, Some(ToJson(c.toStored)), None)])
      && (o.r.Ok? ==> o.g.rels.e2c == Once(g.rels.e2c, Edge(es, id, Some(ToJson(c.toStored)), None)))
  {
    var id := g.index[ComplexNode(c.signature)];
    var link := Edge(es, id, Some(ToJson(c.toStored)), None);
    if g.energy[id] > c.energy then
      if Connected(g.rels.e2c, es, id) then Out(g, Err(ValueError))
      else
        var lower := g.(energy := g.energy[id := c.energy]);
        Out(Link(lower, E2C, link), Ok((id, es)))
    else
      Out(LinkOnce(g, E2C, link), Ok((id, es)))
  }

  /** Line 234 and line 420: the complex or reaction `id` is linked, by a
      relationship of type `r`, from the Brutto node of its formula, which
      is created if missing. */
  function LinkBrutto(g: Graph, r: Rel, id: nat, formula: string): (h: Graph)
    requires Valid(g) && id < g.next
    ensures Valid(h) && Extends(g, h) && h.energy == g.energy
    ensures h.index == if BruttoNode(formula) in g.index then g.index else g.index[BruttoNode(formula) := g.next]
    ensures Others(g.rels, h.rels, r)
    ensures BruttoNode(formula) in h.index && Connected(Edges(h, r), h.index[BruttoNode(formula)], id)
  {
    var b := PutBrutto(g, formula, false);
    var h := Link(b.g, r, Edge(b.r.value, id, None, None));
    ExtendsTransitive(g, b.g, h);
    h
  }

  /** Lines 235-240 after the Brutto link: the components' molecules and the
      ES are linked to complex `id`, the ES with the identity mapping. */
  function LinkComplex(g: Graph, id: nat, parts: seq<Part>, atoms: seq<int>, es: nat): (o: Out<(nat, nat)>)
    requires Valid(g) && id < g.next && es < g.next
    ensures Valid(o.g) && Extends(g, o.g) && o.g.energy == g.energy
    ensures o.g.index.Keys <= g.index.Keys + MoleculesOf(parts)
    ensures ReactionRelsKept(g, o.g) && o.g.rels.b2c == g.rels.b2c
    ensures o.r.Err? <==> AnyClash(g.index, parts)
    ensures o.r.Err? ==> o.r.error == UniqueViolation
    ensures o.r.Ok? ==>
      o.r.value == (id, es) && AllLinked(o.g, id, parts) && Connected(o.g.rels.e2c, es, id)
      && o.g.rels.e2c == Connect(g.rels.e2c, Edge(es, id, Some(ToJson(Identity(atoms))), None))
    ensures o.r.Ok? ==> Indexed(o.g.index, parts) && o.g.rels.m2c == Merge(g.rels.m2c, PartEdges(o.g.index, id, parts))
  {
    PartsOutcome(g, id, parts);
    PartsKeys(g, id, parts);
    var m := PutParts(g, id, parts);
    if m.r.Err? then Out(m.g, Err(UniqueViolation))
    else
      var h := Link(m.g, E2C, Edge(es, id, Some(ToJson(Identity(atoms))), None));
      ExtendsTransitive(g, m.g, h);
      Out(h, Ok((id, es)))
  }

  /** Clashes depend only on the Molecule entries of the index: adding two
      nodes of other labels changes none. */
  lemma ClashSameMolecules(a: map<Node, nat>, b: map<Node, nat>, x: Node, y: Node, parts: seq<Part>)
    requires a.Keys <= b.Keys <= a.Keys + {x, y} && !x.MoleculeNode? && !y.MoleculeNode?
    ensures AnyClash(a, parts) == AnyClash(b, parts)
  {
    assert forall i :: 0 <= i < |parts| ==> Clash(a, parts, i) == Clash(b, parts, i);
  }

  /** Lines 216-218 and 234: the new complex is saved with the energy of the
      geometry and linked from the Brutto node of its formula. Neither node
      is a Molecule, so the clashes of the components are unchanged. */
  function SaveComplex(g: Graph, c: Geometry, formula: string): (o: Graph)
    requires Valid(g) && Energetic(g) && ComplexNode(c.signature) !in g.index
    ensures Valid(o) && Energetic(o) && Extends(g, o) && EnergyKept(g, o, {}) && g.next < o.next
    ensures ReactionRelsKept(g, o) && NoNewReaction(g, o) && o.rels.m2c == g.rels.m2c && o.rels.e2c == g.rels.e2c
    ensures ComplexNode(c.signature) in o.index && o.index[ComplexNode(c.signature)] == g.next
    ensures g.next in o.energy && o.energy[g.next] == c.energy
    ensures BruttoNode(formula) in o.index && Connected(o.rels.b2c, o.index[BruttoNode(formula)], g.next)
    ensures AnyClash(o.index, c.parts) == AnyClash(g.index, c.parts)
  {
    var g2 := SavedWithEnergy(g, ComplexNode(c.signature), c.energy);
    var g3 := LinkBrutto(g2, B2C, g.next, formula);
    ExtendsTransitive(g, g2, g3);
    ClashSameMolecules(g.index, g3.index, ComplexNode(c.signature), BruttoNode(formula), c.parts);
    EnergeticGrow(g, g3);
    EnergyKeptThrough(g, g2, g3, {});
    g3
  }

  /** Lines 216-240, a complex not seen before: it is saved with the energy
      of the geometry, linked from the Brutto node of its formula and from
      a Molecule per component, and from its ES with the identity mapping.
      It fails exactly when a component clashes with a Molecule entry. */
  function NewComplex(g: Graph, c: Geometry, es: nat, formula: string): (o: Out<(nat, nat)>)
    requires Valid(g) && Energetic(g) && ComplexNode(c.signature) !in g.index && es < g.next
    ensures Valid(o.g) && Energetic(o.g) && Extends(g, o.g) && EnergyKept(g, o.g, {})
    ensures ReactionRelsKept(g, o.g) && NoNewReaction(g, o.g)
    ensures ComplexNode(c.signature) in o.g.index && o.g.index[ComplexNode(c.signature)] == g.next
    ensures g.next in o.g.energy && o.g.energy[g.next] == c.energy
    ensures o.r.Err? <==> AnyClash(g.index, c.parts)
    ensures o.r.Err? ==> o.r.error == UniqueViolation
    ensures o.r.Ok? ==>
      o.r.value == (g.next, es)
      && BruttoNode(formula) in o.g.index && Connected(o.g.rels.b2c, o.g.index[BruttoNode(formula)], g.next)
      && AllLinked(o.g, g.next, c.parts) && Connected(o.g.rels.e2c, es, g.next)
      && o.g.rels.e2c == g.rels.e2c + [Edge(es, g.next, Some(ToJson(Identity(c.atoms))), None)]
    ensures o.r.Ok? ==> Indexed(o.g.index, c.parts) && o.g.rels.m2c == Merge(g.rels.m2c, PartEdges(o.g.index, g.next, c.parts))
  {
    FieldsBelow(g);
    NotAnEnd(g.rels.e2c, g.next, es, g.next);
    var g3 := SaveComplex(g, c, formula);
    var o := LinkComplex(g3, g.next, c.parts, c.atoms, es);
    ExtendsTransitive(g, g3, o.g);
    EnergyKeptThrough(g, g3, o.g, {});
    EnergeticGrow(g3, o.g);
    o
  }

  /** `Complex(structure)` (lines 210-243): its ES is saved first, then the
      complex is merged or created. The result is the complex and its ES. */
  function PutComplex(g: Graph, c: Geometry): (o: Out<(nat, nat)>)
    requires Valid(g) && Energetic(g)
    ensures Valid(o.g) && Energetic(o.g) && Extends(g, o.g)
    ensures EnergyKept(g, o.g, {ComplexNode(c.signature)}) && ReactionRelsKept(g, o.g) && NoNewReaction(g, o.g)
    ensures o.r.Err? ==> o.r.error == ValueError || o.r.error == UniqueViolation
    ensures o.r.Ok? ==>
      ComplexNode(c.signature) in o.g.index && o.g.index[ComplexNode(c.signature)] == o.r.value.0
      && StateNode(Some(c.conformer)) in o.g.index && o.g.index[StateNode(Some(c.conformer))] == o.r.value.1
      && Connected(o.g.rels.e2c, o.r.value.1, o.r.value.0)
      && o.r.value.0 in o.g.energy && o.r.value.1 in o.g.energy
      && o.g.energy[o.r.value.0] == (if ComplexNode(c.signature) in g.index
           then Min(g.energy[g.index[ComplexNode(c.signature)]], c.energy) else c.energy)
    ensures o.r.Ok? && ComplexNode(c.signature) in g.index ==> o.g.rels.m2c == g.rels.m2c
    ensures o.r.Ok? && ComplexNode(c.signature) !in g.index ==>
      Indexed(o.g.index, c.parts) && o.g.rels.m2c == Merge(g.rels.m2c, PartEdges(o.g.index, o.r.value.0, c.parts))
      && o.g.rels.e2c == g.rels.e2c + [Edge(o.r.value.1, o.r.value.0, Some(ToJson(Identity(c.atoms))), None)]
    ensures o.r.Ok? && ComplexNode(c.signature) in g.index ==>
      o.g.rels.e2c == Once(g.rels.e2c, Edge(o.r.value.1, o.r.value.0, Some(ToJson(c.toStored)), None))
  {
    var e := PutConformer(g, ES, c.conformer, c.energy);
    if e.r.Err? then Out(e.g, Err(ValueError))
    else
      var es := e.r.value;
      var o := if ComplexNode(c.signature) in e.g.index then MergeComplex(e.g, c, es)
        else NewComplex(e.g, c, es, Formula.FormulaOf(c.symbols));
      ExtendsTransitive(g, e.g, o.g);
      EnergyKeptAfter(g, e.g, o.g, {ComplexNode(c.signature)});
      o
  }

  /** A complex geometry inserted a second time is refused: its ES is
      already stored with the same energy, so the duplicate test fires and
      nothing more is written, whether the first insertion succeeded or
      stopped at a clashing component. */
  lemma ComplexTwice(g: Graph, c: Geometry, first: Out<(nat, nat)>)
    requires Valid(g) && Energetic(g) && StateNode(Some(c.conformer)) !in g.index
    requires first == PutComplex(g, c)
    ensures PutComplex(first.g, c) == Out(first.g, Err(ValueError))
  {
    var state := StateNode(Some(c.conformer));
    var e := PutConformer(g, ES, c.conformer, c.energy);
    assert e.g.index[state] == g.next && e.g.labels[g.next] == state && e.g.energy[g.next] == c.energy;
    var o := if ComplexNode(c.signature) in e.g.index then MergeComplex(e.g, c, g.next)
      else NewComplex(e.g, c, g.next, Formula.FormulaOf(c.symbols));
    assert first == o;
    assert first.g.energy[first.g.index[state]] == c.energy;
  }

  /** Components that are different molecules, or one molecule under
      different mappings, each get their own M2C relationship into a
      complex that no relationship in `m2c` reaches yet. */
  lemma PartsFresh(g: Graph, m2c: seq<Edge>, id: nat, parts: seq<Part>)
    requires Valid(g) && Indexed(g.index, parts) && Distinct(parts)
    requires forall i :: 0 <= i < |m2c| ==> m2c[i].dst != id
    ensures Merge(m2c, PartEdges(g.index, id, parts)) == m2c + PartEdges(g.index, id, parts)
  {
    PartEdgesDistinct(g, id, parts);
    MergeFresh(m2c, PartEdges(g.index, id, parts));
  }

  /** Distinct components have pairwise different relationships. */
  lemma PartEdgesDistinct(g: Graph, id: nat, parts: seq<Part>)
    requires Valid(g) && Indexed(g.index, parts) && Distinct(parts)
    ensures var es := PartEdges(g.index, id, parts); forall i, j :: 0 <= i < j < |es| ==> es[i] != es[j]
  {
    var es := PartEdges(g.index, id, parts);
    forall i, j | 0 <= i < j < |es| ensures es[i] != es[j] {
      PartEdgeInjective(g, id, parts[i], parts[j]);
    }
  }

  /** Components that differ in their molecule or their mapping have
      different relationships. */
  lemma PartEdgeInjective(g: Graph, id: nat, p: Part, q: Part)
    requires Valid(g) && MoleculeNode(Key(p)) in g.index && MoleculeNode(Key(q)) in g.index
    requires Key(p) != Key(q) || p.mapping != q.mapping
    ensures PartEdge(g.index, id, p) != PartEdge(g.index, id, q)
  {
    var a, b := MoleculeNode(Key(p)), MoleculeNode(Key(q));
    assert g.labels[g.index[a]] == a && g.labels[g.index[b]] == b;
    DecodeToJson(p.mapping);
    DecodeToJson(q.mapping);
  }

  /** A new complex with distinct components is joined from one Molecule
      per component, in the order of `split()`, each relationship carrying
      that component's mapping, and from its ES with the identity mapping. */
  lemma ComplexComponents(g: Graph, c: Geometry)
    requires Valid(g) && Energetic(g) && ComplexNode(c.signature) !in g.index && Distinct(c.parts)
    ensures var o := PutComplex(g, c);
      o.r.Ok? ==> o.g.rels.m2c == g.rels.m2c + PartEdges(o.g.index, o.r.value.0, c.parts)
  {
    var o := PutComplex(g, c);
    var e := PutConformer(g, ES, c.conformer, c.energy);
    if o.r.Ok? {
      assert o == NewComplex(e.g, c, e.r.value, Formula.FormulaOf(c.symbols));
      FieldsBelow(g);
      PartsFresh(o.g, g.rels.m2c, o.r.value.0, c.parts);
    }
  }

  /** Components that are all molecules already in CGRdb never clash. */
  lemma StoredPartsOk(g: Graph, id: nat, parts: seq<Part>)
    requires Valid(g) && id < g.next && forall i :: 0 <= i < |parts| ==> parts[i].found.Some?
    ensures PutParts(g, id, parts).r.Ok?
  {
    PartsOutcome(g, id, parts);
  }

  /** Two components that are the same stored molecule under different
      mappings, such as the two waters of a water dimer, give two M2C
      relationships from the one Molecule node. */
  lemma RepeatedMolecule(g: Graph, id: nat, p: Part, q: Part)
    requires Valid(g) && id < g.next && forall i :: 0 <= i < |g.rels.m2c| ==> g.rels.m2c[i].dst != id
    requires p.found.Some? && q.found == p.found && MoleculeNode(Key(p)) in g.index && p.mapping != q.mapping
    ensures PutParts(g, id, [p, q]).r.Ok?
    ensures var m := g.index[MoleculeNode(Key(p))];
      PutParts(g, id, [p, q]).g.rels.m2c == g.rels.m2c + [Edge(m, id, Some(ToJson(p.mapping)), None), Edge(m, id, Some(ToJson(q.mapping)), None)]
  {
    var parts := [p, q];
    StoredPartsOk(g, id, parts);
    TwoParts(g, PutParts(g, id, parts).g, id, p, q);
  }

  lemma TwoParts(g: Graph, h: Graph, id: nat, p: Part, q: Part)
    requires Valid(h) && Extends(g, h) && forall i :: 0 <= i < |g.rels.m2c| ==> g.rels.m2c[i].dst != id
    requires MoleculeNode(Key(p)) in g.index && Key(q) == Key(p) && p.mapping != q.mapping
    requires Indexed(h.index, [p, q]) && h.rels.m2c == Merge(g.rels.m2c, PartEdges(h.index, id, [p, q]))
    ensures var m := g.index[MoleculeNode(Key(p))];
      h.rels.m2c == g.rels.m2c + [Edge(m, id, Some(ToJson(p.mapping)), None), Edge(m, id, Some(ToJson(q.mapping)), None)]
  {
    var parts := [p, q];
    var m := g.index[MoleculeNode(Key(p))];
    assert Distinct(parts);
    PartsFresh(h, g.rels.m2c, id, parts);
    var es := PartEdges(h.index, id, parts);
    assert h.index[MoleculeNode(Key(p))] == m && h.index[MoleculeNode(Key(q))] == m;
    assert es[0] == PartEdge(h.index, id, p) == Edge(m, id, Some(ToJson(p.mapping)), None);
    assert es[1] == PartEdge(h.index, id, q) == Edge(m, id, Some(ToJson(q.mapping)), None);
    assert es == [es[0], es[1]];
  }

  // Reactions

  /** What lines 391-396 found or created before the reaction itself: the
      TS, the reactant and product complexes with their ESs, and the
      energies those objects then hold (`rc.energy`, `re.energy`, ...). */
  datatype Sides = Sides(
    ts: nat, rc: nat, re: nat, pc: nat, pe: nat,
    rcEnergy: real, reEnergy: real, pcEnergy: real, peEnergy: real)

  predicate SidesIn(g: Graph, s: Sides) {
    s.ts < g.next && s.rc < g.next && s.re < g.next && s.pc < g.next && s.pe < g.next
  }

  /** Lines 393-394: the reactant complex, then the product complex. */
  function PutSides(g: Graph, x: ReactionInput, ts: nat): (o: Out<Sides>)
    requires Valid(g) && Energetic(g) && ts < g.next
    ensures Valid(o.g) && Energetic(o.g) && Extends(g, o.g) && ReactionRelsKept(g, o.g)
    ensures EnergyKept(g, o.g, {ComplexNode(x.reactant.signature), ComplexNode(x.product.signature)})
    ensures NoNewReaction(g, o.g)
    ensures o.r.Err? ==> o.r.error == ValueError || o.r.error == UniqueViolation
    ensures o.r.Ok? ==> SidesIn(o.g, o.r.value) && o.r.value.ts == ts
  {
    var rc := PutComplex(g, x.reactant);
    if rc.r.Err? then Out(rc.g, Err(rc.r.error))
    else
      var pc := PutComplex(rc.g, x.product);
      ExtendsTransitive(g, rc.g, pc.g);
      EnergyKeptTransitive(g, rc.g, pc.g, {ComplexNode(x.reactant.signature)}, {ComplexNode(x.product.signature)});
      NoNewReactionTransitive(g, rc.g, pc.g);
      if pc.r.Err? then Out(pc.g, Err(pc.r.error))
      else
        var (rcId, re) := rc.r.value;
        var (pcId, pe) := pc.r.value;
        Out(pc.g, Ok(Sides(ts, rcId, re, pcId, pe,
          rc.g.energy[rcId], rc.g.energy[re], pc.g.energy[pcId], pc.g.energy[pe])))
  }

  /** Lines 391-396: the TS is saved first, then the reactant and product
      complexes; the first refusal stops the insertion with the writes made
      so far kept. */
  function Prepare(g: Graph, x: ReactionInput): (o: Out<Sides>)
    requires Valid(g) && Energetic(g)
    ensures Valid(o.g) && Energetic(o.g) && Extends(g, o.g) && ReactionRelsKept(g, o.g) && NoNewReaction(g, o.g)
    ensures EnergyKept(g, o.g, {ComplexNode(x.reactant.signature), ComplexNode(x.product.signature)})
    ensures o.r.Err? ==> o.r.error == ValueError || o.r.error == UniqueViolation
    ensures o.r.Ok? ==>
      SidesIn(o.g, o.r.value)
      && TransitionNode(Some(x.ts.conformer)) in o.g.index && o.g.index[TransitionNode(Some(x.ts.conformer))] == o.r.value.ts
  {
    var t := PutConformer(g, TS, x.ts.conformer, x.ts.energy);
    if t.r.Err? then Out(t.g, Err(ValueError))
    else
      var o := PutSides(t.g, x, t.r.value);
      ExtendsTransitive(g, t.g, o.g);
      EnergyKeptAfter(g, t.g, o.g, {ComplexNode(x.reactant.signature), ComplexNode(x.product.signature)});
      o
  }

  /** Lines 402-417, a reaction met again: a lower TS energy is taken only
      through a TS not yet linked, and a TS not yet linked is linked with
      the CGR's mapping onto the stored reaction. When the energy drops the
      barriers are assigned on the relationship objects without being
      saved, so the stored C2R and R2C barriers stay as they were; a
      reactant or product complex not linked to the reaction has no
      relationship object and the assignment is an AttributeError, raised
      after the new energy and the TS link were written. */
  function ExistingReaction(h: Graph, x: ReactionInput, s: Sides): (o: Out<nat>)
    requires Valid(h) && Energetic(h) && SidesIn(h, s) && ReactionNode(x.signature) in h.index
    ensures Valid(o.g) && Energetic(o.g) && Extends(h, o.g) && o.g.index == h.index
    ensures EnergyKept(h, o.g, {ReactionNode(x.signature)}) && Others(h.rels, o.g.rels, T2R)
    ensures var id := h.index[ReactionNode(x.signature)];
      var lower := h.energy[id] > x.ts.energy;
      (o.r.Err? <==> lower && (Connected(h.rels.t2r, s.ts, id) || !Connected(h.rels.c2r, s.rc, id) || !Connected(h.rels.r2c, s.pc, id)))
      && (o.r.Err? && Connected(h.rels.t2r, s.ts, id) ==> o.r.error == ValueError && o.g == h)
      && (o.r.Err? && !Connected(h.rels.t2r, s.ts, id) ==> o.r.error == AttributeError)
      && (o.r.Ok? ==> o.r.value == id && Connected(o.g.rels.t2r, s.ts, id))
      && (o.g != h ==> Connected(o.g.rels.t2r, s.ts, id) && o.g.energy[id] == Min(h.energy[id], x.ts.energy))
      && (!Connected(h.rels.t2r, s.ts, id) ==>
            o.g.rels.t2r == h.rels.t2r + [Edge(s.ts, id, Some(ToJson(x.toStored)), None)])
      && (!lower && Connected(h.rels.t2r, s.ts, id) ==> o.g == h)
  {
    var id := h.index[ReactionNode(x.signature)];
    if h.energy[id] > x.ts.energy then
      if Connected(h.rels.t2r, s.ts, id) then Out(h, Err(ValueError))
      else LowerReaction(h, x, s)
    else
      Out(LinkOnce(h, T2R, Edge(s.ts, id, Some(ToJson(x.toStored)), None)), Ok(id))
  }

  /** Lines 406-415, a lower TS energy through a TS not yet linked: the
      energy is saved and the TS linked, and then the barrier assignment
      fails unless both complexes are linked to the reaction. */
  function LowerReaction(h: Graph, x: ReactionInput, s: Sides): (o: Out<nat>)
    requires Valid(h) && SidesIn(h, s) && ReactionNode(x.signature) in h.index
  {
    var id := h.index[ReactionNode(x.signature)];
    var k := Link(h.(energy := h.energy[id := x.ts.energy]), T2R, Edge(s.ts, id, Some(ToJson(x.toStored)), None));
    if !Connected(h.rels.c2r, s.rc, id) || !Connected(h.rels.r2c, s.pc, id) then Out(k, Err(AttributeError))
    else Out(k, Ok(id))
  }

  /** Lines 422-427: the reaction `id`, not yet linked to anything, is
      linked from the reactant complex and to the product complex with
      their mappings and barriers (the TS energy less the complex energy),
      and from the TS with the identity mapping. */
  function LinkSides(g: Graph, x: ReactionInput, s: Sides, id: nat): (o: Graph)
    requires Valid(g) && SidesIn(g, s) && id < g.next
    requires !Connected(g.rels.c2r, s.rc, id) && !Connected(g.rels.r2c, s.pc, id) && !Connected(g.rels.t2r, s.ts, id)
    ensures Valid(o) && Extends(g, o) && o.index == g.index && o.energy == g.energy
    ensures o.rels.b2c == g.rels.b2c && o.rels.m2c == g.rels.m2c && o.rels.e2c == g.rels.e2c
    ensures o.rels.b2r == g.rels.b2r && o.rels.e2t == g.rels.e2t
    ensures o.rels.c2r == g.rels.c2r + [Edge(s.rc, id, Some(ToJson(x.reactantMapping)), Some(Barrier(x.ts.energy, s.rcEnergy)))]
    ensures o.rels.r2c == g.rels.r2c + [Edge(s.pc, id, Some(ToJson(x.productMapping)), Some(Barrier(x.ts.energy, s.pcEnergy)))]
    ensures o.rels.t2r == g.rels.t2r + [Edge(s.ts, id, Some(ToJson(Identity(x.ts.atoms))), None)]
    ensures Connected(o.rels.t2r, s.ts, id)
  {
    var te := x.ts.energy;
    var g1 := Link(g, C2R, Edge(s.rc, id, Some(ToJson(x.reactantMapping)), Some(Barrier(te, s.rcEnergy))));
    var g2 := Link(g1, R2C, Edge(s.pc, id, Some(ToJson(x.productMapping)), Some(Barrier(te, s.pcEnergy))));
    var g3 := Link(g2, T2R, Edge(s.ts, id, Some(ToJson(Identity(x.ts.atoms))), None));
    ExtendsTransitive(g, g1, g2);
    ExtendsTransitive(g, g2, g3);
    g3
  }

  /** The id the next reaction receives is an end of no reaction
      relationship. */
  lemma ReactionUnlinked(h: Graph, s: Sides)
    requires Valid(h)
    ensures !Connected(h.rels.c2r, s.rc, h.next) && !Connected(h.rels.r2c, s.pc, h.next)
    ensures !Connected(h.rels.t2r, s.ts, h.next)
  {
    FieldsBelow(h);
    NotAnEnd(h.rels.c2r, h.next, s.rc, h.next);
    NotAnEnd(h.rels.r2c, h.next, s.pc, h.next);
    NotAnEnd(h.rels.t2r, h.next, s.ts, h.next);
  }

  /** Lines 399-401 and 418-420: the new reaction node is saved with the TS energy and
      linked from the Brutto node of the TS formula; it is an end of no
      relationship from the complexes or the TS yet. */
  function SaveReaction(h: Graph, x: ReactionInput, s: Sides, formula: string): (o: Graph)
    requires Valid(h) && Energetic(h) && SidesIn(h, s) && ReactionNode(x.signature) !in h.index
    ensures Valid(o) && Energetic(o) && Extends(h, o)
    ensures SidesIn(o, s) && h.next < o.next
    ensures ReactionNode(x.signature) in o.index && o.index[ReactionNode(x.signature)] == h.next
    ensures h.next in o.energy
    ensures o.rels.c2r == h.rels.c2r && o.rels.r2c == h.rels.r2c && o.rels.t2r == h.rels.t2r
  {
    var h1 := SavedWithEnergy(h, ReactionNode(x.signature), x.ts.energy);
    var h2 := LinkBrutto(h1, B2R, h.next, formula);
    ExtendsTransitive(h, h1, h2);
    EnergeticGrow(h, h2);
    h2
  }

  /** Lines 418-427, a new reaction: saved and linked from its Brutto node,
      then linked to its complexes and its TS. `NewReactionLinks` states
      the relationships it adds. */
  function NewReaction(h: Graph, x: ReactionInput, s: Sides, formula: string): (o: Graph)
    requires Valid(h) && Energetic(h) && SidesIn(h, s) && ReactionNode(x.signature) !in h.index
    ensures Valid(o) && Energetic(o) && Extends(h, o)
    ensures ReactionNode(x.signature) in o.index && o.index[ReactionNode(x.signature)] == h.next
    ensures h.next in o.energy && Connected(o.rels.t2r, s.ts, h.next) && o.rels.e2t == h.rels.e2t
  {
    var h2 := SaveReaction(h, x, s, formula);
    ReactionUnlinked(h, s);
    var h3 := LinkSides(h2, x, s, h.next);
    ExtendsTransitive(h, h2, h3);
    h3
  }

  /** A new reaction carries the TS energy and hangs under the Brutto node
      of `formula`; energies of existing nodes are untouched. */
  lemma NewReactionEnergy(h: Graph, x: ReactionInput, s: Sides, formula: string, o: Graph)
    requires Valid(h) && Energetic(h) && SidesIn(h, s) && ReactionNode(x.signature) !in h.index
    requires o == NewReaction(h, x, s, formula)
    ensures EnergyKept(h, o, {}) && o.energy[h.next] == x.ts.energy
    ensures BruttoNode(formula) in o.index && Connected(o.rels.b2r, o.index[BruttoNode(formula)], h.next)
  {
    var h1 := SavedWithEnergy(h, ReactionNode(x.signature), x.ts.energy);
    var h2 := LinkBrutto(h1, B2R, h.next, formula);
    assert h2 == SaveReaction(h, x, s, formula);
    ReactionUnlinked(h, s);
    assert o == LinkSides(h2, x, s, h.next);
    EnergyKeptThrough(h, h1, h2, {});
    EnergyKeptThrough(h, h2, o, {});
  }

  /** A new reaction gains exactly one relationship from its reactant
      complex and one to its product complex, each carrying the stored
      mapping and the barrier: the TS energy less the complex energy. */
  lemma NewReactionBarriers(h: Graph, x: ReactionInput, s: Sides, formula: string, o: Graph)
    requires Valid(h) && Energetic(h) && SidesIn(h, s) && ReactionNode(x.signature) !in h.index
    requires o == NewReaction(h, x, s, formula)
    ensures o.rels.c2r == h.rels.c2r + [Edge(s.rc, h.next, Some(ToJson(x.reactantMapping)), Some(Barrier(x.ts.energy, s.rcEnergy)))]
    ensures o.rels.r2c == h.rels.r2c + [Edge(s.pc, h.next, Some(ToJson(x.productMapping)), Some(Barrier(x.ts.energy, s.pcEnergy)))]
  {
    var h2 := SaveReaction(h, x, s, formula);
    ReactionUnlinked(h, s);
    assert o == LinkSides(h2, x, s, h.next);
  }

  /** A new reaction gains exactly one relationship from its TS, with the
      identity mapping on the TS atoms; the ES-to-TS relationships are not
      touched by this step. */
  lemma NewReactionTs(h: Graph, x: ReactionInput, s: Sides, formula: string, o: Graph)
    requires Valid(h) && Energetic(h) && SidesIn(h, s) && ReactionNode(x.signature) !in h.index
    requires o == NewReaction(h, x, s, formula)
    ensures o.rels.t2r == h.rels.t2r + [Edge(s.ts, h.next, Some(ToJson(Identity(x.ts.atoms))), None)]
    ensures o.rels.e2t == h.rels.e2t
  {
    var h2 := LinkBrutto(SavedWithEnergy(h, ReactionNode(x.signature), x.ts.energy), B2R, h.next, formula);
    assert h2 == SaveReaction(h, x, s, formula);
    ReactionUnlinked(h, s);
    assert o == LinkSides(h2, x, s, h.next);
  }

  /** The ES-to-TS relationship of lines 430-433 from ES `es` with
      energy `esEnergy`: the barrier `te - es.energy`, no mapping. */
  function StateBarrier(es: nat, ts: nat, te: real, esEnergy: real): Edge {
    Edge(es, ts, None, Some(Barrier(te, esEnergy)))
  }

  /** The E2T relationships after lines 429-433: the reactant ES's barrier,
      then the product ES's, each written only when its ES is not linked
      to the TS yet (the product's tested after the reactant's went in).
      Nothing already there is overwritten, and every relationship
      written carries `te` less its own ES's energy. */
  function StateBarriers(e2t: seq<Edge>, s: Sides, te: real): (r: seq<Edge>)
    ensures e2t <= r && |r| <= |e2t| + 2
    ensures Connected(r, s.re, s.ts) && Connected(r, s.pe, s.ts)
    ensures forall i :: |e2t| <= i < |r| ==>
      r[i] == StateBarrier(s.re, s.ts, te, s.reEnergy) || r[i] == StateBarrier(s.pe, s.ts, te, s.peEnergy)
    ensures !Connected(e2t, s.re, s.ts) ==> r[|e2t|] == StateBarrier(s.re, s.ts, te, s.reEnergy)
    ensures Connected(e2t, s.re, s.ts) && !Connected(e2t, s.pe, s.ts) ==>
      r == e2t + [StateBarrier(s.pe, s.ts, te, s.peEnergy)]
    ensures Connected(e2t, s.re, s.ts) && Connected(e2t, s.pe, s.ts) <==> r == e2t
  {
    var first := Once(e2t, StateBarrier(s.re, s.ts, te, s.reEnergy));
    var r := Once(first, StateBarrier(s.pe, s.ts, te, s.peEnergy));
    EndsKeptConnected(first, r, s.re, s.ts);
    r
  }

  /** Lines 429-433: the TS is linked from the reactant ES and from the
      product ES with their barriers, each only if not linked yet. */
  function LinkStates(h: Graph, s: Sides, te: real): (o: Graph)
    requires Valid(h) && SidesIn(h, s)
    ensures Valid(o) && Extends(h, o) && o.index == h.index && o.energy == h.energy && Others(h.rels, o.rels, E2T)
    ensures o.rels.t2r == h.rels.t2r
    ensures o.rels.e2t == StateBarriers(h.rels.e2t, s, te)
    ensures Connected(h.rels.e2t, s.re, s.ts) && Connected(h.rels.e2t, s.pe, s.ts) ==> o == h
  {
    var h1 := LinkOnce(h, E2T, StateBarrier(s.re, s.ts, te, s.reEnergy));
    var h2 := LinkOnce(h1, E2T, StateBarrier(s.pe, s.ts, te, s.peEnergy));
    ExtendsTransitive(h, h1, h2);
    h2
  }

  /** Lines 398-427: the reaction is merged when its signature is known and
      created otherwise; either way it ends up linked from the TS. */
  function MergeReaction(h: Graph, x: ReactionInput, s: Sides, formula: string): (o: Out<nat>)
    requires Valid(h) && Energetic(h) && SidesIn(h, s)
    ensures Valid(o.g) && Energetic(o.g) && Extends(h, o.g) && o.g.rels.e2t == h.rels.e2t
    ensures o.r.Err? ==> o.r.error == ValueError || o.r.error == AttributeError
    ensures o.r.Ok? ==>
      ReactionNode(x.signature) in o.g.index && o.g.index[ReactionNode(x.signature)] == o.r.value
      && o.r.value in o.g.energy && Connected(o.g.rels.t2r, s.ts, o.r.value)
  {
    if ReactionNode(x.signature) in h.index then ExistingReaction(h, x, s)
    else Out(NewReaction(h, x, s, formula), Ok(h.next))
  }

  /** Lines 398-433, once the TS and the complexes are in: the reaction
      is merged or created, then linked from both ESs through the TS. */
  function Finish(h: Graph, x: ReactionInput, s: Sides, formula: string): (o: Out<nat>)
    requires Valid(h) && Energetic(h) && SidesIn(h, s)
    ensures Valid(o.g) && Energetic(o.g) && Extends(h, o.g)
    ensures o.r.Err? ==> o.r.error == ValueError || o.r.error == AttributeError
    ensures o.r.Ok? ==>
      ReactionNode(x.signature) in o.g.index && o.g.index[ReactionNode(x.signature)] == o.r.value
      && o.r.value in o.g.energy && Connected(o.g.rels.t2r, s.ts, o.r.value)
      && o.g.rels.e2t == StateBarriers(h.rels.e2t, s, x.ts.energy)
  {
    var r := MergeReaction(h, x, s, formula);
    if r.r.Err? then r
    else
      var k := LinkStates(r.g, s, x.ts.energy);
      ExtendsTransitive(h, r.g, k);
      Out(k, r.r)
  }

  /** `Reaction(structure)` (lines 380-435): the TS and both complexes, then
      the reaction merged or created, then the ES-to-TS links. The result is
      the reaction node. */
  function PutReaction(g: Graph, x: ReactionInput): (o: Out<nat>)
    requires Valid(g) && Energetic(g)
    ensures Valid(o.g) && Energetic(o.g) && Extends(g, o.g)
    ensures o.r.Err? ==> o.r.error == ValueError || o.r.error == UniqueViolation || o.r.error == AttributeError
    ensures o.r.Ok? ==>
      ReactionNode(x.signature) in o.g.index && o.g.index[ReactionNode(x.signature)] == o.r.value
      && o.r.value in o.g.energy
      && TransitionNode(Some(x.ts.conformer)) in o.g.index
      && Connected(o.g.rels.t2r, o.g.index[TransitionNode(Some(x.ts.conformer))], o.r.value)
    ensures o.r.Ok? ==>
      Prepare(g, x).r.Ok? && o.g.rels.e2t == StateBarriers(g.rels.e2t, Prepare(g, x).r.value, x.ts.energy)
  {
    var p := Prepare(g, x);
    if p.r.Err? then Out(p.g, Err(p.r.error))
    else
      var o := Finish(p.g, x, p.r.value, Formula.FormulaOf(x.ts.symbols));
      ExtendsTransitive(g, p.g, o.g);
      o
  }

  /** Merging or creating the reaction and linking the ESs changes no
      energy but that of the reaction node. */
  lemma FinishEnergy(h: Graph, x: ReactionInput, s: Sides, formula: string, o: Out<nat>)
    requires Valid(h) && Energetic(h) && SidesIn(h, s) && o == Finish(h, x, s, formula)
    ensures EnergyKept(h, o.g, {ReactionNode(x.signature)})
  {
    var r := MergeReaction(h, x, s, formula);
    if ReactionNode(x.signature) !in h.index {
      NewReactionEnergy(h, x, s, formula, r.g);
    }
    if r.r.Ok? {
      var k := LinkStates(r.g, s, x.ts.energy);
      EnergyKeptThrough(h, r.g, k, {ReactionNode(x.signature)});
    }
  }

  /** A reaction whose TS is stored with the same energy is refused, and
      nothing is written. */
  lemma ReactionRefused(h: Graph, x: ReactionInput)
    requires Valid(h) && Energetic(h)
    requires TransitionNode(Some(x.ts.conformer)) in h.index
    requires h.energy[h.index[TransitionNode(Some(x.ts.conformer))]] == x.ts.energy
    ensures PutReaction(h, x) == Out(h, Err(ValueError))
  {
    assert PutConformer(h, TS, x.ts.conformer, x.ts.energy) == Out(h, Err(ValueError));
  }

  /** A reaction met again keeps the barriers stored on its relationships
      with the reactant and product complexes: the reassignment at lines
      414-415 is never saved. */
  lemma ReactionStaleBarriers(g: Graph, x: ReactionInput, o: Out<nat>)
    requires Valid(g) && Energetic(g) && ReactionNode(x.signature) in g.index && o == PutReaction(g, x)
    ensures o.g.rels.c2r == g.rels.c2r && o.g.rels.r2c == g.rels.r2c
  {
    var p := Prepare(g, x);
    assert p.g.rels.c2r == g.rels.c2r && p.g.rels.r2c == g.rels.r2c;
    if p.r.Ok? {
      var r := ExistingReaction(p.g, x, p.r.value);
      assert r == MergeReaction(p.g, x, p.r.value, Formula.FormulaOf(x.ts.symbols));
      assert r.g.rels.c2r == g.rels.c2r && r.g.rels.r2c == g.rels.r2c;
      if r.r.Ok? {
        var k := LinkStates(r.g, p.r.value, x.ts.energy);
        assert o.g == k;
      }
    }
  }
}
