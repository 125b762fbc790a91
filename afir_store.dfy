/** The AFIRdb entity store (AFIRdb/graph.py), the older of the two: nodes
    carry no merged energy, equilibrium and transition states are saved
    afresh on every insertion and never looked up, and a reaction met again
    attaches its new TS through a composition of two atom mappings. */
module AfirStore {
  import opened Base
  import opened Mappings
  import opened GraphDb
  import RePathStore
  import Formula

  /** A structure as the chemistry library describes it for an insertion. */
  datatype Structure = Structure(
    signature: string,      // str(structure): the complex signature
    energy: real,           // structure.meta['energy']
    symbols: seq<string>,   // the atoms' element symbols, for the Brutto formula
    atoms: seq<int>,        // the atom numbers
    parts: seq<Part>,       // structure.split()
    toStored: Mapping)      // next(structure.get_mapping(...)) onto the stored complex, when there is one

  /** A reaction as the chemistry library describes it: the reactant and
      product ESs, the TS (of which only the energy, the symbols and the
      atoms are read) and the answers of the library about them. */
  datatype ReactionInput = ReactionInput(
    reactant: Structure,
    product: Structure,
    ts: Structure,
    signature: string,          // str(r ^ p): the signature of the reaction's CGR
    tsToComplex: Mapping,       // t2c, line 266: next(r.get_mapping(rc.structure))
    reactantMapping: Mapping,   // line 282: next(rc.structure.get_mapping(r))
    productMapping: Mapping)    // line 283: next(pc.structure.get_mapping(p))

  // Equilibrium and transition states

  /** The label of an AFIRdb state: no signature, so never indexed. */
  function Fresh(kind: RePathStore.Kind): (n: Node)
    ensures !Keyed(n)
    ensures kind == RePathStore.ES <==> n.StateNode?
  {
    if kind == RePathStore.ES then StateNode(None) else TransitionNode(None)
  }

  /** `EquilibriumState(structure)` (lines 192-200) and
      `TransitionState(structure)` (lines 324-332): a new node carrying the
      structure's energy is saved every time; nothing is looked up, so the
      index is unchanged. */
  function NewState(g: Graph, kind: RePathStore.Kind, energy: real): (h: Graph)
    requires Valid(g)
    ensures Valid(h) && Extends(g, h) && h.rels == g.rels && h.index == g.index && EnergyKept(g, h, {})
    ensures h.next == g.next + 1 && g.next in h.labels && h.labels[g.next] == Fresh(kind)
    ensures g.next !in g.labels && g.next in h.energy && h.energy[g.next] == energy
  {
    SavedWithEnergy(g, Fresh(kind), energy)
  }

  /** States are never deduplicated: the same structure saved twice gives
      two distinct nodes, each with the structure's energy. */
  lemma StatesNeverShared(g: Graph, kind: RePathStore.Kind, energy: real)
    requires Valid(g)
    ensures var h := NewState(NewState(g, kind, energy), kind, energy);
      h.next == g.next + 2 && h.index == g.index
      && h.labels[g.next] == h.labels[g.next + 1] == Fresh(kind)
      && h.energy[g.next] == h.energy[g.next + 1] == energy
  {
    var h1 := NewState(g, kind, energy);
    assert h1.labels[g.next] == Fresh(kind);
  }

  // Complexes

  /** The fresh ES of a complex insertion: `EquilibriumState(structure)`
      and the E2C relationship to complex `id` carrying `mapping` (line
      147 or 156). The guard `is_connected` of line 146 always fails for
      a node just saved, so the relationship is always added. */
  function LinkedState(g: Graph, id: nat, energy: real, mapping: Mapping): (h: Graph)
    requires Valid(g) && id < g.next
    ensures Valid(h) && Extends(g, h) && EnergyKept(g, h, {}) && h.index == g.index && h.next == g.next + 1
    ensures g.next in h.labels && h.labels[g.next] == StateNode(None)
    ensures g.next in h.energy && h.energy[g.next] == energy
    ensures h.rels.b2c == g.rels.b2c && h.rels.m2c == g.rels.m2c && RePathStore.ReactionRelsKept(g, h)
    ensures h.rels.e2c == g.rels.e2c + [Edge(g.next, id, Some(ToJson(mapping)), None)]
    ensures CarriesOnly(h.rels.e2c, Edge(g.next, id, Some(ToJson(mapping)), None))
  {
    var s := NewState(g, RePathStore.ES, energy);
    EsGuardPasses(g, id, energy);
    var h := Link(s, E2C, Edge(g.next, id, Some(ToJson(mapping)), None));
    ExtendsTransitive(g, s, h);
    h
  }

  /** The new ES is never connected yet: the test at line 146 always lets
      the relationship through. */
  lemma EsGuardPasses(g: Graph, id: nat, energy: real)
    requires Valid(g)
    ensures !Connected(NewState(g, RePathStore.ES, energy).rels.e2c, g.next, id)
  {
    FieldsBelow(g);
    NotAnEnd(g.rels.e2c, g.next, id, g.next);
  }

  /** Lines 143-148, a complex signature already stored: a fresh ES is
      saved and linked to the stored complex with the mapping onto the
      stored structure. Nothing else is written. */
  function ExistingComplex(g: Graph, c: Structure): (o: Out<(nat, nat)>)
    requires Valid(g) && ComplexNode(c.signature) in g.index
    ensures Valid(o.g) && Extends(g, o.g) && EnergyKept(g, o.g, {}) && o.g.index == g.index
    ensures o.r == Ok((g.index[ComplexNode(c.signature)], g.next))
    ensures o.g.next == g.next + 1 && g.next in o.g.labels && o.g.labels[g.next] == StateNode(None)
    ensures g.next in o.g.energy && o.g.energy[g.next] == c.energy
    ensures o.g.rels.b2c == g.rels.b2c && o.g.rels.m2c == g.rels.m2c && RePathStore.ReactionRelsKept(g, o.g)
    ensures o.g.rels.e2c == g.rels.e2c + [Edge(g.next, g.index[ComplexNode(c.signature)], Some(ToJson(c.toStored)), None)]
  {
    var id := g.index[ComplexNode(c.signature)];
    Out(LinkedState(g, id, c.energy, c.toStored), Ok((id, g.next)))
  }

  /** Lines 140-142 and 149: the new complex node, linked from the Brutto
      node of its formula. Neither node is a Molecule, so the clashes of
      the components are unchanged. */
  function SaveComplex(g: Graph, c: Structure, formula: string): (h: Graph)
    requires Valid(g) && ComplexNode(c.signature) !in g.index
    ensures Valid(h) && Extends(g, h) && h.energy == g.energy && g.next < h.next
    ensures RePathStore.ReactionRelsKept(g, h) && RePathStore.NoNewReaction(g, h) && h.rels.m2c == g.rels.m2c && h.rels.e2c == g.rels.e2c
    ensures ComplexNode(c.signature) in h.index && h.index[ComplexNode(c.signature)] == g.next
    ensures BruttoNode(formula) in h.index && Connected(h.rels.b2c, h.index[BruttoNode(formula)], g.next)
    ensures RePathStore.AnyClash(h.index, c.parts) == RePathStore.AnyClash(g.index, c.parts)
  {
    var g1 := Saved(g, ComplexNode(c.signature));
    var h := RePathStore.LinkBrutto(g1, B2C, g.next, formula);
    ExtendsTransitive(g, g1, h);
    RePathStore.ClashSameMolecules(g.index, h.index, ComplexNode(c.signature), BruttoNode(formula), c.parts);
    h
  }

  /** Lines 150-156 for the new complex `id`: a Molecule per component is
      linked to it; then a fresh ES is saved and linked with the identity
      mapping. A component whose new CGRdb id is taken stops the insertion
      before the ES is saved. */
  function LinkComplex(g: Graph, id: nat, c: Structure): (o: Out<(nat, nat)>)
    requires Valid(g) && id < g.next
    ensures Valid(o.g) && Extends(g, o.g) && EnergyKept(g, o.g, {})
    ensures o.g.index.Keys <= g.index.Keys + RePathStore.MoleculesOf(c.parts)
    ensures RePathStore.ReactionRelsKept(g, o.g) && o.g.rels.b2c == g.rels.b2c && g.rels.e2c <= o.g.rels.e2c
    ensures o.r.Err? <==> RePathStore.AnyClash(g.index, c.parts)
    ensures o.r.Err? ==> o.r.error == UniqueViolation
    ensures o.r.Ok? ==>
      o.r.value.0 == id && g.next <= o.r.value.1 < o.g.next
      && o.r.value.1 in o.g.labels && o.g.labels[o.r.value.1] == StateNode(None)
      && o.r.value.1 in o.g.energy && o.g.energy[o.r.value.1] == c.energy
      && RePathStore.AllLinked(o.g, id, c.parts)
      && Connected(o.g.rels.e2c, o.r.value.1, id)
      && o.g.rels.e2c == g.rels.e2c + [Edge(o.r.value.1, id, Some(ToJson(Identity(c.atoms))), None)]
    ensures o.r.Ok? ==>
      RePathStore.Indexed(o.g.index, c.parts) && o.g.rels.m2c == Merge(g.rels.m2c, RePathStore.PartEdges(o.g.index, id, c.parts))
  {
    RePathStore.PartsOutcome(g, id, c.parts);
    RePathStore.PartsKeys(g, id, c.parts);
    var m := RePathStore.PutParts(g, id, c.parts);
    if m.r.Err? then Out(m.g, Err(UniqueViolation))
    else
      var h := LinkedState(m.g, id, c.energy, Identity(c.atoms));
      ExtendsTransitive(g, m.g, h);
      assert h.rels.e2c[|m.g.rels.e2c|].src == m.g.next;
      Out(h, Ok((id, m.g.next)))
  }

  /** Lines 140-142 and 148-156, a complex not seen before: saved, linked from its
      Brutto node, then `LinkComplex`. */
  function NewComplex(g: Graph, c: Structure, formula: string): (o: Out<(nat, nat)>)
    requires Valid(g) && ComplexNode(c.signature) !in g.index
    ensures Valid(o.g) && Extends(g, o.g) && EnergyKept(g, o.g, {})
    ensures RePathStore.ReactionRelsKept(g, o.g) && RePathStore.NoNewReaction(g, o.g) && g.rels.e2c <= o.g.rels.e2c
    ensures ComplexNode(c.signature) in o.g.index && o.g.index[ComplexNode(c.signature)] == g.next
    ensures o.r.Err? <==> RePathStore.AnyClash(g.index, c.parts)
    ensures o.r.Err? ==> o.r.error == UniqueViolation
    ensures o.r.Ok? ==>
      o.r.value.0 == g.next && g.next < o.r.value.1 < o.g.next
      && o.r.value.1 in o.g.labels && o.g.labels[o.r.value.1] == StateNode(None)
      && o.r.value.1 in o.g.energy && o.g.energy[o.r.value.1] == c.energy
      && BruttoNode(formula) in o.g.index && Connected(o.g.rels.b2c, o.g.index[BruttoNode(formula)], g.next)
      && RePathStore.AllLinked(o.g, g.next, c.parts)
      && Connected(o.g.rels.e2c, o.r.value.1, g.next)
      && o.g.rels.e2c == g.rels.e2c + [Edge(o.r.value.1, g.next, Some(ToJson(Identity(c.atoms))), None)]
    ensures o.r.Ok? ==>
      RePathStore.Indexed(o.g.index, c.parts) && o.g.rels.m2c == Merge(g.rels.m2c, RePathStore.PartEdges(o.g.index, g.next, c.parts))
  {
    var g2 := SaveComplex(g, c, formula);
    var o := LinkComplex(g2, g.next, c);
    ExtendsTransitive(g, g2, o.g);
    o
  }

  /** `Complex(structure)` (lines 138-159): the complex and its `__es__`.
      A stored signature gets a fresh ES and nothing else; a new one is
      created with its Brutto and Molecule links and a fresh ES. No energy
      already stored changes. */
  function PutComplex(g: Graph, c: Structure): (o: Out<(nat, nat)>)
    requires Valid(g)
    ensures Valid(o.g) && Extends(g, o.g) && EnergyKept(g, o.g, {})
    ensures RePathStore.ReactionRelsKept(g, o.g) && RePathStore.NoNewReaction(g, o.g) && g.rels.e2c <= o.g.rels.e2c
    ensures o.r.Err? <==> ComplexNode(c.signature) !in g.index && RePathStore.AnyClash(g.index, c.parts)
    ensures o.r.Err? ==> o.r.error == UniqueViolation
    ensures o.r.Ok? ==>
      ComplexNode(c.signature) in o.g.index && o.g.index[ComplexNode(c.signature)] == o.r.value.0
      && o.r.value.1 < o.g.next && EsOf(o.g, c, o.r.value.1, g.next)
    ensures o.r.Ok? ==>
      var mapping := if ComplexNode(c.signature) in g.index then c.toStored else Identity(c.atoms);
      o.g.rels.e2c == g.rels.e2c + [Edge(o.r.value.1, o.r.value.0, Some(ToJson(mapping)), None)]
  {
    if ComplexNode(c.signature) in g.index then
      var o := ExistingComplex(g, c);
      assert o.g.rels.e2c[|g.rels.e2c|] == Edge(g.next, o.r.value.0, Some(ToJson(c.toStored)), None);
      o
    else NewComplex(g, c, Formula.FormulaOf(c.symbols))
  }

  /** The Molecule relationships of `Complex(structure)`: none for a
      signature already stored; for a new one, those of its components
      merged in the order of `split()`. */
  lemma ComplexMolecules(g: Graph, c: Structure)
    requires Valid(g)
    ensures var o := PutComplex(g, c);
      o.r.Ok? ==>
        (ComplexNode(c.signature) in g.index ==> o.g.rels.m2c == g.rels.m2c)
        && (ComplexNode(c.signature) !in g.index ==>
              RePathStore.Indexed(o.g.index, c.parts)
              && o.g.rels.m2c == Merge(g.rels.m2c, RePathStore.PartEdges(o.g.index, o.r.value.0, c.parts)))
  {
  }

  /** Every insertion of a complex adds a new ES, even for a signature met
      before: the second insertion of the same structure returns the same
      complex with a different ES, and adds exactly one E2C relationship,
      carrying the mapping onto the stored structure. */
  lemma ComplexAgain(g: Graph, c: Structure)
    requires Valid(g) && PutComplex(g, c).r.Ok?
    ensures var first := PutComplex(g, c);
      var second := PutComplex(first.g, c);
      second.r.Ok? && second.r.value.0 == first.r.value.0 && second.r.value.1 != first.r.value.1
      && second.g.rels.e2c == first.g.rels.e2c + [Edge(first.g.next, first.r.value.0, Some(ToJson(c.toStored)), None)]
  {
    var first := PutComplex(g, c);
    assert ComplexNode(c.signature) in first.g.index;
    var second := ExistingComplex(first.g, c);
    assert PutComplex(first.g, c) == second;
  }

  /** A new complex with distinct components is joined from one Molecule
      per component, in the order of `split()`, each relationship carrying
      that component's mapping. */
  lemma ComplexComponents(g: Graph, c: Structure)
    requires Valid(g) && ComplexNode(c.signature) !in g.index && RePathStore.Distinct(c.parts)
    ensures var o := PutComplex(g, c);
      o.r.Ok? ==> o.g.rels.m2c == g.rels.m2c + RePathStore.PartEdges(o.g.index, o.r.value.0, c.parts)
  {
    var o := PutComplex(g, c);
    if o.r.Ok? {
      ComplexMolecules(g, c);
      FieldsBelow(g);
      RePathStore.PartsFresh(o.g, g.rels.m2c, g.next, c.parts);
    }
  }

  // Reactions

  /** `self.reactant.relationship(rc)`: the position of the first
      relationship from `src` to `dst`, or `|edges|` when there is none. */
  function FindAt(edges: seq<Edge>, src: nat, dst: nat): (i: nat)
    ensures i <= |edges|
    ensures i < |edges| <==> Connected(edges, src, dst)
    ensures i < |edges| ==> edges[i].src == src && edges[i].dst == dst
    decreases |edges|
  {
    if |edges| == 0 then 0
    else if edges[0].src == src && edges[0].dst == dst then 0
    else
      var j := FindAt(edges[1..], src, dst);
      assert Connected(edges, src, dst) ==> Connected(edges[1..], src, dst) by {
        if Connected(edges, src, dst) {
          var k :| 0 <= k < |edges| && edges[k].src == src && edges[k].dst == dst;
          assert edges[1..][k - 1] == edges[k];
        }
      }
      if j < |edges| - 1 then
        assert edges[1..][j] == edges[j + 1];
        j + 1
      else |edges|
  }

  /** The composition at line 269 on the `mapping` property of the
      relationship found: a property never set reads as None, and
      subscripting it is a TypeError unless nothing is looked up. */
  function ComposeStoredProperty(t2c: Mapping, c2r: Option<Json>): (r: Result<Mapping>)
    ensures r.Err? ==> r.error == KeyError || r.error == TypeError
    ensures c2r.Some? ==> r == Compose(t2c, c2r.value)
    ensures c2r.None? ==> (r.Ok? <==> t2c == map[])
  {
    match c2r
    case None => if t2c == map[] then Ok(map[]) else Err(TypeError)
    case Some(j) => Compose(t2c, j)
  }

  /** The two Barrier relationships of lines 273-274 (and 291-292), from
      the reactant ES and from the product ES into TS `ts`, each carrying
      the TS energy less the energy of that ES. */
  function LinkBarriers(g: Graph, x: ReactionInput, ts: nat, re: nat, pe: nat): (h: Graph)
    requires Valid(g) && ts < g.next && re < g.next && pe < g.next && re != pe
    requires !Connected(g.rels.e2t, re, ts) && !Connected(g.rels.e2t, pe, ts)
    ensures Valid(h) && Extends(g, h) && h == g.(rels := h.rels) && Others(g.rels, h.rels, E2T)
    ensures h.rels.e2t == g.rels.e2t + [
      Edge(re, ts, None, Some(RePathStore.Barrier(x.ts.energy, x.reactant.energy))),
      Edge(pe, ts, None, Some(RePathStore.Barrier(x.ts.energy, x.product.energy)))]
  {
    var first := Edge(re, ts, None, Some(RePathStore.Barrier(x.ts.energy, x.reactant.energy)));
    var second := Edge(pe, ts, None, Some(RePathStore.Barrier(x.ts.energy, x.product.energy)));
    var g1 := Link(g, E2T, first);
    assert !Connected(g1.rels.e2t, pe, ts) by {
      assert g1.rels.e2t == g.rels.e2t + [first];
      forall k | 0 <= k < |g1.rels.e2t| ensures !(g1.rels.e2t[k].src == pe && g1.rels.e2t[k].dst == ts) {
        if k < |g.rels.e2t| {
          assert g1.rels.e2t[k] == g.rels.e2t[k];
        }
      }
    }
    Link(g1, E2T, second)
  }

  /** `h` holds TS `ts` attached to reaction `id`, measured from the T2R
      relationships `t2r` and the Barrier relationships `e2t` held before:
      the TS carries the TS energy, one T2R relationship from it to the
      reaction follows `t2r`, and two Barrier relationships into it follow
      `e2t`, the first carrying the TS energy less the reactant ES energy,
      the second the TS energy less the product ES energy. */
  predicate TsAttached(t2r: seq<Edge>, e2t: seq<Edge>, h: Graph, x: ReactionInput, id: nat, ts: nat) {
    ts in h.labels && h.labels[ts] == TransitionNode(None) && ts in h.energy && h.energy[ts] == x.ts.energy
    && |h.rels.t2r| == |t2r| + 1 && h.rels.t2r[..|t2r|] == t2r
    && h.rels.t2r[|t2r|].src == ts && h.rels.t2r[|t2r|].dst == id
    && |h.rels.e2t| == |e2t| + 2 && h.rels.e2t[..|e2t|] == e2t
    && h.rels.e2t[|e2t|].dst == ts && h.rels.e2t[|e2t| + 1].dst == ts
    && h.rels.e2t[|e2t|].energy == Some(RePathStore.Barrier(x.ts.energy, x.reactant.energy))
    && h.rels.e2t[|e2t| + 1].energy == Some(RePathStore.Barrier(x.ts.energy, x.product.energy))
  }

  /** `e` is an ES saved by this insertion (at or after `from`), carrying
      the energy of `s` and joined by E2C to the stored complex of `s`. */
  predicate EsOf(h: Graph, s: Structure, e: nat, from: nat) {
    from <= e && e in h.labels && h.labels[e] == StateNode(None) && e in h.energy && h.energy[e] == s.energy
    && ComplexNode(s.signature) in h.index && Connected(h.rels.e2c, e, h.index[ComplexNode(s.signature)])
  }

  /** The two Barrier relationships appended after `e2t` start from the
      reactant ES and from the product ES of `x` saved since `from`, the
      reactant's saved first. */
  predicate BarriersFromStates(e2t: seq<Edge>, h: Graph, x: ReactionInput, from: nat) {
    |e2t| + 2 <= |h.rels.e2t|
    && EsOf(h, x.reactant, h.rels.e2t[|e2t|].src, from) && EsOf(h, x.product, h.rels.e2t[|e2t| + 1].src, from)
    && h.rels.e2t[|e2t|].src < h.rels.e2t[|e2t| + 1].src
  }

  /** An ES stays what `EsOf` says through later writes that lose no node,
      change no energy and remove no E2C relationship. */
  lemma EsOfKept(g: Graph, h: Graph, s: Structure, e: nat, from: nat)
    requires EsOf(g, s, e, from) && Extends(g, h) && EnergyKept(g, h, {}) && g.rels.e2c <= h.rels.e2c
    ensures EsOf(h, s, e, from)
  {
    var k := g.index[ComplexNode(s.signature)];
    var i :| 0 <= i < |g.rels.e2c| && g.rels.e2c[i].src == e && g.rels.e2c[i].dst == k;
    assert h.rels.e2c[i] == g.rels.e2c[i];
  }

  lemma EsOfFrom(h: Graph, s: Structure, e: nat, from: nat, later: nat)
    requires EsOf(h, s, e, later) && from <= later
    ensures EsOf(h, s, e, from)
  {
  }

  /** The relationships a TS attachment appends make `TsAttached` hold. */
  lemma AttachedBy(g: Graph, h: Graph, x: ReactionInput, id: nat, ts: nat, link: Edge, re: nat, pe: nat)
    requires ts in h.labels && h.labels[ts] == TransitionNode(None) && ts in h.energy && h.energy[ts] == x.ts.energy
    requires h.rels.t2r == g.rels.t2r + [link] && link.src == ts && link.dst == id
    requires h.rels.e2t == g.rels.e2t + [
      Edge(re, ts, None, Some(RePathStore.Barrier(x.ts.energy, x.reactant.energy))),
      Edge(pe, ts, None, Some(RePathStore.Barrier(x.ts.energy, x.product.energy)))]
    ensures TsAttached(g.rels.t2r, g.rels.e2t, h, x, id, ts)
  {
    assert h.rels.t2r[..|g.rels.t2r|] == g.rels.t2r;
    assert h.rels.e2t[..|g.rels.e2t|] == g.rels.e2t;
  }

  /** Lines 270-275 after the T2R relationship: the product complex, then
      the two Barrier relationships into TS `ts`, from the reactant ES `re`
      and from the product's new ES, which is the result. */
  function AttachProduct(g: Graph, x: ReactionInput, ts: nat, re: nat): (o: Out<nat>)
    requires Valid(g) && ts < g.next && re < g.next && EdgesBelow(g.rels.e2t, ts)
    ensures Valid(o.g) && Extends(g, o.g) && EnergyKept(g, o.g, {}) && g.rels.e2c <= o.g.rels.e2c
    ensures o.g.rels.c2r == g.rels.c2r && o.g.rels.r2c == g.rels.r2c && o.g.rels.b2r == g.rels.b2r
    ensures o.g.rels.t2r == g.rels.t2r
    ensures o.r.Err? ==> o.r.error == UniqueViolation
    ensures o.r.Ok? ==>
      EsOf(o.g, x.product, o.r.value, g.next)
      && o.g.rels.e2t == g.rels.e2t + [
        Edge(re, ts, None, Some(RePathStore.Barrier(x.ts.energy, x.reactant.energy))),
        Edge(o.r.value, ts, None, Some(RePathStore.Barrier(x.ts.energy, x.product.energy)))]
  {
    var pc := PutComplex(g, x.product);
    if pc.r.Err? then Out(pc.g, Err(UniqueViolation))
    else
      var pe := pc.r.value.1;
      NotAnEnd(g.rels.e2t, ts, re, ts);
      NotAnEnd(g.rels.e2t, ts, pe, ts);
      assert !Connected(pc.g.rels.e2t, re, ts) && !Connected(pc.g.rels.e2t, pe, ts);
      assert re != pe;
      var h := LinkBarriers(pc.g, x, ts, re, pe);
      assert h.energy == pc.g.energy && h.labels == pc.g.labels && h.index == pc.g.index;
      assert h.rels.e2c == pc.g.rels.e2c;
      assert EsOf(pc.g, x.product, pe, g.next);
      assert EsOf(h, x.product, pe, g.next);
      ExtendsTransitive(g, pc.g, h);
      Out(h, Ok(pe))
  }

  /** Lines 269-275 once the composed mapping `m` is known: the T2R
      relationship from TS `ts` carrying `m`, then the product complex,
      then the two Barrier relationships from the reactant ES `re` and the
      product ES. */
  function AttachRest(g: Graph, x: ReactionInput, id: nat, ts: nat, re: nat, m: Mapping): (o: Out<nat>)
    requires Valid(g) && id < g.next && ts < g.next && re < g.next
    requires ts in g.labels && g.labels[ts] == TransitionNode(None) && ts in g.energy && g.energy[ts] == x.ts.energy
    requires EdgesBelow(g.rels.t2r, ts) && EdgesBelow(g.rels.e2t, ts)
    ensures Valid(o.g) && Extends(g, o.g) && EnergyKept(g, o.g, {})
    ensures o.g.rels.c2r == g.rels.c2r && o.g.rels.r2c == g.rels.r2c && o.g.rels.b2r == g.rels.b2r
    ensures o.r.Err? ==> o.r.error == UniqueViolation
    ensures g.rels.e2c <= o.g.rels.e2c
    ensures o.r.Ok? ==>
      o.r.value == id && TsAttached(g.rels.t2r, g.rels.e2t, o.g, x, id, ts)
      && o.g.rels.t2r[|g.rels.t2r|].mapping == Some(ToJson(m))
      && o.g.rels.e2t[|g.rels.e2t|].src == re && EsOf(o.g, x.product, o.g.rels.e2t[|g.rels.e2t| + 1].src, g.next)
  {
    var link := Edge(ts, id, Some(ToJson(m)), None);
    NotAnEnd(g.rels.t2r, ts, id, ts);
    var g2 := Link(g, T2R, link);
    assert g2.rels.t2r == g.rels.t2r + [link];
    var b := AttachProduct(g2, x, ts, re);
    ExtendsTransitive(g, g2, b.g);
    if b.r.Err? then Out(b.g, Err(UniqueViolation))
    else
      assert b.g.energy[ts] == x.ts.energy;
      AttachedBy(g, b.g, x, id, ts, link, re, b.r.value);
      assert b.g.rels.e2t[|g.rels.e2t| + 1].src == b.r.value;
      Out(b.g, Ok(id))
  }

  /** Lines 266-275 once the reactant complex `c` and its ES `re` are
      written: the mapping of the reactant relationship into reaction `id`
      is read (AttributeError when there is none) and composed with `t2c`
      (line 269), and `AttachRest` writes the rest. */
  function AttachTs(g: Graph, x: ReactionInput, id: nat, ts: nat, c: nat, re: nat): (o: Out<nat>)
    requires Valid(g) && id < g.next && ts < g.next && re < g.next
    requires ts in g.labels && g.labels[ts] == TransitionNode(None) && ts in g.energy && g.energy[ts] == x.ts.energy
    requires EdgesBelow(g.rels.t2r, ts) && EdgesBelow(g.rels.e2t, ts)
    ensures Valid(o.g) && Extends(g, o.g) && EnergyKept(g, o.g, {})
    ensures o.g.rels.c2r == g.rels.c2r && o.g.rels.r2c == g.rels.r2c && o.g.rels.b2r == g.rels.b2r
    ensures !Connected(g.rels.c2r, c, id) ==> o == Out(g, Err(AttributeError))
    ensures o.r.Err? ==> o.r.error in {AttributeError, KeyError, TypeError, UniqueViolation}
    ensures g.rels.e2c <= o.g.rels.e2c
    ensures o.r.Ok? ==>
      o.r.value == id && TsAttached(g.rels.t2r, g.rels.e2t, o.g, x, id, ts)
      && o.g.rels.e2t[|g.rels.e2t|].src == re && EsOf(o.g, x.product, o.g.rels.e2t[|g.rels.e2t| + 1].src, g.next)
    ensures Connected(g.rels.c2r, c, id) ==>
      var t2r := ComposeStoredProperty(x.tsToComplex, g.rels.c2r[FindAt(g.rels.c2r, c, id)].mapping);
      (t2r.Err? ==> o == Out(g, Err(t2r.error)))
      && (t2r.Ok? ==> o == AttachRest(g, x, id, ts, re, t2r.value))
  {
    var at := FindAt(g.rels.c2r, c, id);
    if at == |g.rels.c2r| then Out(g, Err(AttributeError))
    else
      var t2r := ComposeStoredProperty(x.tsToComplex, g.rels.c2r[at].mapping);
      if t2r.Err? then Out(g, Err(t2r.error))
      else AttachRest(g, x, id, ts, re, t2r.value)
  }

  /** The new TS never passes the test at line 265: a node just saved is
      joined to nothing, so every repeat insertion attaches its TS. */
  lemma TsGuardPasses(g: Graph, x: ReactionInput, id: nat)
    requires Valid(g)
    ensures !Connected(NewState(g, RePathStore.TS, x.ts.energy).rels.t2r, g.next, id)
  {
    FieldsBelow(g);
    NotAnEnd(g.rels.t2r, g.next, id, g.next);
  }

  /** Lines 262-275, a reaction `id` met again: a fresh TS is saved, the
      reactant complex inserted (with its own fresh ES), and `AttachTs`
      does the rest. Each repeat insertion that goes through adds one TS
      and two Barrier relationships, and writes no C2R, R2C or B2R
      relationship. */
  function ExistingReaction(g: Graph, x: ReactionInput, id: nat): (o: Out<nat>)
    requires Valid(g) && id < g.next
    ensures Valid(o.g) && Extends(g, o.g) && EnergyKept(g, o.g, {})
    ensures o.g.rels.c2r == g.rels.c2r && o.g.rels.r2c == g.rels.r2c && o.g.rels.b2r == g.rels.b2r
    ensures o.r.Err? ==> o.r.error in {AttributeError, KeyError, TypeError, UniqueViolation}
    ensures o.r.Ok? ==> o.r.value == id && TsAttached(g.rels.t2r, g.rels.e2t, o.g, x, id, g.next)
    ensures o.r.Ok? ==> BarriersFromStates(g.rels.e2t, o.g, x, g.next)
  {
    var g1 := NewState(g, RePathStore.TS, x.ts.energy);
    FieldsBelow(g);
    var o := ReactantTs(g1, x, id, g.next);
    ExtendsTransitive(g, g1, o.g);
    RePathStore.EnergyKeptAfter(g, g1, o.g, {});
    o
  }

  /** Lines 263-275 once TS `ts` is saved: the reactant complex, then
      `AttachTs` from its new ES. */
  function ReactantTs(g: Graph, x: ReactionInput, id: nat, ts: nat): (o: Out<nat>)
    requires Valid(g) && id < g.next && ts < g.next
    requires ts in g.labels && g.labels[ts] == TransitionNode(None) && ts in g.energy && g.energy[ts] == x.ts.energy
    requires EdgesBelow(g.rels.t2r, ts) && EdgesBelow(g.rels.e2t, ts)
    ensures Valid(o.g) && Extends(g, o.g) && EnergyKept(g, o.g, {})
    ensures o.g.rels.c2r == g.rels.c2r && o.g.rels.r2c == g.rels.r2c && o.g.rels.b2r == g.rels.b2r
    ensures o.r.Err? ==> o.r.error in {AttributeError, KeyError, TypeError, UniqueViolation}
    ensures o.r.Ok? ==> o.r.value == id && TsAttached(g.rels.t2r, g.rels.e2t, o.g, x, id, ts)
    ensures o.r.Ok? ==> BarriersFromStates(g.rels.e2t, o.g, x, ts)
  {
    var rc := PutComplex(g, x.reactant);
    if rc.r.Err? then Out(rc.g, Err(rc.r.error))
    else
      assert rc.g.rels.t2r == g.rels.t2r;
      assert rc.g.rels.e2t == g.rels.e2t;
      assert ts in rc.g.labels && rc.g.labels[ts] == TransitionNode(None);
      assert ts in rc.g.energy && rc.g.energy[ts] == x.ts.energy;
      var o := AttachTs(rc.g, x, id, ts, rc.r.value.0, rc.r.value.1);
      ExtendsTransitive(g, rc.g, o.g);
      RePathStore.EnergyKeptAfter(g, rc.g, o.g, {});
      if o.r.Ok? then
        var re, pe := rc.r.value.1, o.g.rels.e2t[|g.rels.e2t| + 1].src;
        assert EsOf(o.g, x.product, pe, rc.g.next);
        assert EsOf(o.g, x.reactant, re, ts) by {
          EsOfKept(rc.g, o.g, x.reactant, re, g.next);
          EsOfFrom(o.g, x.reactant, re, ts, g.next);
        }
        EsOfFrom(o.g, x.product, pe, ts, rc.g.next);
        assert o.g.rels.e2t[|g.rels.e2t|].src == re < pe;
        o
      else o
  }

  /** The composition of line 269 at work: when the reactant complex's
      relationship into the reaction carries a stored mapping `m`, the
      repeat insertion goes past it exactly when every atom of the
      reactant lands, through `t2c`, on an atom `m` maps, and the new T2R
      relationship then carries `k ↦ m[t2c[k]]`. */
  lemma AttachComposes(g: Graph, x: ReactionInput, id: nat, ts: nat, c: nat, re: nat, m: Mapping)
    requires Valid(g) && id < g.next && ts < g.next && re < g.next
    requires ts in g.labels && g.labels[ts] == TransitionNode(None) && ts in g.energy && g.energy[ts] == x.ts.energy
    requires EdgesBelow(g.rels.t2r, ts) && EdgesBelow(g.rels.e2t, ts)
    requires Connected(g.rels.c2r, c, id) && CarriesOnly(g.rels.c2r, Edge(c, id, Some(ToJson(m)), None))
    ensures var o := AttachTs(g, x, id, ts, c, re);
      (o.r.Err? && o.r.error == KeyError <==> !forall k :: k in x.tsToComplex ==> x.tsToComplex[k] in m)
      && (o.r.Ok? ==> o.g.rels.t2r[|g.rels.t2r|].mapping == Some(ToJson(map k | k in x.tsToComplex :: m[x.tsToComplex[k]])))
  {
    var at := FindAt(g.rels.c2r, c, id);
    assert g.rels.c2r[at] == Edge(c, id, Some(ToJson(m)), None);
    StoredComposition(x.tsToComplex, m);
  }

  /** Composing through a relationship that carries the stored mapping `m`
      is `m ∘ t2c`, and fails with a KeyError exactly when some atom of
      `t2c` lands outside `m`. */
  lemma StoredComposition(t2c: Mapping, m: Mapping)
    ensures var r := ComposeStoredProperty(t2c, Some(ToJson(m)));
      (r.Ok? <==> forall k :: k in t2c ==> t2c[k] in m)
      && (r.Err? ==> r.error == KeyError)
      && (r.Ok? ==> r.value == map k | k in t2c :: m[t2c[k]])
  {
    ComposeStored(t2c, m);
    var r := Compose(t2c, ToJson(m));
    if r.Ok? {
      var composed := map k | k in t2c :: m[t2c[k]];
      SameEntries(r.value, composed);
    }
  }

  /** `rc` and `pc` are the reactant and product complexes of `x`, each
      with its own ES, as `h` indexes them. */
  predicate SidesIn(h: Graph, x: ReactionInput, rc: (nat, nat), pc: (nat, nat)) {
    rc.0 < h.next && rc.1 < h.next && pc.0 < h.next && pc.1 < h.next && rc.1 != pc.1
    && ComplexNode(x.reactant.signature) in h.index && h.index[ComplexNode(x.reactant.signature)] == rc.0
    && ComplexNode(x.product.signature) in h.index && h.index[ComplexNode(x.product.signature)] == pc.0
  }

  /** Lines 280-281: the reactant complex, then the product complex, each
      with its fresh ES. */
  function BothComplexes(g: Graph, x: ReactionInput): (o: Out<((nat, nat), (nat, nat))>)
    requires Valid(g)
    ensures Valid(o.g) && Extends(g, o.g) && EnergyKept(g, o.g, {}) && RePathStore.ReactionRelsKept(g, o.g)
    ensures o.r.Err? ==> o.r.error == UniqueViolation
    ensures o.r.Ok? ==> SidesIn(o.g, x, o.r.value.0, o.r.value.1)
    ensures o.r.Ok? ==>
      EsOf(o.g, x.reactant, o.r.value.0.1, g.next) && EsOf(o.g, x.product, o.r.value.1.1, g.next)
      && o.r.value.0.1 < o.r.value.1.1
  {
    var rc := PutComplex(g, x.reactant);
    if rc.r.Err? then Out(rc.g, Err(UniqueViolation))
    else
      var pc := PutComplex(rc.g, x.product);
      ExtendsTransitive(g, rc.g, pc.g);
      if pc.r.Err? then Out(pc.g, Err(UniqueViolation))
      else
        EsOfKept(rc.g, pc.g, x.reactant, rc.r.value.1, g.next);
        Out(pc.g, Ok((rc.r.value, pc.r.value)))
  }

  /** Lines 276-292 after the Brutto link: both complexes are inserted, the
      reaction is linked from them with their mappings, and a fresh TS is
      attached with the identity mapping. The result is the reaction and
      the TS. */
  function LinkNewReaction(g: Graph, x: ReactionInput, id: nat): (o: Out<(nat, nat)>)
    requires Valid(g) && id < g.next && Unlinked(g, id)
    ensures Valid(o.g) && Extends(g, o.g) && EnergyKept(g, o.g, {})
    ensures o.g.rels.b2r == g.rels.b2r
    ensures o.r.Err? ==> o.r.error == UniqueViolation
    ensures o.r.Ok? ==>
      o.r.value.0 == id && g.next <= o.r.value.1 && ComplexesLinked(o.g, x, id) && TsAttached(g.rels.t2r, g.rels.e2t, o.g, x, id, o.r.value.1)
      && o.g.rels.t2r[|g.rels.t2r|].mapping == Some(ToJson(Identity(x.ts.atoms)))
    ensures o.r.Ok? ==> BarriersFromStates(g.rels.e2t, o.g, x, g.next)
  {
    var sides := BothComplexes(g, x);
    if sides.r.Err? then Out(sides.g, Err(UniqueViolation))
    else
      var (rc, pc) := sides.r.value;
      var o := LinkSides(sides.g, x, id, rc, pc);
      ExtendsTransitive(g, sides.g, o);
      RePathStore.EnergyKeptAfter(g, sides.g, o, {});
      SidesBarriers(sides.g, x, id, rc, pc, g.next);
      Out(o, Ok((id, sides.g.next)))
  }

  /** The reaction `id` is linked from the stored complex of its reactant
      (C2R) and of its product (R2C), each relationship carrying the
      mapping onto that side. */
  predicate ComplexesLinked(h: Graph, x: ReactionInput, id: nat) {
    ComplexNode(x.reactant.signature) in h.index && ComplexNode(x.product.signature) in h.index
    && Connected(h.rels.c2r, h.index[ComplexNode(x.reactant.signature)], id)
    && CarriesOnly(h.rels.c2r, Edge(h.index[ComplexNode(x.reactant.signature)], id, Some(ToJson(x.reactantMapping)), None))
    && Connected(h.rels.r2c, h.index[ComplexNode(x.product.signature)], id)
    && CarriesOnly(h.rels.r2c, Edge(h.index[ComplexNode(x.product.signature)], id, Some(ToJson(x.productMapping)), None))
  }

  /** Lines 282-283: the new reaction `id` linked from the reactant
      complex (C2R) and from the product complex (R2C), each relationship
      carrying the complex's mapping onto the reaction's side. */
  function LinkComplexes(g: Graph, x: ReactionInput, id: nat, rc: nat, pc: nat): (h: Graph)
    requires Valid(g) && id < g.next && rc < g.next && pc < g.next && Unlinked(g, id)
    ensures Valid(h) && Extends(g, h) && h.next == g.next && h.labels == g.labels && h.index == g.index && h.energy == g.energy
    ensures h.rels.b2c == g.rels.b2c && h.rels.m2c == g.rels.m2c && h.rels.e2c == g.rels.e2c && h.rels.b2r == g.rels.b2r
    ensures h.rels.t2r == g.rels.t2r && h.rels.e2t == g.rels.e2t
    ensures Connected(h.rels.c2r, rc, id) && CarriesOnly(h.rels.c2r, Edge(rc, id, Some(ToJson(x.reactantMapping)), None))
    ensures Connected(h.rels.r2c, pc, id) && CarriesOnly(h.rels.r2c, Edge(pc, id, Some(ToJson(x.productMapping)), None))
  {
    var g1 := Link(g, C2R, Edge(rc, id, Some(ToJson(x.reactantMapping)), None));
    Link(g1, R2C, Edge(pc, id, Some(ToJson(x.productMapping)), None))
  }

  /** The reaction `id` has no C2R or R2C relationship yet: it was saved by
      this insertion (lines 259-261) just before the complexes are linked. */
  predicate Unlinked(g: Graph, id: nat) {
    (forall i :: 0 <= i < |g.rels.c2r| ==> g.rels.c2r[i].dst != id)
    && (forall i :: 0 <= i < |g.rels.r2c| ==> g.rels.r2c[i].dst != id)
  }

  /** Lines 286-287: a fresh TS saved with its energy and linked to the
      reaction `id` with the identity mapping. */
  function LinkedTs(g: Graph, x: ReactionInput, id: nat): (h: Graph)
    requires Valid(g) && id < g.next
    ensures Valid(h) && Extends(g, h) && EnergyKept(g, h, {}) && h.index == g.index && h.next == g.next + 1
    ensures g.next in h.labels && h.labels[g.next] == TransitionNode(None)
    ensures g.next in h.energy && h.energy[g.next] == x.ts.energy
    ensures h.rels.b2c == g.rels.b2c && h.rels.m2c == g.rels.m2c && h.rels.e2c == g.rels.e2c && h.rels.b2r == g.rels.b2r
    ensures h.rels.c2r == g.rels.c2r && h.rels.r2c == g.rels.r2c && h.rels.e2t == g.rels.e2t
    ensures h.rels.t2r == g.rels.t2r + [Edge(g.next, id, Some(ToJson(Identity(x.ts.atoms))), None)]
  {
    var s := NewState(g, RePathStore.TS, x.ts.energy);
    TsGuardPasses(g, x, id);
    var h := Link(s, T2R, Edge(g.next, id, Some(ToJson(Identity(x.ts.atoms))), None));
    ExtendsTransitive(g, s, h);
    h
  }

  /** A fresh TS attached to the new reaction `id` (lines 286-292): saved,
      linked with the identity mapping, and reached by the two Barrier
      relationships from the ESs `re` and `pe`. */
  function TsWithBarriers(g: Graph, x: ReactionInput, id: nat, re: nat, pe: nat): (h: Graph)
    requires Valid(g) && id < g.next && re < g.next && pe < g.next && re != pe
    ensures Valid(h) && Extends(g, h) && EnergyKept(g, h, {}) && h.index == g.index && h.next == g.next + 1
    ensures h.rels.c2r == g.rels.c2r && h.rels.r2c == g.rels.r2c && h.rels.b2r == g.rels.b2r
    ensures TsAttached(g.rels.t2r, g.rels.e2t, h, x, id, g.next)
    ensures h.rels.t2r[|g.rels.t2r|].mapping == Some(ToJson(Identity(x.ts.atoms)))
    ensures h.rels.e2t[|g.rels.e2t|].src == re && h.rels.e2t[|g.rels.e2t| + 1].src == pe && h.rels.e2c == g.rels.e2c
  {
    var g1 := LinkedTs(g, x, id);
    FieldsBelow(g);
    NotAnEnd(g.rels.e2t, g.next, re, g.next);
    NotAnEnd(g.rels.e2t, g.next, pe, g.next);
    var h := LinkBarriers(g1, x, g.next, re, pe);
    ExtendsTransitive(g, g1, h);
    assert h.rels.e2t[..|g.rels.e2t|] == g.rels.e2t;
    h
  }

  /** Lines 282-292 once both complexes and their ESs are known. */
  function LinkSides(g: Graph, x: ReactionInput, id: nat, rc: (nat, nat), pc: (nat, nat)): (o: Graph)
    requires Valid(g) && id < g.next && SidesIn(g, x, rc, pc) && Unlinked(g, id)
    ensures Valid(o) && Extends(g, o) && EnergyKept(g, o, {}) && o.next == g.next + 1
    ensures o.rels.b2r == g.rels.b2r
    ensures ComplexesLinked(o, x, id) && TsAttached(g.rels.t2r, g.rels.e2t, o, x, id, g.next)
    ensures o.rels.t2r[|g.rels.t2r|].mapping == Some(ToJson(Identity(x.ts.atoms)))
    ensures o.rels.e2t[|g.rels.e2t|].src == rc.1 && o.rels.e2t[|g.rels.e2t| + 1].src == pc.1 && o.rels.e2c == g.rels.e2c
  {
    var g2 := LinkComplexes(g, x, id, rc.0, pc.0);
    var o := TsWithBarriers(g2, x, id, rc.1, pc.1);
    ExtendsTransitive(g, g2, o);
    o
  }

  /** The Barrier relationships `LinkSides` appends start at the two ESs
      of the insertion, the reactant's first. */
  lemma SidesBarriers(g: Graph, x: ReactionInput, id: nat, rc: (nat, nat), pc: (nat, nat), from: nat)
    requires Valid(g) && id < g.next && SidesIn(g, x, rc, pc) && Unlinked(g, id)
    requires EsOf(g, x.reactant, rc.1, from) && EsOf(g, x.product, pc.1, from) && rc.1 < pc.1
    ensures BarriersFromStates(g.rels.e2t, LinkSides(g, x, id, rc, pc), x, from)
  {
    var o := LinkSides(g, x, id, rc, pc);
    EsOfKept(g, o, x.reactant, rc.1, from);
    EsOfKept(g, o, x.product, pc.1, from);
  }

  /** Lines 259-261 and 278: the new reaction node, linked from the Brutto
      node of the TS's formula. No relationship of a TS changes. */
  function SaveReaction(g: Graph, x: ReactionInput, formula: string): (h: Graph)
    requires Valid(g) && ReactionNode(x.signature) !in g.index
    ensures Valid(h) && Extends(g, h) && h.energy == g.energy && g.next < h.next
    ensures ReactionNode(x.signature) in h.index && h.index[ReactionNode(x.signature)] == g.next
    ensures h.rels.t2r == g.rels.t2r && h.rels.e2t == g.rels.e2t && Unlinked(h, g.next)
    ensures BruttoNode(formula) in h.index && Connected(h.rels.b2r, h.index[BruttoNode(formula)], g.next)
  {
    var g1 := Saved(g, ReactionNode(x.signature));
    var h := RePathStore.LinkBrutto(g1, B2R, g.next, formula);
    FieldsBelow(g);
    ExtendsTransitive(g, g1, h);
    h
  }

  /** Lines 276-292, a reaction not seen before: saved, linked from the
      Brutto node of the TS's formula (line 278), then linked to both
      complexes and to a fresh TS. */
  function NewReaction(g: Graph, x: ReactionInput): (o: Out<nat>)
    requires Valid(g) && ReactionNode(x.signature) !in g.index
    ensures Valid(o.g) && Extends(g, o.g) && EnergyKept(g, o.g, {})
    ensures o.r.Err? ==> o.r.error == UniqueViolation
    ensures ReactionNode(x.signature) in o.g.index && o.g.index[ReactionNode(x.signature)] == g.next
    ensures BruttoNode(Formula.FormulaOf(x.ts.symbols)) in o.g.index
      && Connected(o.g.rels.b2r, o.g.index[BruttoNode(Formula.FormulaOf(x.ts.symbols))], g.next)
    ensures o.r.Ok? ==>
      o.r.value == g.next && ComplexesLinked(o.g, x, g.next)
      && exists ts :: g.next < ts && TsAttached(g.rels.t2r, g.rels.e2t, o.g, x, g.next, ts)
    ensures o.r.Ok? ==> BarriersFromStates(g.rels.e2t, o.g, x, g.next)
  {
    var g2 := SaveReaction(g, x, Formula.FormulaOf(x.ts.symbols));
    var o := LinkNewReaction(g2, x, g.next);
    ExtendsTransitive(g, g2, o.g);
    Out(o.g, if o.r.Ok? then Ok(o.r.value.0) else Err(o.r.error))
  }

  /** `Reaction(structure)` (lines 247-294): a signature already stored
      attaches a fresh TS to the stored reaction; a new one is saved and
      linked to its Brutto node, its complexes and a fresh TS. No stored
      energy changes. */
  function PutReaction(g: Graph, x: ReactionInput): (o: Out<nat>)
    requires Valid(g)
    ensures Valid(o.g) && Extends(g, o.g) && EnergyKept(g, o.g, {})
    ensures o.r.Err? ==> o.r.error in {AttributeError, KeyError, TypeError, UniqueViolation}
    ensures ReactionNode(x.signature) in o.g.index
    ensures ReactionNode(x.signature) in g.index ==> o.g.index[ReactionNode(x.signature)] == g.index[ReactionNode(x.signature)]
    ensures o.r.Ok? ==> o.r.value == o.g.index[ReactionNode(x.signature)]
    ensures o.r.Ok? && ReactionNode(x.signature) in g.index ==> TsAttached(g.rels.t2r, g.rels.e2t, o.g, x, o.r.value, g.next)
    ensures o.r.Ok? && ReactionNode(x.signature) !in g.index ==>
      o.r.value == g.next && ComplexesLinked(o.g, x, g.next)
      && exists ts :: g.next < ts && TsAttached(g.rels.t2r, g.rels.e2t, o.g, x, g.next, ts)
    ensures o.r.Ok? ==> BarriersFromStates(g.rels.e2t, o.g, x, g.next)
  {
    var key := ReactionNode(x.signature);
    if key in g.index then ExistingReaction(g, x, g.index[key]) else NewReaction(g, x)
  }
}
