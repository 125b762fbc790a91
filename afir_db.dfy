/** The AFIRdb insertions as they run against the database object: each
    one reads and writes `Db` step by step and ends in the state, and with
    the outcome, that its specification in `AfirStore` describes. */
module AfirDb {
  import opened Base
  import opened Mappings
  import opened GraphDb
  import opened AfirStore
  import RePathStore
  import RePathDb
  import Formula

  /** `EquilibriumState(structure)` and `TransitionState(structure)`. */
  method AddState(db: Db, kind: RePathStore.Kind, energy: real) returns (id: nat)
    requires Valid(db.Snapshot())
    modifies db
    ensures id == old(db.next) && db.Snapshot() == NewState(old(db.Snapshot()), kind, energy)
  {
    id := db.SaveWithEnergy(Fresh(kind), energy);
  }

  /** A fresh ES linked to complex `id`. */
  method AddLinkedState(db: Db, id: nat, energy: real, mapping: Mapping) returns (es: nat)
    requires Valid(db.Snapshot()) && id < db.next
    modifies db
    ensures es == old(db.next) && db.Snapshot() == LinkedState(old(db.Snapshot()), id, energy, mapping)
  {
    es := AddState(db, RePathStore.ES, energy);
    db.Join(E2C, Edge(es, id, Some(ToJson(mapping)), None));
  }

  /** A complex signature already stored. */
  method AddExistingComplex(db: Db, c: Structure) returns (r: Result<(nat, nat)>)
    requires Valid(db.Snapshot()) && ComplexNode(c.signature) in db.index
    modifies db
    ensures Out(db.Snapshot(), r) == ExistingComplex(old(db.Snapshot()), c)
  {
    var id := db.index[ComplexNode(c.signature)];
    var es := AddLinkedState(db, id, c.energy, c.toStored);
    r := Ok((id, es));
  }

  /** The components and the ES of the new complex `id`. */
  method AddComplexLinks(db: Db, id: nat, c: Structure) returns (r: Result<(nat, nat)>)
    requires Valid(db.Snapshot()) && id < db.next
    modifies db
    ensures Out(db.Snapshot(), r) == LinkComplex(old(db.Snapshot()), id, c)
  {
    var m := RePathDb.AddParts(db, id, c.parts);
    if m.Err? {
      return Err(UniqueViolation);
    }
    var es := AddLinkedState(db, id, c.energy, Identity(c.atoms));
    return Ok((id, es));
  }

  /** A complex not seen before: saved, linked from its Brutto node, then
      its components and its ES. */
  method AddNewComplex(db: Db, c: Structure, formula: string) returns (r: Result<(nat, nat)>)
    requires Valid(db.Snapshot()) && ComplexNode(c.signature) !in db.index
    modifies db
    ensures Out(db.Snapshot(), r) == NewComplex(old(db.Snapshot()), c, formula)
  {
    var id := db.Save(ComplexNode(c.signature));
    RePathDb.AddBruttoLink(db, B2C, id, formula);
    r := AddComplexLinks(db, id, c);
  }

  /** `Complex(structure)`. */
  method AddComplex(db: Db, c: Structure) returns (r: Result<(nat, nat)>)
    requires Valid(db.Snapshot())
    modifies db
    ensures Out(db.Snapshot(), r) == PutComplex(old(db.Snapshot()), c)
  {
    if ComplexNode(c.signature) in db.index {
      r := AddExistingComplex(db, c);
    } else {
      r := AddNewComplex(db, c, Formula.FormulaOf(c.symbols));
    }
  }

  /** `self.reactant.relationship(rc)`: a scan for the first relationship
      from `src` to `dst`. */
  method FindRelationship(edges: seq<Edge>, src: nat, dst: nat) returns (i: nat)
    ensures i == FindAt(edges, src, dst)
  {
    i := 0;
    while i < |edges| && !(edges[i].src == src && edges[i].dst == dst)
      invariant i <= |edges|
      invariant forall j :: 0 <= j < i ==> !(edges[j].src == src && edges[j].dst == dst)
    {
      i := i + 1;
    }
    FirstMatch(edges, src, dst, i);
  }

  /** `FindAt` is the first position joining the two nodes. */
  lemma {:induction false} FirstMatch(edges: seq<Edge>, src: nat, dst: nat, i: nat)
    requires i <= |edges|
    requires forall j :: 0 <= j < i ==> !(edges[j].src == src && edges[j].dst == dst)
    requires i < |edges| ==> edges[i].src == src && edges[i].dst == dst
    ensures FindAt(edges, src, dst) == i
    decreases i
  {
    if i > 0 {
      var rest := edges[1..];
      assert forall j :: 0 <= j < i - 1 ==> rest[j] == edges[j + 1];
      FirstMatch(rest, src, dst, i - 1);
    }
  }

  /** The two Barrier relationships into TS `ts`. */
  method AddBarriers(db: Db, x: ReactionInput, ts: nat, re: nat, pe: nat)
    requires Valid(db.Snapshot()) && ts < db.next && re < db.next && pe < db.next && re != pe
    requires !Connected(db.rels.e2t, re, ts) && !Connected(db.rels.e2t, pe, ts)
    modifies db
    ensures db.Snapshot() == LinkBarriers(old(db.Snapshot()), x, ts, re, pe)
  {
    db.Join(E2T, Edge(re, ts, None, Some(RePathStore.Barrier(x.ts.energy, x.reactant.energy))));
    db.Join(E2T, Edge(pe, ts, None, Some(RePathStore.Barrier(x.ts.energy, x.product.energy))));
  }

  /** The T2R relationship carrying `m`, the product complex, and the
      Barrier relationships, for a reaction met again. */
  method AddRest(db: Db, x: ReactionInput, id: nat, ts: nat, re: nat, m: Mapping) returns (r: Result<nat>)
    requires Valid(db.Snapshot()) && id < db.next && ts < db.next && re < db.next
    requires ts in db.labels && db.labels[ts] == TransitionNode(None) && ts in db.energy && db.energy[ts] == x.ts.energy
    requires EdgesBelow(db.rels.t2r, ts) && EdgesBelow(db.rels.e2t, ts)
    modifies db
    ensures Out(db.Snapshot(), r) == AttachRest(old(db.Snapshot()), x, id, ts, re, m)
  {
    ghost var g := db.Snapshot();
    NotAnEnd(db.rels.t2r, ts, id, ts);
    db.Join(T2R, Edge(ts, id, Some(ToJson(m)), None));
    var pc := AddComplex(db, x.product);
    if pc.Err? {
      return Err(UniqueViolation);
    }
    NotAnEnd(g.rels.e2t, ts, re, ts);
    NotAnEnd(g.rels.e2t, ts, pc.value.1, ts);
    AddBarriers(db, x, ts, re, pc.value.1);
    return Ok(id);
  }

  /** The stored mapping of the reactant relationship read and composed,
      then the rest, for a reaction met again. */
  method AddTs(db: Db, x: ReactionInput, id: nat, ts: nat, c: nat, re: nat) returns (r: Result<nat>)
    requires Valid(db.Snapshot()) && id < db.next && ts < db.next && re < db.next
    requires ts in db.labels && db.labels[ts] == TransitionNode(None) && ts in db.energy && db.energy[ts] == x.ts.energy
    requires EdgesBelow(db.rels.t2r, ts) && EdgesBelow(db.rels.e2t, ts)
    modifies db
    ensures Out(db.Snapshot(), r) == AttachTs(old(db.Snapshot()), x, id, ts, c, re)
  {
    var at := FindRelationship(db.rels.c2r, c, id);
    if at == |db.rels.c2r| {
      return Err(AttributeError);
    }
    var t2r := ComposeStoredProperty(x.tsToComplex, db.rels.c2r[at].mapping);
    if t2r.Err? {
      return Err(t2r.error);
    }
    r := AddRest(db, x, id, ts, re, t2r.value);
  }

  /** A reaction met again: a fresh TS, the reactant complex, then the
      attachment. */
  method AddExistingReaction(db: Db, x: ReactionInput, id: nat) returns (r: Result<nat>)
    requires Valid(db.Snapshot()) && id < db.next
    modifies db
    ensures Out(db.Snapshot(), r) == ExistingReaction(old(db.Snapshot()), x, id)
  {
    ghost var g := db.Snapshot();
    FieldsBelow(g);
    var ts := AddState(db, RePathStore.TS, x.ts.energy);
    var rc := AddComplex(db, x.reactant);
    if rc.Err? {
      return Err(rc.error);
    }
    r := AddTs(db, x, id, ts, rc.value.0, rc.value.1);
  }

  /** The reactant complex, then the product complex. */
  method AddBothComplexes(db: Db, x: ReactionInput) returns (r: Result<((nat, nat), (nat, nat))>)
    requires Valid(db.Snapshot())
    modifies db
    ensures Out(db.Snapshot(), r) == BothComplexes(old(db.Snapshot()), x)
  {
    var rc := AddComplex(db, x.reactant);
    if rc.Err? {
      return Err(UniqueViolation);
    }
    var pc := AddComplex(db, x.product);
    if pc.Err? {
      return Err(UniqueViolation);
    }
    return Ok((rc.value, pc.value));
  }

  /** The new reaction linked from its two complexes. */
  method AddComplexesLinks(db: Db, x: ReactionInput, id: nat, rc: nat, pc: nat)
    requires Valid(db.Snapshot()) && id < db.next && rc < db.next && pc < db.next && Unlinked(db.Snapshot(), id)
    modifies db
    ensures db.Snapshot() == LinkComplexes(old(db.Snapshot()), x, id, rc, pc)
  {
    db.Join(C2R, Edge(rc, id, Some(ToJson(x.reactantMapping)), None));
    db.Join(R2C, Edge(pc, id, Some(ToJson(x.productMapping)), None));
  }

  /** A fresh TS linked to the new reaction with the identity mapping. */
  method AddLinkedTs(db: Db, x: ReactionInput, id: nat) returns (ts: nat)
    requires Valid(db.Snapshot()) && id < db.next
    modifies db
    ensures ts == old(db.next) && db.Snapshot() == LinkedTs(old(db.Snapshot()), x, id)
  {
    ts := AddState(db, RePathStore.TS, x.ts.energy);
    db.Join(T2R, Edge(ts, id, Some(ToJson(Identity(x.ts.atoms))), None));
  }

  /** The fresh TS of a new reaction and its Barrier relationships. */
  method AddTsWithBarriers(db: Db, x: ReactionInput, id: nat, re: nat, pe: nat)
    requires Valid(db.Snapshot()) && id < db.next && re < db.next && pe < db.next && re != pe
    modifies db
    ensures db.Snapshot() == TsWithBarriers(old(db.Snapshot()), x, id, re, pe)
  {
    ghost var g := db.Snapshot();
    FieldsBelow(g);
    NotAnEnd(g.rels.e2t, g.next, re, g.next);
    NotAnEnd(g.rels.e2t, g.next, pe, g.next);
    var ts := AddLinkedTs(db, x, id);
    AddBarriers(db, x, ts, re, pe);
  }

  /** A new reaction: both complexes, the links from them, the TS. The
      result is the reaction and the TS. */
  method AddNewReactionLinks(db: Db, x: ReactionInput, id: nat) returns (r: Result<(nat, nat)>)
    requires Valid(db.Snapshot()) && id < db.next && Unlinked(db.Snapshot(), id)
    modifies db
    ensures Out(db.Snapshot(), r) == LinkNewReaction(old(db.Snapshot()), x, id)
  {
    var sides := AddBothComplexes(db, x);
    if sides.Err? {
      return Err(UniqueViolation);
    }
    var (rc, pc) := sides.value;
    var ts := db.next;
    AddComplexesLinks(db, x, id, rc.0, pc.0);
    AddTsWithBarriers(db, x, id, rc.1, pc.1);
    return Ok((id, ts));
  }

  /** `Reaction(structure)`. */
  method AddReaction(db: Db, x: ReactionInput) returns (r: Result<nat>)
    requires Valid(db.Snapshot())
    modifies db
    ensures Out(db.Snapshot(), r) == PutReaction(old(db.Snapshot()), x)
  {
    var key := ReactionNode(x.signature);
    if key in db.index {
      r := AddExistingReaction(db, x, db.index[key]);
    } else {
      ghost var g := db.Snapshot();
      FieldsBelow(g);
      var id := db.Save(key);
      RePathDb.AddBruttoLink(db, B2R, id, Formula.FormulaOf(x.ts.symbols));
      assert Unlinked(db.Snapshot(), id);
      var o := AddNewReactionLinks(db, x, id);
      r := if o.Ok? then Ok(o.value.0) else Err(o.error);
    }
  }
}
