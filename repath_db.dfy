/** The RePathDB insertions as they run against the database object: each
    one reads and writes `Db` step by step and ends in the state, and with
    the outcome, that its specification in `RePathStore` describes. */
module RePathDb {
  import opened Base
  import opened Mappings
  import opened GraphDb
  import opened RePathStore
  import Formula

  /** `EquilibriumState(structure)` and `TransitionState(structure)`. */
  method AddConformer(db: Db, kind: Kind, geometry: string, energy: real) returns (r: Result<nat>)
    requires Valid(db.Snapshot()) && Energetic(db.Snapshot())
    modifies db
    ensures Out(db.Snapshot(), r) == PutConformer(old(db.Snapshot()), kind, geometry, energy)
  {
    var node := Label(kind, geometry);
    if node in db.index {
      var id := db.index[node];
      if Close(db.energy[id], energy) {
        return Err(ValueError);
      }
      return Ok(id);
    }
    var id := db.SaveWithEnergy(node, energy);
    return Ok(id);
  }

  /** One pass of the component loop of `Complex`. */
  method AddPart(db: Db, id: nat, p: Part) returns (r: Result<()>)
    requires Valid(db.Snapshot()) && id < db.next
    modifies db
    ensures Out(db.Snapshot(), r) == LinkPart(old(db.Snapshot()), id, p)
  {
    var m := AddMolecule(db, p);
    if m.Err? {
      return Err(UniqueViolation);
    }
    db.Join(M2C, Edge(m.value, id, Some(ToJson(p.mapping)), None));
    return Ok(());
  }

  /** The component loop of `Complex`: it stops at the first component
      that fails. */
  method AddParts(db: Db, id: nat, parts: seq<Part>) returns (r: Result<()>)
    requires Valid(db.Snapshot()) && id < db.next
    modifies db
    ensures Out(db.Snapshot(), r) == PutParts(old(db.Snapshot()), id, parts)
  {
    ghost var g := db.Snapshot();
    var i := 0;
    while i < |parts|
      invariant 0 <= i <= |parts| && Valid(db.Snapshot()) && id < db.next
      invariant Out(db.Snapshot(), Ok(())) == PutParts(g, id, parts[..i])
    {
      PartsNext(g, id, parts, i, Out(db.Snapshot(), Ok(())));
      r := AddPart(db, id, parts[i]);
      if r.Err? {
        PartsStop(g, id, parts, i + 1);
        return;
      }
      i := i + 1;
    }
    assert parts[..i] == parts;
    return Ok(());
  }

  /** An existing complex met again through ES `es`. */
  method MergeComplexAt(db: Db, c: Geometry, es: nat) returns (r: Result<(nat, nat)>)
    requires Valid(db.Snapshot()) && Energetic(db.Snapshot()) && ComplexNode(c.signature) in db.index && es < db.next
    modifies db
    ensures Out(db.Snapshot(), r) == MergeComplex(old(db.Snapshot()), c, es)
  {
    var id := db.index[ComplexNode(c.signature)];
    var link := Edge(es, id, Some(ToJson(c.toStored)), None);
    if db.energy[id] > c.energy {
      var linked := db.IsConnected(E2C, es, id);
      if linked {
        return Err(ValueError);
      }
      db.SetEnergy(id, c.energy);
      db.Join(E2C, link);
    } else {
      db.JoinOnce(E2C, link);
    }
    return Ok((id, es));
  }

  /** The Brutto node of `formula`, found or created, linked to `id`. */
  method AddBruttoLink(db: Db, r: Rel, id: nat, formula: string)
    requires Valid(db.Snapshot()) && id < db.next
    modifies db
    ensures db.Snapshot() == LinkBrutto(old(db.Snapshot()), r, id, formula)
  {
    var b := AddBrutto(db, formula, false);
    db.Join(r, Edge(b.value, id, None, None));
  }

  /** A new complex saved with its energy and linked from its Brutto node. */
  method SaveNewComplex(db: Db, c: Geometry, formula: string) returns (id: nat)
    requires Valid(db.Snapshot()) && Energetic(db.Snapshot()) && ComplexNode(c.signature) !in db.index
    modifies db
    ensures id == old(db.next) && db.Snapshot() == SaveComplex(old(db.Snapshot()), c, formula)
  {
    id := db.SaveWithEnergy(ComplexNode(c.signature), c.energy);
    AddBruttoLink(db, B2C, id, formula);
  }

  /** The components and the ES linked to the new complex `id`. */
  method LinkNewComplex(db: Db, id: nat, parts: seq<Part>, atoms: seq<int>, es: nat) returns (r: Result<(nat, nat)>)
    requires Valid(db.Snapshot()) && id < db.next && es < db.next
    modifies db
    ensures Out(db.Snapshot(), r) == LinkComplex(old(db.Snapshot()), id, parts, atoms, es)
  {
    var m := AddParts(db, id, parts);
    if m.Err? {
      return Err(UniqueViolation);
    }
    db.Join(E2C, Edge(es, id, Some(ToJson(Identity(atoms))), None));
    return Ok((id, es));
  }

  /** A complex not seen before. */
  method AddNewComplex(db: Db, c: Geometry, es: nat, formula: string) returns (r: Result<(nat, nat)>)
    requires Valid(db.Snapshot()) && Energetic(db.Snapshot()) && ComplexNode(c.signature) !in db.index && es < db.next
    modifies db
    ensures Out(db.Snapshot(), r) == NewComplex(old(db.Snapshot()), c, es, formula)
  {
    var id := SaveNewComplex(db, c, formula);
    r := LinkNewComplex(db, id, c.parts, c.atoms, es);
  }

  /** `Complex(structure)`: its ES first, then the complex merged or
      created. */
  method AddComplex(db: Db, c: Geometry) returns (r: Result<(nat, nat)>)
    requires Valid(db.Snapshot()) && Energetic(db.Snapshot())
    modifies db
    ensures Out(db.Snapshot(), r) == PutComplex(old(db.Snapshot()), c)
  {
    var e := AddConformer(db, ES, c.conformer, c.energy);
    if e.Err? {
      return Err(ValueError);
    }
    if ComplexNode(c.signature) in db.index {
      r := MergeComplexAt(db, c, e.value);
    } else {
      r := AddNewComplex(db, c, e.value, Formula.FormulaOf(c.symbols));
    }
  }

  /** The reactant complex, then the product complex, of a reaction whose
      TS is `ts`; the energies are read off each complex and its ES as
      they stand once that complex is written. */
  method AddSides(db: Db, x: ReactionInput, ts: nat) returns (r: Result<Sides>)
    requires Valid(db.Snapshot()) && Energetic(db.Snapshot()) && ts < db.next
    modifies db
    ensures Out(db.Snapshot(), r) == PutSides(old(db.Snapshot()), x, ts)
  {
    var rc := AddComplex(db, x.reactant);
    if rc.Err? {
      return Err(rc.error);
    }
    var (rcId, re) := rc.value;
    var rcEnergy, reEnergy := db.energy[rcId], db.energy[re];
    var pc := AddComplex(db, x.product);
    if pc.Err? {
      return Err(pc.error);
    }
    var (pcId, pe) := pc.value;
    return Ok(Sides(ts, rcId, re, pcId, pe, rcEnergy, reEnergy, db.energy[pcId], db.energy[pe]));
  }

  /** The TS, then both complexes. */
  method PrepareReaction(db: Db, x: ReactionInput) returns (r: Result<Sides>)
    requires Valid(db.Snapshot()) && Energetic(db.Snapshot())
    modifies db
    ensures Out(db.Snapshot(), r) == Prepare(old(db.Snapshot()), x)
  {
    var t := AddConformer(db, TS, x.ts.conformer, x.ts.energy);
    if t.Err? {
      return Err(ValueError);
    }
    r := AddSides(db, x, t.value);
  }

  /** A reaction met again. */
  method MergeExistingReaction(db: Db, x: ReactionInput, s: Sides) returns (r: Result<nat>)
    requires Valid(db.Snapshot()) && Energetic(db.Snapshot()) && SidesIn(db.Snapshot(), s)
    requires ReactionNode(x.signature) in db.index
    modifies db
    ensures Out(db.Snapshot(), r) == ExistingReaction(old(db.Snapshot()), x, s)
  {
    var id := db.index[ReactionNode(x.signature)];
    if db.energy[id] > x.ts.energy {
      var linked := db.IsConnected(T2R, s.ts, id);
      if linked {
        return Err(ValueError);
      }
      r := LowerReactionAt(db, x, s);
    } else {
      db.JoinOnce(T2R, Edge(s.ts, id, Some(ToJson(x.toStored)), None));
      r := Ok(id);
    }
  }

  /** A lower TS energy through a TS not yet linked. */
  method LowerReactionAt(db: Db, x: ReactionInput, s: Sides) returns (r: Result<nat>)
    requires Valid(db.Snapshot()) && SidesIn(db.Snapshot(), s) && ReactionNode(x.signature) in db.index
    modifies db
    ensures Out(db.Snapshot(), r) == LowerReaction(old(db.Snapshot()), x, s)
  {
    var id := db.index[ReactionNode(x.signature)];
    ghost var h := db.Snapshot();
    db.SetEnergy(id, x.ts.energy);
    db.Join(T2R, Edge(s.ts, id, Some(ToJson(x.toStored)), None));
    assert db.rels.c2r == h.rels.c2r && db.rels.r2c == h.rels.r2c;
    var reactant := Joined(db.rels.c2r, s.rc, id);
    var product := Joined(db.rels.r2c, s.pc, id);
    if !reactant || !product {
      return Err(AttributeError);
    }
    return Ok(id);
  }

  /** The new reaction `id` linked to its complexes and its TS. */
  method LinkReactionSides(db: Db, x: ReactionInput, s: Sides, id: nat)
    requires Valid(db.Snapshot()) && SidesIn(db.Snapshot(), s) && id < db.next
    requires !Connected(db.rels.c2r, s.rc, id) && !Connected(db.rels.r2c, s.pc, id) && !Connected(db.rels.t2r, s.ts, id)
    modifies db
    ensures db.Snapshot() == LinkSides(old(db.Snapshot()), x, s, id)
  {
    var te := x.ts.energy;
    db.Join(C2R, Edge(s.rc, id, Some(ToJson(x.reactantMapping)), Some(Barrier(te, s.rcEnergy))));
    db.Join(R2C, Edge(s.pc, id, Some(ToJson(x.productMapping)), Some(Barrier(te, s.pcEnergy))));
    db.Join(T2R, Edge(s.ts, id, Some(ToJson(Identity(x.ts.atoms))), None));
  }

  /** A new reaction saved with the TS energy and linked from its Brutto
      node. */
  method SaveNewReaction(db: Db, x: ReactionInput, s: Sides, formula: string) returns (id: nat)
    requires Valid(db.Snapshot()) && Energetic(db.Snapshot()) && SidesIn(db.Snapshot(), s)
    requires ReactionNode(x.signature) !in db.index
    modifies db
    ensures id == old(db.next) && db.Snapshot() == SaveReaction(old(db.Snapshot()), x, s, formula)
  {
    id := db.SaveWithEnergy(ReactionNode(x.signature), x.ts.energy);
    AddBruttoLink(db, B2R, id, formula);
  }

  /** A reaction not seen before. */
  method AddNewReaction(db: Db, x: ReactionInput, s: Sides, formula: string) returns (id: nat)
    requires Valid(db.Snapshot()) && Energetic(db.Snapshot()) && SidesIn(db.Snapshot(), s)
    requires ReactionNode(x.signature) !in db.index
    modifies db
    ensures id == old(db.next) && db.Snapshot() == NewReaction(old(db.Snapshot()), x, s, formula)
  {
    ReactionUnlinked(db.Snapshot(), s);
    id := SaveNewReaction(db, x, s, formula);
    LinkReactionSides(db, x, s, id);
  }

  /** The TS linked from both ESs, each only if not yet linked. */
  method LinkReactionStates(db: Db, s: Sides, te: real)
    requires Valid(db.Snapshot()) && SidesIn(db.Snapshot(), s)
    modifies db
    ensures db.Snapshot() == LinkStates(old(db.Snapshot()), s, te)
  {
    db.JoinOnce(E2T, Edge(s.re, s.ts, None, Some(Barrier(te, s.reEnergy))));
    db.JoinOnce(E2T, Edge(s.pe, s.ts, None, Some(Barrier(te, s.peEnergy))));
  }

  /** `Reaction(structure)`. */
  method AddReaction(db: Db, x: ReactionInput) returns (r: Result<nat>)
    requires Valid(db.Snapshot()) && Energetic(db.Snapshot())
    modifies db
    ensures Out(db.Snapshot(), r) == PutReaction(old(db.Snapshot()), x)
  {
    var p := PrepareReaction(db, x);
    if p.Err? {
      return Err(p.error);
    }
    var s := p.value;
    if ReactionNode(x.signature) in db.index {
      r := MergeExistingReaction(db, x, s);
      if r.Err? {
        return;
      }
    } else {
      var id := AddNewReaction(db, x, s, Formula.FormulaOf(x.ts.symbols));
      r := Ok(id);
    }
    LinkReactionStates(db, s, x.ts.energy);
  }
}
