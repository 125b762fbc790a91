/** The 3D-viewer payload `get_3d` builds for a reaction's condensed graph:
    one record per atom and one per bond, each bond record saying how the
    bond order changes from reactant (`order`) to product (`p_order`).
    RePathDB/wui/utilities.py and AFIRdb/wui/utilities.py hold identical
    copies of this function. */
module BondView {
  import opened Base

  /** An atom of the condensed graph: its number and element symbol. */
  datatype Atom = Atom(n: int, symbol: string)

  /** A bond of the condensed graph. `order` is the reactant-side order,
      `pOrder` the product-side one; `None` means no bond on that side. */
  datatype Bond = Bond(n: int, m: int, order: Option<int>, pOrder: Option<int>)

  datatype Point = Point(x: real, y: real, z: real)

  datatype AtomRecord = AtomRecord(elem: string, x: real, y: real, z: real)

  /** The change part of a bond record. An absent `from` / `to` key is `None`. */
  datatype Change = Change(maxorder: Option<int>, from: Option<int>, to: Option<int>)

  datatype BondRecord = BondRecord(atom1: int, atom2: int, change: Change)

  datatype View = View(atoms: seq<AtomRecord>, bonds: seq<BondRecord>)

  function Max(a: int, b: int): int { if a < b then b else a }
  function Min(a: int, b: int): int { if a < b then a else b }

  /** The case split on `(order, p_order)`. */
  function Classify(order: Option<int>, pOrder: Option<int>): (c: Change)
    // a bond formed in the reaction grows from order 0
    ensures order.None? ==> c == Change(pOrder, Some(0), None)
    // a bond broken in the reaction falls to order 0
    ensures order.Some? && pOrder.None? ==> c == Change(order, None, Some(0))
    // an unchanged bond carries neither key
    ensures order.Some? && order == pOrder ==> c.from.None? && c.to.None? && c.maxorder == order
    // a changed bond: the larger order is the maximum, the smaller sits under
    // exactly one key, `to` when the order drops and `from` when it rises
    ensures order.Some? && pOrder.Some? && order != pOrder ==>
      c.maxorder == Some(Max(order.value, pOrder.value))
      && (c.from.Some? != c.to.Some?)
      && (c.to.Some? <==> order.value > pOrder.value)
      && (c.from.Some? ==> c.from.value == Min(order.value, pOrder.value))
      && (c.to.Some? ==> c.to.value == Min(order.value, pOrder.value))
  {
    if order.None? then Change(pOrder, Some(0), None)
    else if pOrder.None? then Change(order, None, Some(0))
    else if pOrder == order then Change(order, None, None)
    else if order.value > pOrder.value then Change(order, None, pOrder)
    else Change(pOrder, order, None)
  }

  /** Reads the two sides back from a change record: the reactant side is
      `from` when present (0 meaning no bond) and the maximum otherwise;
      the product side likewise with `to`. */
  function Sides(c: Change): (Option<int>, Option<int>) {
    var before := if c.from.Some? then (if c.from.value == 0 then None else c.from) else c.maxorder;
    var after := if c.to.Some? then (if c.to.value == 0 then None else c.to) else c.maxorder;
    (before, after)
  }

  /** A change record determines both sides of a real bond: orders are never
      0, and a bond exists on at least one side. */
  lemma SidesClassify(order: Option<int>, pOrder: Option<int>)
    requires order.Some? || pOrder.Some?
    requires order != Some(0) && pOrder != Some(0)
    ensures Sides(Classify(order, pOrder)) == (order, pOrder)
  {
  }

  /** Two different bond changes never get the same record. */
  lemma ClassifyInjective(o1: Option<int>, p1: Option<int>, o2: Option<int>, p2: Option<int>)
    requires o1.Some? || p1.Some?
    requires o2.Some? || p2.Some?
    requires o1 != Some(0) && p1 != Some(0) && o2 != Some(0) && p2 != Some(0)
    requires Classify(o1, p1) == Classify(o2, p2)
    ensures o1 == o2 && p1 == p2
  {
    SidesClassify(o1, p1);
    SidesClassify(o2, p2);
  }

  /** The atom list of the payload, `xyz[n]` raising KeyError for an atom
      without coordinates. */
  function AtomRecords(atoms: seq<Atom>, xyz: map<int, Point>): (r: Result<seq<AtomRecord>>)
    ensures r.Ok? <==> forall i :: 0 <= i < |atoms| ==> atoms[i].n in xyz
    ensures r.Err? ==> r.error == KeyError
    ensures r.Ok? ==> |r.value| == |atoms| && forall i :: 0 <= i < |atoms| ==>
      var p := xyz[atoms[i].n];
      r.value[i] == AtomRecord(atoms[i].symbol, p.x, p.y, p.z)
  {
    if forall i | 0 <= i < |atoms| :: atoms[i].n in xyz then
      Ok(seq(|atoms|, i requires 0 <= i < |atoms| =>
        var p := xyz[atoms[i].n]; AtomRecord(atoms[i].symbol, p.x, p.y, p.z)))
    else
      Err(KeyError)
  }

  /** The record of one bond whose endpoints are both in `orderMap`. */
  function RecordOf(b: Bond, orderMap: map<int, int>): BondRecord
    requires b.n in orderMap && b.m in orderMap
  {
    BondRecord(orderMap[b.n], orderMap[b.m], Classify(b.order, b.pOrder))
  }

  predicate Mapped(bonds: seq<Bond>, orderMap: map<int, int>) {
    forall i :: 0 <= i < |bonds| ==> bonds[i].n in orderMap && bonds[i].m in orderMap
  }

  /** `get_3d(s, order_map, xyz)`: the atom records, then one bond record per
      bond in order, appended in a loop. A missing key is a KeyError. */
  method Get3d(atoms: seq<Atom>, bonds: seq<Bond>, orderMap: map<int, int>, xyz: map<int, Point>)
    returns (r: Result<View>)
    ensures r.Ok? <==> AtomRecords(atoms, xyz).Ok? && Mapped(bonds, orderMap)
    ensures r.Err? ==> r.error == KeyError
    ensures r.Ok? ==> r.value.atoms == AtomRecords(atoms, xyz).value
    ensures r.Ok? ==> |r.value.bonds| == |bonds|
    ensures r.Ok? ==> forall i :: 0 <= i < |bonds| ==> r.value.bonds[i] == RecordOf(bonds[i], orderMap)
  {
    var atomRecords := AtomRecords(atoms, xyz);
    if atomRecords.Err? {
      return Err(KeyError);
    }
    var records: seq<BondRecord> := [];
    for i := 0 to |bonds|
      invariant Mapped(bonds[..i], orderMap)
      invariant |records| == i
      invariant forall j :: 0 <= j < i ==> records[j] == RecordOf(bonds[j], orderMap)
    {
      var b := bonds[i];
      if b.n !in orderMap || b.m !in orderMap {
        assert !Mapped(bonds, orderMap);
        return Err(KeyError);
      }
      var a1, a2 := orderMap[b.n], orderMap[b.m];
      var rec: BondRecord;
      if b.order.None? {
        rec := BondRecord(a1, a2, Change(b.pOrder, Some(0), None));
      } else if b.pOrder.None? {
        rec := BondRecord(a1, a2, Change(b.order, None, Some(0)));
      } else if b.pOrder == b.order {
        rec := BondRecord(a1, a2, Change(b.order, None, None));
      } else if b.order.value > b.pOrder.value {
        rec := BondRecord(a1, a2, Change(b.order, None, b.pOrder));
      } else {
        rec := BondRecord(a1, a2, Change(b.pOrder, b.order, None));
      }
      records := records + [rec];
      assert bonds[..i + 1] == bonds[..i] + [b];
    }
    assert bonds[..|bonds|] == bonds;
    return Ok(View(atomRecords.value, records));
  }
}
