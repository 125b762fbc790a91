/** The reaction-path log reader of AFIRdb/parser.py. A log is a sequence
    of lines; each '#'-headed block lists the atoms of one structure of the
    path and ends with its ENERGY line. The highest structure is taken as
    the transition state between the first and the last one. `float` is a
    parameter: `None` stands for the ValueError it raises. */
module AfirParser {
  import opened Base
  import opened Text

  /** One atom row `(at, float(x), float(y), float(z))`. */
  datatype AtomRow = AtomRow(symbol: string, x: real, y: real, z: real)

  /** The `type` a structure is given. */
  datatype Kind = TMP | EQ | TS

  /** One structure of the path: `{"mol": …, "energy": …, "type": …}`. */
  datatype Point = Point(mol: seq<AtomRow>, energy: real, kind: Kind)

  /** A molecule built from a structure's atoms, with its `meta`. */
  datatype Molecule = Molecule(atoms: seq<AtomRow>, energy: real, kind: Kind)

  /** `ReactionContainer(reagents=…, reactants=…, products=…)`. */
  datatype Reaction = Reaction(reactants: seq<Molecule>, reagents: seq<Molecule>, products: seq<Molecule>)

  /** The reader's variables between two lines: `pts`, `tmp`, `flag`. */
  datatype Scan = Scan(pts: seq<Point>, tmp: seq<AtomRow>, flag: bool)

  const Start := Scan([], [], false)

  /** `at, x, y, z = i.split()` and the three `float` calls. */
  function ParseAtom(line: string, toReal: string -> Option<real>): Option<AtomRow> {
    var t := Tokens(line);
    if |t| != 4 || toReal(t[1]).None? || toReal(t[2]).None? || toReal(t[3]).None? then None
    else Some(AtomRow(t[0], toReal(t[1]).value, toReal(t[2]).value, toReal(t[3]).value))
  }

  /** One pass of the loop body of `pt_parser` (AFIRdb/parser.py:50-66). */
  function Step(s: Scan, line: string, toReal: string -> Option<real>): Result<Scan> {
    if |line| == 0 then Err(IndexError)
    else if line[0] == '#' then Ok(s.(flag := true))
    else if !s.flag || Contains(line, "Item") then Ok(s)
    else if Contains(line, "ENERGY") then
      var t := Tokens(line);
      if |t| < 2 then Err(IndexError)
      else if toReal(t[1]).None? then Err(ValueError)
      else Ok(Scan(s.pts + [Point(s.tmp, toReal(t[1]).value, TMP)], [], false))
    else
      match ParseAtom(line, toReal)
      case None => Err(ValueError)
      case Some(row) => Ok(s.(tmp := s.tmp + [row]))
  }

  /** The reader run over `lines` from state `s`. */
  function Fold(s: Scan, lines: seq<string>, toReal: string -> Option<real>): Result<Scan>
    decreases |lines|
  {
    if lines == [] then Ok(s)
    else
      match Step(s, lines[0], toReal)
      case Err(e) => Err(e)
      case Ok(s') => Fold(s', lines[1..], toReal)
  }

  /** The earliest structure of maximal energy: `sorted(pts, key=energy,
      reverse=True)[0]`, the sort being stable even when reversed. */
  function EarliestMax(pts: seq<Point>): (k: nat)
    requires |pts| > 0
    ensures k < |pts|
    ensures forall j :: 0 <= j < |pts| ==> pts[j].energy <= pts[k].energy
    ensures forall j :: 0 <= j < k ==> pts[j].energy < pts[k].energy
  {
    if |pts| == 1 then 0
    else
      var k := EarliestMax(pts[..|pts| - 1]);
      if pts[|pts| - 1].energy > pts[k].energy then |pts| - 1 else k
  }

  /** What `pt_parser` makes of the structures it read (AFIRdb/parser.py:67-86). */
  function Choose(pts: seq<Point>): (r: Result<(Reaction, Reaction)>)
    // no structure: `pts[0]` fails; fewer than three, or a highest structure
    // at either end: ValueError
    ensures r.Err? ==> r.error == (if pts == [] then IndexError else ValueError)
    ensures r.Ok? <==> |pts| >= 3 && 0 < EarliestMax(pts) < |pts| - 1
    // the two reactions are mirror images sharing one transition state
    ensures r.Ok? ==> var (a, b) := r.value;
      && |a.reactants| == 1 && |a.reagents| == 1 && |a.products| == 1
      && b == Reaction(a.products, a.reagents, a.reactants)
    // forward runs from the first structure to the last, both equilibria
    ensures r.Ok? ==> var a := r.value.0;
      && a.reactants[0] == Molecule(pts[0].mol, pts[0].energy, EQ)
      && a.products[0] == Molecule(pts[|pts| - 1].mol, pts[|pts| - 1].energy, EQ)
    // the transition state is an interior structure no other one is above,
    // and strictly above every earlier one
    ensures r.Ok? ==> var ts := r.value.0.reagents[0];
      && ts.kind == TS
      && exists k :: 0 < k < |pts| - 1 && ts.atoms == pts[k].mol && ts.energy == pts[k].energy
          && (forall j :: 0 <= j < |pts| ==> pts[j].energy <= ts.energy)
          && (forall j :: 0 <= j < k ==> pts[j].energy < ts.energy)
  {
    if pts == [] then Err(IndexError)
    else if |pts| < 3 then Err(ValueError)
    else
      var k := EarliestMax(pts);
      if k == 0 || k == |pts| - 1 then Err(ValueError)
      else
        var first := Molecule(pts[0].mol, pts[0].energy, EQ);
        var last := Molecule(pts[|pts| - 1].mol, pts[|pts| - 1].energy, EQ);
        var ts := Molecule(pts[k].mol, pts[k].energy, TS);
        Ok((Reaction([first], [ts], [last]), Reaction([last], [ts], [first])))
  }

  /** `pt_parser(file)` as a function of the remaining lines. */
  function PtResult(lines: seq<string>, toReal: string -> Option<real>): Result<(Reaction, Reaction)> {
    match Fold(Start, lines, toReal)
    case Err(e) => Err(e)
    case Ok(s) => Choose(s.pts)
  }

  predicate AllTmp(pts: seq<Point>) {
    forall j :: 0 <= j < |pts| ==> pts[j].kind == TMP
  }

  /** `pt_parser(file)` (AFIRdb/parser.py:39-86). */
  method PtParser(lines: seq<string>, toReal: string -> Option<real>) returns (r: Result<(Reaction, Reaction)>)
    ensures r == PtResult(lines, toReal)
  {
    var pts: seq<Point> := [];
    var tmp: seq<AtomRow> := [];
    var flag := false;
    for i := 0 to |lines|
      invariant Fold(Start, lines, toReal) == Fold(Scan(pts, tmp, flag), lines[i..], toReal)
      invariant AllTmp(pts)
    {
      var line := lines[i];
      assert lines[i..][1..] == lines[i + 1..];
      if |line| == 0 {
        return Err(IndexError);
      }
      if line[0] == '#' {
        flag := true;
        continue;
      }
      if flag {
        if Contains(line, "Item") {
          continue;
        }
        if Contains(line, "ENERGY") {
          var t := Tokens(line);
          if |t| < 2 {
            return Err(IndexError);
          }
          var energy := toReal(t[1]);
          if energy.None? {
            return Err(ValueError);
          }
          pts := pts + [Point(tmp, energy.value, TMP)];
          tmp := [];
          flag := false;
          continue;
        }
        var t := Tokens(line);
        if |t| != 4 {
          return Err(ValueError);
        }
        var x, y, z := toReal(t[1]), toReal(t[2]), toReal(t[3]);
        if x.None? || y.None? || z.None? {
          return Err(ValueError);
        }
        tmp := tmp + [AtomRow(t[0], x.value, y.value, z.value)];
      }
    }
    assert Fold(Start, lines, toReal) == Ok(Scan(pts, tmp, flag));
    if pts == [] {
      return Err(IndexError);
    }
    ghost var read := pts;
    pts := pts[0 := pts[0].(kind := EQ)];
    pts := pts[|pts| - 1 := pts[|pts| - 1].(kind := EQ)];
    if |pts| < 3 {
      return Err(ValueError);
    }
    var k := EarliestMax(pts);
    EarliestMaxEnergies(read, pts);
    if pts[k].kind == EQ {
      return Err(ValueError);
    }
    pts := pts[k := pts[k].(kind := TS)];
    var mol1 := Molecule(pts[0].mol, pts[0].energy, pts[0].kind);
    var mol2 := Molecule(pts[|pts| - 1].mol, pts[|pts| - 1].energy, pts[|pts| - 1].kind);
    var ts := Molecule(pts[k].mol, pts[k].energy, pts[k].kind);
    return Ok((Reaction([mol1], [ts], [mol2]), Reaction([mol2], [ts], [mol1])));
  }

  /** The choice of the highest structure depends on the energies only. */
  lemma {:induction false} EarliestMaxEnergies(p: seq<Point>, q: seq<Point>)
    requires |p| == |q| > 0
    requires forall j :: 0 <= j < |p| ==> p[j].energy == q[j].energy
    ensures EarliestMax(p) == EarliestMax(q)
  {
    if |p| > 1 {
      EarliestMaxEnergies(p[..|p| - 1], q[..|q| - 1]);
    }
  }

  /** `log_parser(file)` (AFIRdb/parser.py:28-36): the first line must be
      the header of a reaction-path log; the rest goes to `pt_parser`. */
  method LogParser(lines: seq<string>, toReal: string -> Option<real>) returns (r: Result<(Reaction, Reaction)>)
    ensures lines == [] ==> r == Err(StopIteration)
    ensures lines != [] && !StartsWith(lines[0], "Update the reaction path") ==> r == Err(ValueError)
    ensures lines != [] && StartsWith(lines[0], "Update the reaction path") ==> r == PtResult(lines[1..], toReal)
  {
    if lines == [] {
      return Err(StopIteration);
    }
    var line := lines[0];
    if StartsWith(line, "Update the reaction path") {
      r := PtParser(lines[1..], toReal);
    } else {
      r := Err(ValueError);
    }
  }

  // ---------------------------------------------------------------- block framing

  /** A line the reader ignores while no block is open. */
  predicate Plain(line: string) {
    |line| > 0 && line[0] != '#'
  }

  /** A line a block's body may hold: an "Item" line, skipped, or an atom line. */
  predicate BodyLine(line: string, toReal: string -> Option<real>) {
    Plain(line) && (Contains(line, "Item") || (!Contains(line, "ENERGY") && ParseAtom(line, toReal).Some?))
  }

  /** The line that closes a structure, the energy its second token. */
  predicate EnergyLine(line: string, toReal: string -> Option<real>) {
    Plain(line) && !Contains(line, "Item") && Contains(line, "ENERGY")
    && |Tokens(line)| >= 2 && toReal(Tokens(line)[1]).Some?
  }

  /** One block of a reaction-path log: a '#' line, atom and "Item" lines,
      an ENERGY line, and lines ignored up to the next block. */
  datatype Block = Block(header: string, body: seq<string>, energy: string, trailer: seq<string>)

  predicate WellFormed(b: Block, toReal: string -> Option<real>) {
    && |b.header| > 0 && b.header[0] == '#'
    && (forall i :: 0 <= i < |b.body| ==> BodyLine(b.body[i], toReal))
    && EnergyLine(b.energy, toReal)
    && (forall i :: 0 <= i < |b.trailer| ==> Plain(b.trailer[i]))
  }

  function BlockLines(b: Block): seq<string> {
    [b.header] + b.body + [b.energy] + b.trailer
  }

  function Log(bs: seq<Block>): seq<string> {
    if bs == [] then [] else BlockLines(bs[0]) + Log(bs[1..])
  }

  /** The atoms of a block's body: its lines other than "Item" lines, parsed. */
  function Rows(body: seq<string>, toReal: string -> Option<real>): seq<AtomRow>
    requires forall i :: 0 <= i < |body| ==> BodyLine(body[i], toReal)
  {
    if body == [] then []
    else
      assert BodyLine(body[0], toReal);
      RowOf(body[0], toReal) + Rows(body[1..], toReal)
  }

  /** The atom of one body line: none for an "Item" line. */
  function RowOf(line: string, toReal: string -> Option<real>): seq<AtomRow>
    requires BodyLine(line, toReal)
  {
    if Contains(line, "Item") then [] else [ParseAtom(line, toReal).value]
  }

  /** The structure a well-formed block describes. */
  function PointOf(b: Block, toReal: string -> Option<real>): Point
    requires WellFormed(b, toReal)
  {
    Point(Rows(b.body, toReal), toReal(Tokens(b.energy)[1]).value, TMP)
  }

  function Points(bs: seq<Block>, toReal: string -> Option<real>): seq<Point>
    requires forall i :: 0 <= i < |bs| ==> WellFormed(bs[i], toReal)
  {
    if bs == [] then [] else [PointOf(bs[0], toReal)] + Points(bs[1..], toReal)
  }

  lemma {:induction false} FoldAppend(s: Scan, a: seq<string>, b: seq<string>, toReal: string -> Option<real>)
    ensures Fold(s, a + b, toReal) ==
      match Fold(s, a, toReal)
      case Err(e) => Err(e)
      case Ok(s') => Fold(s', b, toReal)
    decreases |a|
  {
    if a == [] {
      assert a + b == b;
    } else {
      assert (a + b)[0] == a[0] && (a + b)[1..] == a[1..] + b;
      var r := Step(s, a[0], toReal);
      assert Fold(s, a + b, toReal) == if r.Err? then Err(r.error) else Fold(r.value, a[1..] + b, toReal);
      assert Fold(s, a, toReal) == if r.Err? then Err(r.error) else Fold(r.value, a[1..], toReal);
      if r.Ok? {
        FoldAppend(r.value, a[1..], b, toReal);
      }
    }
  }

  /** Outside a block, plain lines change nothing. */
  lemma {:induction false} FoldPlain(s: Scan, lines: seq<string>, toReal: string -> Option<real>)
    requires !s.flag
    requires forall i :: 0 <= i < |lines| ==> Plain(lines[i])
    ensures Fold(s, lines, toReal) == Ok(s)
    decreases |lines|
  {
    if lines != [] {
      FoldPlain(s, lines[1..], toReal);
    }
  }

  /** Inside a block, body lines add their atoms and nothing else. */
  lemma {:induction false} FoldBody(s: Scan, body: seq<string>, toReal: string -> Option<real>)
    requires s.flag
    requires forall i :: 0 <= i < |body| ==> BodyLine(body[i], toReal)
    ensures Fold(s, body, toReal) == Ok(s.(tmp := s.tmp + Rows(body, toReal)))
    decreases |body|
  {
    if body == [] {
      assert s.tmp + Rows(body, toReal) == s.tmp;
    } else {
      var s' := s.(tmp := s.tmp + RowOf(body[0], toReal));
      StepBody(s, body[0], toReal);
      FoldBody(s', body[1..], toReal);
      assert Rows(body, toReal) == RowOf(body[0], toReal) + Rows(body[1..], toReal);
      Regroup(s.tmp, RowOf(body[0], toReal), Rows(body[1..], toReal));
    }
  }

  /** Inside a block, a body line adds its atom, if any. */
  lemma StepBody(s: Scan, line: string, toReal: string -> Option<real>)
    requires s.flag && BodyLine(line, toReal)
    ensures Step(s, line, toReal) == Ok(s.(tmp := s.tmp + RowOf(line, toReal)))
  {
    if Contains(line, "Item") {
      assert s.tmp + RowOf(line, toReal) == s.tmp;
    }
  }

  /** A well-formed block adds exactly its structure. */
  lemma FoldBlock(pts: seq<Point>, b: Block, toReal: string -> Option<real>)
    requires WellFormed(b, toReal)
    ensures Fold(Scan(pts, [], false), BlockLines(b), toReal) == Ok(Scan(pts + [PointOf(b, toReal)], [], false))
  {
    var start := Scan(pts, [], false);
    var open := Scan(pts, [], true);
    var read := Scan(pts, Rows(b.body, toReal), true);
    var closed := Scan(pts + [PointOf(b, toReal)], [], false);
    var rest := b.body + [b.energy] + b.trailer;
    assert BlockLines(b) == [b.header] + rest;
    assert Fold(start, [b.header] + rest, toReal) == Fold(open, rest, toReal) by {
      assert ([b.header] + rest)[0] == b.header && ([b.header] + rest)[1..] == rest;
      assert Step(start, b.header, toReal) == Ok(open);
    }
    assert rest == b.body + ([b.energy] + b.trailer);
    FoldAppend(open, b.body, [b.energy] + b.trailer, toReal);
    FoldBody(open, b.body, toReal);
    assert open.(tmp := open.tmp + Rows(b.body, toReal)) == read;
    assert Fold(open, rest, toReal) == Fold(read, [b.energy] + b.trailer, toReal);
    assert Fold(read, [b.energy] + b.trailer, toReal) == Fold(closed, b.trailer, toReal) by {
      assert ([b.energy] + b.trailer)[0] == b.energy && ([b.energy] + b.trailer)[1..] == b.trailer;
      assert Step(read, b.energy, toReal) == Ok(closed);
    }
    FoldPlain(closed, b.trailer, toReal);
  }

  /** The first block of a log is read, then the rest. */
  lemma FoldFirst(pts: seq<Point>, bs: seq<Block>, toReal: string -> Option<real>)
    requires bs != [] && WellFormed(bs[0], toReal)
    ensures Fold(Scan(pts, [], false), Log(bs), toReal)
      == Fold(Scan(pts + [PointOf(bs[0], toReal)], [], false), Log(bs[1..]), toReal)
  {
    assert Log(bs) == BlockLines(bs[0]) + Log(bs[1..]);
    FoldAppend(Scan(pts, [], false), BlockLines(bs[0]), Log(bs[1..]), toReal);
    FoldBlock(pts, bs[0], toReal);
  }

  lemma {:induction false} FoldLog(pts: seq<Point>, bs: seq<Block>, toReal: string -> Option<real>)
    requires forall i :: 0 <= i < |bs| ==> WellFormed(bs[i], toReal)
    ensures Fold(Scan(pts, [], false), Log(bs), toReal) == Ok(Scan(pts + Points(bs, toReal), [], false))
    decreases |bs|
  {
    if bs == [] {
      assert pts + Points(bs, toReal) == pts;
    } else {
      var next := pts + [PointOf(bs[0], toReal)];
      FoldFirst(pts, bs, toReal);
      FoldLog(next, bs[1..], toReal);
      PointsFirst(pts, bs, toReal);
    }
  }

  lemma PointsFirst(pts: seq<Point>, bs: seq<Block>, toReal: string -> Option<real>)
    requires bs != [] && forall i :: 0 <= i < |bs| ==> WellFormed(bs[i], toReal)
    ensures pts + [PointOf(bs[0], toReal)] + Points(bs[1..], toReal) == pts + Points(bs, toReal)
  {
  }

  /** Framing: on a log of well-formed blocks after ignored lines, the reader
      finds exactly one structure per block, in order, with the block's atom
      rows and energy; the result is then decided by those structures. */
  lemma ReadsBlocks(preamble: seq<string>, bs: seq<Block>, toReal: string -> Option<real>)
    requires forall i :: 0 <= i < |preamble| ==> Plain(preamble[i])
    requires forall i :: 0 <= i < |bs| ==> WellFormed(bs[i], toReal)
    ensures Fold(Start, preamble + Log(bs), toReal) == Ok(Scan(Points(bs, toReal), [], false))
    ensures PtResult(preamble + Log(bs), toReal) == Choose(Points(bs, toReal))
  {
    FoldAppend(Start, preamble, Log(bs), toReal);
    FoldPlain(Start, preamble, toReal);
    FoldLog([], bs, toReal);
    assert [] + Points(bs, toReal) == Points(bs, toReal);
  }
}
