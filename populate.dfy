/** The AFIR output splitters of AFIRdb/populate.py: `get_blocks` cuts a
    log into '#'-headed blocks, `get_ts` / `get_eq` read one block into a
    dictionary. Text-to-number conversion (`float`, `int`) is a parameter:
    `None` stands for the ValueError the conversion raises. */
module AfirPopulate {
  import opened Base
  import opened Text

  /** The lines joined without separator, as `xyz += i` accumulates them. */
  function Concat(ls: seq<string>): string {
    if ls == [] then "" else Concat(ls[..|ls| - 1]) + ls[|ls| - 1]
  }

  /** The blocks laid end to end. */
  function Flatten(bs: seq<seq<string>>): seq<string> {
    if bs == [] then [] else Flatten(bs[..|bs| - 1]) + bs[|bs| - 1]
  }

  lemma {:induction false} FlattenCons(b: seq<string>, bs: seq<seq<string>>)
    ensures Flatten([b] + bs) == b + Flatten(bs)
    decreases |bs|
  {
    if bs != [] {
      var init := bs[..|bs| - 1];
      assert ([b] + bs)[..|bs|] == [b] + init;
      FlattenCons(b, init);
    }
  }

  // ---------------------------------------------------------------- get_blocks

  /** `i[0] == "#"` on a non-empty line. */
  predicate IsHashLine(line: string) {
    |line| > 0 && line[0] == '#'
  }

  /** How many lines start with '#'. */
  function HashCount(lines: seq<string>): nat {
    if lines == [] then 0
    else HashCount(lines[..|lines| - 1]) + (if IsHashLine(lines[|lines| - 1]) then 1 else 0)
  }

  /** The index of the first '#' line, or `|lines|` when there is none. */
  function FirstHash(lines: seq<string>): (k: nat)
    ensures k <= |lines|
    ensures k < |lines| ==> IsHashLine(lines[k])
    ensures forall j :: 0 <= j < k ==> !IsHashLine(lines[j])
  {
    if lines == [] || IsHashLine(lines[0]) then 0 else 1 + FirstHash(lines[1..])
  }

  /** A block: a '#' line followed by lines that do not start with '#'. */
  predicate IsBlock(b: seq<string>) {
    |b| > 0 && IsHashLine(b[0]) && forall j :: 1 <= j < |b| ==> !IsHashLine(b[j])
  }

  lemma FirstHashAt(a: seq<string>, b: seq<string>)
    requires forall j :: 0 <= j < |a| ==> !IsHashLine(a[j])
    requires b == [] || IsHashLine(b[0])
    ensures FirstHash(a + b) == |a|
  {
    var s := a + b;
    assert forall j :: 0 <= j < |a| ==> s[j] == a[j];
    if b != [] {
      assert s[|a|] == b[0];
    }
  }

  lemma FlattenSnoc(bs: seq<seq<string>>, b: seq<string>)
    ensures Flatten(bs + [b]) == Flatten(bs) + b
  {
    assert (bs + [b])[..|bs|] == bs;
  }

  /** Cutting `lines` at its '#' lines: dropping the first piece, which
      holds no '#' line, leaves the lines from the first '#' line on. */
  lemma DropPrefix(lines: seq<string>, all: seq<seq<string>>)
    requires |all| > 0 && Flatten(all) == lines
    requires forall j :: 0 <= j < |all[0]| ==> !IsHashLine(all[0][j])
    requires forall j :: 1 <= j < |all| ==> IsBlock(all[j])
    ensures Flatten(all[1..]) == lines[FirstHash(lines)..]
  {
    assert all == [all[0]] + all[1..];
    FlattenCons(all[0], all[1..]);
    if |all| > 1 {
      assert all[1..] == [all[1]] + all[2..];
      FlattenCons(all[1], all[2..]);
    }
    FirstHashAt(all[0], Flatten(all[1..]));
  }

  /** The state of `get_blocks` after the lines `read`: the blocks closed
      so far and the one being filled (`tmp`) hold those lines in order;
      every closed block but the first, and `tmp` once a block was closed,
      starts at a '#' line and has no other. */
  predicate Cut(read: seq<string>, blocks: seq<seq<string>>, tmp: seq<string>) {
    |blocks| == HashCount(read)
    && Flatten(blocks) + tmp == read
    && (blocks == [] ==> forall j :: 0 <= j < |tmp| ==> !IsHashLine(tmp[j]))
    && (blocks != [] ==> forall j :: 0 <= j < |blocks[0]| ==> !IsHashLine(blocks[0][j]))
    && (blocks != [] ==> IsBlock(tmp))
    && (forall j :: 1 <= j < |blocks| ==> IsBlock(blocks[j]))
  }

  lemma HashCountSnoc(read: seq<string>, line: string)
    ensures HashCount(read + [line]) == HashCount(read) + if IsHashLine(line) then 1 else 0
  {
    assert (read + [line])[..|read|] == read;
  }

  /** A '#' line closes the block being filled and opens a new one. */
  lemma CutHash(read: seq<string>, line: string, blocks: seq<seq<string>>, tmp: seq<string>)
    requires Cut(read, blocks, tmp) && IsHashLine(line)
    ensures Cut(read + [line], blocks + [tmp], [line])
  {
    HashCountSnoc(read, line);
    FlattenSnoc(blocks, tmp);
    var bs := blocks + [tmp];
    if blocks != [] {
      assert bs[0] == blocks[0];
    }
    forall j | 1 <= j < |bs| ensures IsBlock(bs[j]) {
      if j < |blocks| {
        assert bs[j] == blocks[j];
      }
    }
  }

  /** Any other non-empty line joins the block being filled. */
  lemma CutPlain(read: seq<string>, line: string, blocks: seq<seq<string>>, tmp: seq<string>)
    requires Cut(read, blocks, tmp) && !IsHashLine(line)
    ensures Cut(read + [line], blocks, tmp + [line])
  {
    HashCountSnoc(read, line);
    assert Flatten(blocks) + (tmp + [line]) == read + [line];
  }

  /** At the end of the lines, closing the last block and dropping the
      lines before the first '#' leaves one block per '#' line, laid end to
      end from the first '#' line on. */
  lemma CutDone(lines: seq<string>, blocks: seq<seq<string>>, tmp: seq<string>)
    requires Cut(lines, blocks, tmp)
    ensures var bs := (blocks + [tmp])[1..];
      |bs| == HashCount(lines) && (forall j :: 0 <= j < |bs| ==> IsBlock(bs[j]))
      && Flatten(bs) == lines[FirstHash(lines)..]
  {
    FlattenSnoc(blocks, tmp);
    var all := blocks + [tmp];
    DropPrefix(lines, all);
    forall j | 0 <= j < |all| - 1 ensures IsBlock(all[1..][j]) {
      if j + 1 < |blocks| {
        assert all[j + 1] == blocks[j + 1];
      }
    }
  }

  /** `get_blocks(lines)` (AFIRdb/populate.py:34-45): a new block starts at
      every '#' line; the lines before the first one are dropped. An empty
      line is an IndexError on `i[0]`. */
  method GetBlocks(lines: seq<string>) returns (r: Result<seq<seq<string>>>)
    ensures r.Err? <==> exists j :: 0 <= j < |lines| && lines[j] == ""
    ensures r.Err? ==> r.error == IndexError
    ensures r.Ok? ==> |r.value| == HashCount(lines)
    ensures r.Ok? ==> forall j :: 0 <= j < |r.value| ==> IsBlock(r.value[j])
    ensures r.Ok? ==> Flatten(r.value) == lines[FirstHash(lines)..]
  {
    var tmp: seq<string> := [];
    var blocks: seq<seq<string>> := [];
    for i := 0 to |lines|
      invariant forall j :: 0 <= j < i ==> lines[j] != ""
      invariant Cut(lines[..i], blocks, tmp)
    {
      var line := lines[i];
      if |line| == 0 {
        return Err(IndexError);
      }
      assert lines[..i + 1] == lines[..i] + [line];
      if line[0] == '#' {
        CutHash(lines[..i], line, blocks, tmp);
        blocks := blocks + [tmp];
        tmp := [line];
      } else {
        CutPlain(lines[..i], line, blocks, tmp);
        tmp := tmp + [line];
      }
    }
    assert lines[..|lines|] == lines;
    CutDone(lines, blocks, tmp);
    return Ok((blocks + [tmp])[1..]);
  }

  // ---------------------------------------------------------------- get_ts / get_eq

  /** One atom of a block: its line number in the block (counted from 1,
      the header being line 0), its symbol and its coordinates. */
  datatype AtomEntry = AtomEntry(n: nat, symbol: string, x: real, y: real, z: real)

  /** A value of the dictionary `get_ts` / `get_eq` return. */
  datatype Value =
    | AtomList(atoms: seq<AtomEntry>)  // "Atoms"
    | Text(text: string)               // "Atoms_xyz", "LABEL"
    | Number(number: real)             // the energy
    | Pair(first: int, second: int)    // a CONNECTION
    | Integer(integer: int)            // "NUM"

  type Record = map<string, Value>

  /** `i[:6] == "Energy"`. */
  predicate IsEnergyLine(line: string) {
    StartsWith(line, "Energy")
  }

  /** `i[:10] == "CONNECTION"`. */
  predicate IsConnectionLine(line: string) {
    StartsWith(line, "CONNECTION")
  }

  /** `at, x, y, z = i.split()` and the three `float` calls. */
  function AtomLine(n: nat, line: string, toReal: string -> Option<real>): Result<AtomEntry> {
    var t := Tokens(line);
    if |t| != 4 then Err(ValueError)
    else if toReal(t[1]).None? || toReal(t[2]).None? || toReal(t[3]).None? then Err(ValueError)
    else Ok(AtomEntry(n, t[0], toReal(t[1]).value, toReal(t[2]).value, toReal(t[3]).value))
  }

  /** The first "Energy" line at or after `from`. */
  function FindEnergy(block: seq<string>, from: nat): (k: Option<nat>)
    ensures k.Some? ==> from <= k.value < |block| && IsEnergyLine(block[k.value])
    ensures k.Some? ==> forall j :: from <= j < k.value ==> !IsEnergyLine(block[j])
    ensures k.None? ==> forall j :: from <= j < |block| ==> !IsEnergyLine(block[j])
    decreases |block| - from
  {
    if from >= |block| then None
    else if IsEnergyLine(block[from]) then Some(from)
    else FindEnergy(block, from + 1)
  }

  /** What the atom loop leaves behind: the atoms, the raw atom lines
      joined, and the index of the "Energy" line. */
  datatype Section = Section(atoms: seq<AtomEntry>, xyz: string, energyAt: nat)

  /** The atom lines `1 .. hi - 1` read in order; the first that is not
      `symbol x y z` with three numbers is a ValueError. */
  function AtomsUpTo(block: seq<string>, toReal: string -> Option<real>, hi: nat): (r: Result<seq<AtomEntry>>)
    requires 1 <= hi <= |block|
    ensures r.Err? ==> r.error == ValueError
    ensures r.Ok? <==> forall j :: 1 <= j < hi ==> AtomLine(j, block[j], toReal).Ok?
    ensures r.Ok? ==> |r.value| == hi - 1
    ensures r.Ok? ==> forall i :: 0 <= i < hi - 1 ==> r.value[i] == AtomLine(i + 1, block[i + 1], toReal).value
    decreases hi
  {
    if hi == 1 then Ok([])
    else
      match AtomsUpTo(block, toReal, hi - 1)
      case Err(e) => Err(e)
      case Ok(atoms) =>
        match AtomLine(hi - 1, block[hi - 1], toReal)
        case Err(e) => Err(e)
        case Ok(atom) => Ok(atoms + [atom])
  }

  /** The atom loop of `get_ts` / `get_eq` (AFIRdb/populate.py:53-60,
      79-86) and the `['Atoms'][-1]` read after it, which fails on an empty
      atom list: every line after the header up to the first "Energy"
      line is an atom line. */
  function AtomSection(block: seq<string>, toReal: string -> Option<real>): (r: Result<Section>)
    ensures r.Err? ==> r.error == ValueError || r.error == IndexError
    ensures r.Ok? ==> FindEnergy(block, 1) == Some(r.value.energyAt) && r.value.energyAt >= 2
    ensures r.Ok? ==> forall j :: 1 <= j < r.value.energyAt ==> AtomLine(j, block[j], toReal).Ok?
    ensures r.Ok? ==> |r.value.atoms| == r.value.energyAt - 1
    ensures r.Ok? ==> forall i :: 0 <= i < |r.value.atoms| ==> r.value.atoms[i] == AtomLine(i + 1, block[i + 1], toReal).value
    ensures r.Ok? ==> r.value.xyz == Concat(block[1..r.value.energyAt])
  {
    if |block| == 0 then Err(IndexError)
    else
      var e := FindEnergy(block, 1);
      var end := if e.Some? then e.value else |block|;
      match AtomsUpTo(block, toReal, end)
      case Err(err) => Err(err)
      case Ok(atoms) =>
        if e.None? || end == 1 then Err(IndexError)
        else Ok(Section(atoms, Concat(block[1..end]), end))
  }

  lemma SectionStopsAt(block: seq<string>, toReal: string -> Option<real>, k: nat)
    requires 1 <= k < |block| && IsEnergyLine(block[k])
    requires forall j :: 1 <= j < k ==> !IsEnergyLine(block[j]) && AtomLine(j, block[j], toReal).Ok?
    ensures FindEnergy(block, 1) == Some(k)
    ensures k == 1 ==> AtomSection(block, toReal) == Err(IndexError)
    ensures k > 1 ==> AtomsUpTo(block, toReal, k).Ok?
    ensures k > 1 ==> AtomSection(block, toReal) == Ok(Section(AtomsUpTo(block, toReal, k).value, Concat(block[1..k]), k))
  {
    assert FindEnergy(block, 1) == Some(k);
  }

  lemma SectionBadLine(block: seq<string>, toReal: string -> Option<real>, n: nat)
    requires 1 <= n < |block| && !IsEnergyLine(block[n]) && AtomLine(n, block[n], toReal).Err?
    requires forall j :: 1 <= j < n ==> !IsEnergyLine(block[j])
    ensures AtomSection(block, toReal) == Err(ValueError)
  {
    var e := FindEnergy(block, 1);
    assert e.Some? ==> e.value > n;
  }

  lemma SectionNoEnergy(block: seq<string>, toReal: string -> Option<real>)
    requires |block| > 0
    requires forall j :: 1 <= j < |block| ==> !IsEnergyLine(block[j]) && AtomLine(j, block[j], toReal).Ok?
    ensures AtomSection(block, toReal) == Err(IndexError)
  {
    assert FindEnergy(block, 1).None?;
  }

  lemma ConcatNext(block: seq<string>, n: nat)
    requires 1 <= n < |block|
    ensures Concat(block[1..n + 1]) == Concat(block[1..n]) + block[n]
  {
    assert block[1..n + 1][..n - 1] == block[1..n];
  }

  lemma NoEnergyNext(block: seq<string>, n: nat)
    requires 1 <= n < |block| && !IsEnergyLine(block[n])
    requires forall j :: 1 <= j < n ==> !IsEnergyLine(block[j])
    ensures forall j :: 1 <= j < n + 1 ==> !IsEnergyLine(block[j])
  {
  }

  lemma AtomsNext(block: seq<string>, toReal: string -> Option<real>, n: nat, atoms: seq<AtomEntry>, atom: AtomEntry)
    requires 1 <= n < |block| && AtomsUpTo(block, toReal, n) == Ok(atoms)
    requires AtomLine(n, block[n], toReal) == Ok(atom)
    ensures AtomsUpTo(block, toReal, n + 1) == Ok(atoms + [atom])
  {
  }

  /** The atom loop: reads atom lines until the first "Energy" line, and
      only there hands over the atoms read (`atoms.extend(tmp)`). `bad` is
      the ValueError of a line that is not an atom line; `energyAt` stays 0
      when no "Energy" line follows. */
  method AtomLoop(block: seq<string>, toReal: string -> Option<real>)
    returns (bad: bool, atoms: seq<AtomEntry>, xyz: string, energyAt: nat)
    requires |block| > 0
    ensures bad ==> AtomSection(block, toReal) == Err(ValueError)
    ensures !bad && energyAt == 0 ==> atoms == [] && AtomSection(block, toReal) == Err(IndexError)
    ensures !bad && energyAt == 1 ==> atoms == [] && AtomSection(block, toReal) == Err(IndexError)
    ensures !bad && energyAt > 1 ==> atoms != [] && AtomSection(block, toReal) == Ok(Section(atoms, xyz, energyAt))
  {
    var tmp: seq<AtomEntry> := [];
    xyz := "";
    atoms := [];
    energyAt := 0;
    var n := 1;
    while n < |block|
      invariant 1 <= n <= |block|
      invariant forall j :: 1 <= j < n ==> !IsEnergyLine(block[j])
      invariant AtomsUpTo(block, toReal, n) == Ok(tmp)
      invariant xyz == Concat(block[1..n])
      invariant energyAt == 0 && atoms == []
    {
      var line := block[n];
      if IsEnergyLine(line) {
        SectionStopsAt(block, toReal, n);
        atoms := tmp;
        energyAt := n;
        return false, atoms, xyz, energyAt;
      }
      ConcatNext(block, n);
      NoEnergyNext(block, n);
      xyz := xyz + line;
      var t := Tokens(line);
      if |t| != 4 {
        SectionBadLine(block, toReal, n);
        return true, atoms, xyz, energyAt;
      }
      var x, y, z := toReal(t[1]), toReal(t[2]), toReal(t[3]);
      if x.None? || y.None? || z.None? {
        SectionBadLine(block, toReal, n);
        return true, atoms, xyz, energyAt;
      }
      var atom := AtomEntry(n, t[0], x.value, y.value, z.value);
      AtomsNext(block, toReal, n, tmp, atom);
      tmp := tmp + [atom];
      n := n + 1;
    }
    SectionNoEnergy(block, toReal);
    bad := false;
  }

  /** The atom loop and the `['Atoms'][-1]` read after it. */
  method ReadAtoms(block: seq<string>, toReal: string -> Option<real>) returns (r: Result<Section>)
    ensures r == AtomSection(block, toReal)
  {
    if |block| == 0 {
      // `block[1:]` is empty, so is the atom list
      return Err(IndexError);
    }
    var bad, atoms, xyz, energyAt := AtomLoop(block, toReal);
    if bad {
      return Err(ValueError);
    }
    if |atoms| == 0 {
      return Err(IndexError);
    }
    return Ok(Section(atoms, xyz, energyAt));
  }

  /** `a, _, b = block[tmp].split()` and `float(b)`: the energy entry. */
  function EnergyEntry(line: string, toReal: string -> Option<real>): Result<(string, real)> {
    var t := Tokens(line);
    if |t| != 3 || toReal(t[2]).None? then Err(ValueError) else Ok((t[0], toReal(t[2]).value))
  }

  /** The key a CONNECTION line sets: its first token. */
  function KeyOf(line: string): string {
    var t := Tokens(line);
    if t == [] then "" else t[0]
  }

  /** `a, _, b, _, c = i.split()` and `(int(b), int(c))`. */
  function ConnectionEntry(line: string, toInt: string -> Option<int>): Result<Value> {
    var t := Tokens(line);
    if |t| != 5 || toInt(t[2]).None? || toInt(t[4]).None? then Err(ValueError)
    else Ok(Pair(toInt(t[2]).value, toInt(t[4]).value))
  }

  /** `for i in block[::-1]`: the CONNECTION lines of `lines` written into
      `d`, the last line first. */
  function Connections(d: Record, lines: seq<string>, toInt: string -> Option<int>): Result<Record> {
    if lines == [] then Ok(d)
    else
      match Connections(d, lines[1..], toInt)
      case Err(e) => Err(e)
      case Ok(d') =>
        if !IsConnectionLine(lines[0]) then Ok(d')
        else
          match ConnectionEntry(lines[0], toInt)
          case Err(e) => Err(e)
          case Ok(v) => Ok(d'[KeyOf(lines[0]) := v])
  }

  /** `s.rstrip(c)`. */
  function RStrip(s: string, c: char): (r: string)
    ensures r <= s
    ensures r == [] || r[|r| - 1] != c
    ensures forall i :: |r| <= i < |s| ==> s[i] == c
  {
    if s != [] && s[|s| - 1] == c then RStrip(s[..|s| - 1], c) else s
  }

  /** `int(block[0].split()[4].rstrip(","))`: the structure number in the header. */
  function HeaderNumber(header: string, toInt: string -> Option<int>): Result<int> {
    var t := Tokens(header);
    if |t| < 5 then Err(IndexError)
    else if toInt(RStrip(t[4], ',')).None? then Err(ValueError)
    else Ok(toInt(RStrip(t[4], ',')).value)
  }

  /** The entries every block record starts with: the atoms and the XYZ text
      headed by the number of the last atom. */
  function AtomFields(sec: Section): Record
    requires |sec.atoms| > 0
  {
    map["Atoms" := AtomList(sec.atoms)]["Atoms_xyz" := Text(IntToString(sec.atoms[|sec.atoms| - 1].n) + "\n\n" + sec.xyz)]
  }

  /** The dictionary `get_ts(block, typ)` builds, entry by entry in the
      order of AFIRdb/populate.py:61-70. */
  function TsRecord(block: seq<string>, typ: string, toReal: string -> Option<real>, toInt: string -> Option<int>): Result<Record> {
    match AtomSection(block, toReal)
    case Err(e) => Err(e)
    case Ok(sec) =>
      match EnergyEntry(block[sec.energyAt], toReal)
      case Err(e) => Err(e)
      case Ok(energy) =>
        match Connections(AtomFields(sec)[energy.0 := Number(energy.1)], block, toInt)
        case Err(e) => Err(e)
        case Ok(d) =>
          match HeaderNumber(block[0], toInt)
          case Err(e) => Err(e)
          case Ok(num) => Ok(d["NUM" := Integer(num)]["LABEL" := Text(typ + ":" + IntToString(num))])
  }

  /** The dictionary `get_eq(block)` builds (AFIRdb/populate.py:87-92). */
  function EqRecord(block: seq<string>, toReal: string -> Option<real>, toInt: string -> Option<int>): Result<Record> {
    match AtomSection(block, toReal)
    case Err(e) => Err(e)
    case Ok(sec) =>
      match EnergyEntry(block[sec.energyAt], toReal)
      case Err(e) => Err(e)
      case Ok(energy) =>
        match HeaderNumber(block[0], toInt)
        case Err(e) => Err(e)
        case Ok(num) => Ok(AtomFields(sec)[energy.0 := Number(energy.1)]["NUM" := Integer(num)])
  }

  lemma {:induction false} ConnectionsErrPropagates(d: Record, lines: seq<string>, k: nat, toInt: string -> Option<int>)
    requires k <= |lines| && Connections(d, lines[k..], toInt).Err?
    ensures Connections(d, lines, toInt) == Connections(d, lines[k..], toInt)
    decreases k
  {
    if k > 0 {
      assert lines[k - 1..][1..] == lines[k..];
      ConnectionsErrPropagates(d, lines, k - 1, toInt);
    }
  }

  /** The CONNECTION loop: `block` scanned from its last line to its first. */
  method ReadConnections(d: Record, block: seq<string>, toInt: string -> Option<int>) returns (r: Result<Record>)
    ensures r == Connections(d, block, toInt)
  {
    var ts := d;
    var i := |block|;
    while i > 0
      invariant 0 <= i <= |block|
      invariant Connections(d, block[i..], toInt) == Ok(ts)
    {
      i := i - 1;
      assert block[i..][1..] == block[i + 1..];
      var line := block[i];
      if IsConnectionLine(line) {
        var t := Tokens(line);
        if |t| != 5 || toInt(t[2]).None? || toInt(t[4]).None? {
          ConnectionsErrPropagates(d, block, i, toInt);
          return Err(ValueError);
        }
        ts := ts[t[0] := Pair(toInt(t[2]).value, toInt(t[4]).value)];
      }
    }
    assert block[0..] == block;
    return Ok(ts);
  }

  /** `get_ts(block, typ)` (AFIRdb/populate.py:48-71). */
  method GetTs(block: seq<string>, typ: string, toReal: string -> Option<real>, toInt: string -> Option<int>)
    returns (r: Result<Record>)
    ensures r == TsRecord(block, typ, toReal, toInt)
  {
    var section := ReadAtoms(block, toReal);
    if section.Err? {
      return Err(section.error);
    }
    var sec := section.value;
    var ts: Record := map[];
    ts := ts["Atoms" := AtomList(sec.atoms)];
    ts := ts["Atoms_xyz" := Text(IntToString(sec.atoms[|sec.atoms| - 1].n) + "\n\n" + sec.xyz)];
    var t := Tokens(block[sec.energyAt]);
    if |t| != 3 || toReal(t[2]).None? {
      return Err(ValueError);
    }
    ts := ts[t[0] := Number(toReal(t[2]).value)];
    var withConnections := ReadConnections(ts, block, toInt);
    if withConnections.Err? {
      return Err(withConnections.error);
    }
    ts := withConnections.value;
    var num := HeaderNumber(block[0], toInt);
    if num.Err? {
      return Err(num.error);
    }
    ts := ts["NUM" := Integer(num.value)];
    ts := ts["LABEL" := Text(typ + ":" + IntToString(num.value))];
    return Ok(ts);
  }

  /** `get_eq(block)` (AFIRdb/populate.py:74-92). */
  method GetEq(block: seq<string>, toReal: string -> Option<real>, toInt: string -> Option<int>)
    returns (r: Result<Record>)
    ensures r == EqRecord(block, toReal, toInt)
  {
    var section := ReadAtoms(block, toReal);
    if section.Err? {
      return Err(section.error);
    }
    var sec := section.value;
    var eq: Record := map[];
    eq := eq["Atoms" := AtomList(sec.atoms)];
    eq := eq["Atoms_xyz" := Text(IntToString(sec.atoms[|sec.atoms| - 1].n) + "\n\n" + sec.xyz)];
    var t := Tokens(block[sec.energyAt]);
    if |t| != 3 || toReal(t[2]).None? {
      return Err(ValueError);
    }
    eq := eq[t[0] := Number(toReal(t[2]).value)];
    var num := HeaderNumber(block[0], toInt);
    if num.Err? {
      return Err(num.error);
    }
    eq := eq["NUM" := Integer(num.value)];
    return Ok(eq);
  }

  // ---------------------------------------------------------------- what the records hold

  /** A line that does not start with a separator has a first token
      starting with the line's first character. */
  lemma FirstTokenStart(line: string)
    requires |line| > 0 && !IsSpace(line[0])
    ensures |Tokens(line)| > 0 && |Tokens(line)[0]| > 0 && Tokens(line)[0][0] == line[0]
  {
    assert Word(line)[0] == line[0];
  }

  lemma ConnectionKeyStart(line: string)
    requires IsConnectionLine(line)
    ensures |KeyOf(line)| > 0 && KeyOf(line)[0] == 'C'
  {
    assert line[0] == line[..10][0];
    FirstTokenStart(line);
  }

  lemma EnergyKeyStart(line: string)
    requires IsEnergyLine(line)
    ensures |Tokens(line)| > 0 && |Tokens(line)[0]| > 0 && Tokens(line)[0][0] == 'E'
  {
    assert line[0] == line[..6][0];
    FirstTokenStart(line);
  }

  /** Keys no CONNECTION line sets keep their entries. */
  lemma {:induction false} ConnectionsKeep(d: Record, lines: seq<string>, toInt: string -> Option<int>, a: string)
    requires Connections(d, lines, toInt).Ok?
    requires forall j :: 0 <= j < |lines| && IsConnectionLine(lines[j]) ==> KeyOf(lines[j]) != a
    ensures (a in Connections(d, lines, toInt).value) == (a in d)
    ensures a in d ==> Connections(d, lines, toInt).value[a] == d[a]
  {
    if lines != [] {
      assert Connections(d, lines[1..], toInt).Ok?;
      ConnectionsKeep(d, lines[1..], toInt, a);
    }
  }

  /** Scanning backwards, the EARLIEST CONNECTION line with a given key
      decides that key's entry. */
  lemma {:induction false} ConnectionsEarliest(d: Record, lines: seq<string>, toInt: string -> Option<int>, j: nat)
    requires Connections(d, lines, toInt).Ok?
    requires j < |lines| && IsConnectionLine(lines[j])
    requires forall i :: 0 <= i < j && IsConnectionLine(lines[i]) ==> KeyOf(lines[i]) != KeyOf(lines[j])
    ensures ConnectionEntry(lines[j], toInt).Ok?
    ensures KeyOf(lines[j]) in Connections(d, lines, toInt).value
    ensures Connections(d, lines, toInt).value[KeyOf(lines[j])] == ConnectionEntry(lines[j], toInt).value
  {
    assert Connections(d, lines[1..], toInt).Ok?;
    if j > 0 {
      assert lines[1..][j - 1] == lines[j];
      ConnectionsEarliest(d, lines[1..], toInt, j - 1);
    }
  }

  /** `line` is the atom line `symbol x y z` of atom `a`, number `n`. */
  predicate Describes(a: AtomEntry, n: nat, line: string, toReal: string -> Option<real>) {
    var t := Tokens(line);
    a.n == n && |t| == 4 && t[0] == a.symbol
    && toReal(t[1]) == Some(a.x) && toReal(t[2]) == Some(a.y) && toReal(t[3]) == Some(a.z)
  }

  lemma SectionAtoms(block: seq<string>, toReal: string -> Option<real>)
    requires AtomSection(block, toReal).Ok?
    ensures var sec := AtomSection(block, toReal).value;
      forall i :: 0 <= i < |sec.atoms| ==> Describes(sec.atoms[i], i + 1, block[i + 1], toReal)
  {
    var sec := AtomSection(block, toReal).value;
    forall i | 0 <= i < |sec.atoms| ensures Describes(sec.atoms[i], i + 1, block[i + 1], toReal) {
      assert AtomLine(i + 1, block[i + 1], toReal).Ok?;
    }
  }

  /** The record `get_ts` builds before the CONNECTION loop. */
  function TsBase(block: seq<string>, toReal: string -> Option<real>): Record
    requires AtomSection(block, toReal).Ok?
    requires EnergyEntry(block[AtomSection(block, toReal).value.energyAt], toReal).Ok?
  {
    var sec := AtomSection(block, toReal).value;
    var energy := EnergyEntry(block[sec.energyAt], toReal).value;
    AtomFields(sec)[energy.0 := Number(energy.1)]
  }

  /** No key of the base record starts with 'C': they are "Atoms",
      "Atoms_xyz" and the energy key, which starts with 'E'. */
  lemma BaseKeyStart(block: seq<string>, toReal: string -> Option<real>, a: string)
    requires AtomSection(block, toReal).Ok?
    requires EnergyEntry(block[AtomSection(block, toReal).value.energyAt], toReal).Ok?
    requires a in TsBase(block, toReal)
    ensures |a| > 0 && a[0] != 'C'
  {
    EnergyKeyStart(block[AtomSection(block, toReal).value.energyAt]);
  }

  /** The entries of `TsBase` survive the CONNECTION loop: every
      CONNECTION key starts with 'C', none of theirs does. */
  lemma TsKeepsBase(block: seq<string>, typ: string, toReal: string -> Option<real>, toInt: string -> Option<int>, a: string)
    requires TsRecord(block, typ, toReal, toInt).Ok?
    requires a in TsBase(block, toReal)
    ensures a in TsRecord(block, typ, toReal, toInt).value
    ensures a != "NUM" && a != "LABEL" ==> TsRecord(block, typ, toReal, toInt).value[a] == TsBase(block, toReal)[a]
  {
    var base := TsBase(block, toReal);
    TsShape(block, typ, toReal, toInt);
    BaseKeyStart(block, toReal, a);
    NoConnectionKey(block, a);
    ConnectionsKeep(base, block, toInt, a);
  }

  /** `get_ts` in three steps: the base record, the CONNECTION loop over it,
      then the number and the label. */
  lemma TsShape(block: seq<string>, typ: string, toReal: string -> Option<real>, toInt: string -> Option<int>)
    requires TsRecord(block, typ, toReal, toInt).Ok?
    ensures AtomSection(block, toReal).Ok?
    ensures EnergyEntry(block[AtomSection(block, toReal).value.energyAt], toReal).Ok?
    ensures Connections(TsBase(block, toReal), block, toInt).Ok? && HeaderNumber(block[0], toInt).Ok?
    ensures var num := HeaderNumber(block[0], toInt).value;
      TsRecord(block, typ, toReal, toInt).value ==
      Connections(TsBase(block, toReal), block, toInt).value["NUM" := Integer(num)]["LABEL" := Text(typ + ":" + IntToString(num))]
  {
  }

  /** A key that does not start with 'C' is set by no CONNECTION line. */
  lemma NoConnectionKey(block: seq<string>, a: string)
    requires |a| > 0 && a[0] != 'C'
    ensures forall j :: 0 <= j < |block| && IsConnectionLine(block[j]) ==> KeyOf(block[j]) != a
  {
    forall j | 0 <= j < |block| && IsConnectionLine(block[j]) ensures KeyOf(block[j]) != a {
      ConnectionKeyStart(block[j]);
    }
  }

  /** What `get_ts` returns, first part: the atoms of the lines between the
      header and the first "Energy" line, numbered from 1, and the XYZ text
      headed by the atom count. */
  lemma TsAtoms(block: seq<string>, typ: string, toReal: string -> Option<real>, toInt: string -> Option<int>)
    requires TsRecord(block, typ, toReal, toInt).Ok?
    ensures FindEnergy(block, 1).Some? && FindEnergy(block, 1).value >= 2
    ensures var k := FindEnergy(block, 1).value;
      var d := TsRecord(block, typ, toReal, toInt).value;
      && "Atoms" in d && d["Atoms"].AtomList? && |d["Atoms"].atoms| == k - 1
      && (forall i :: 0 <= i < k - 1 ==> Describes(d["Atoms"].atoms[i], i + 1, block[i + 1], toReal))
      && "Atoms_xyz" in d && d["Atoms_xyz"] == Text(NatToString(k - 1) + "\n\n" + Concat(block[1..k]))
  {
    var sec := AtomSection(block, toReal).value;
    var k := sec.energyAt;
    var d := TsRecord(block, typ, toReal, toInt).value;
    EnergyKeyStart(block[k]);
    var key := EnergyEntry(block[k], toReal).value.0;
    assert key != "Atoms" && key != "Atoms_xyz" by { assert key[0] == 'E'; }
    assert TsBase(block, toReal)["Atoms"] == AtomList(sec.atoms);
    assert TsBase(block, toReal)["Atoms_xyz"] == Text(IntToString(sec.atoms[k - 2].n) + "\n\n" + sec.xyz);
    TsKeepsBase(block, typ, toReal, toInt, "Atoms");
    TsKeepsBase(block, typ, toReal, toInt, "Atoms_xyz");
    assert d["Atoms"] == AtomList(sec.atoms);
    SectionAtoms(block, toReal);
    assert sec.atoms[k - 2].n == k - 1;
  }

  /** What `get_ts` returns, second part: the energy under the first token
      of the "Energy" line. */
  lemma TsEnergy(block: seq<string>, typ: string, toReal: string -> Option<real>, toInt: string -> Option<int>)
    requires TsRecord(block, typ, toReal, toInt).Ok?
    ensures FindEnergy(block, 1).Some?
    ensures var d := TsRecord(block, typ, toReal, toInt).value;
      var t := Tokens(block[FindEnergy(block, 1).value]);
      && |t| == 3 && toReal(t[2]).Some? && t[0] in d && d[t[0]] == Number(toReal(t[2]).value)
  {
    var sec := AtomSection(block, toReal).value;
    var t := Tokens(block[sec.energyAt]);
    EnergyKeyStart(block[sec.energyAt]);
    assert t[0] != "NUM" && t[0] != "LABEL" by { assert t[0][0] == 'E'; }
    TsKeepsBase(block, typ, toReal, toInt, t[0]);
  }

  /** What `get_ts` returns, third part: the header's structure number and
      the label `typ:NUM` built from it. */
  lemma TsLabel(block: seq<string>, typ: string, toReal: string -> Option<real>, toInt: string -> Option<int>)
    requires TsRecord(block, typ, toReal, toInt).Ok?
    ensures var d := TsRecord(block, typ, toReal, toInt).value;
      && HeaderNumber(block[0], toInt).Ok?
      && "NUM" in d && d["NUM"] == Integer(HeaderNumber(block[0], toInt).value)
      && "LABEL" in d && d["LABEL"] == Text(typ + ":" + IntToString(HeaderNumber(block[0], toInt).value))
  {
  }

  /** A CONNECTION entry of `get_ts` holds the two integers of the earliest
      CONNECTION line with that key. */
  lemma TsConnection(block: seq<string>, typ: string, toReal: string -> Option<real>, toInt: string -> Option<int>, j: nat)
    requires TsRecord(block, typ, toReal, toInt).Ok?
    requires j < |block| && IsConnectionLine(block[j])
    requires forall i :: 0 <= i < j && IsConnectionLine(block[i]) ==> KeyOf(block[i]) != KeyOf(block[j])
    ensures var t := Tokens(block[j]);
      var d := TsRecord(block, typ, toReal, toInt).value;
      && |t| == 5 && toInt(t[2]).Some? && toInt(t[4]).Some?
      && t[0] in d && d[t[0]] == Pair(toInt(t[2]).value, toInt(t[4]).value)
  {
    var sec := AtomSection(block, toReal).value;
    var energy := EnergyEntry(block[sec.energyAt], toReal).value;
    ConnectionsEarliest(AtomFields(sec)[energy.0 := Number(energy.1)], block, toInt, j);
    ConnectionKeyStart(block[j]);
  }

  /** What `get_eq` returns: as `get_ts`, without CONNECTION entries and label. */
  lemma EqFields(block: seq<string>, toReal: string -> Option<real>, toInt: string -> Option<int>)
    requires EqRecord(block, toReal, toInt).Ok?
    ensures FindEnergy(block, 1).Some? && FindEnergy(block, 1).value >= 2
    ensures var k := FindEnergy(block, 1).value;
      var d := EqRecord(block, toReal, toInt).value;
      && "Atoms" in d && d["Atoms"].AtomList? && |d["Atoms"].atoms| == k - 1
      && (forall i :: 0 <= i < k - 1 ==> Describes(d["Atoms"].atoms[i], i + 1, block[i + 1], toReal))
      && "Atoms_xyz" in d && d["Atoms_xyz"] == Text(NatToString(k - 1) + "\n\n" + Concat(block[1..k]))
    ensures var k := FindEnergy(block, 1).value;
      var d := EqRecord(block, toReal, toInt).value;
      var t := Tokens(block[k]);
      && |t| == 3 && toReal(t[2]).Some? && t[0] in d && d[t[0]] == Number(toReal(t[2]).value)
    ensures var d := EqRecord(block, toReal, toInt).value;
      && HeaderNumber(block[0], toInt).Ok?
      && "NUM" in d && d["NUM"] == Integer(HeaderNumber(block[0], toInt).value)
      && d.Keys == {"Atoms", "Atoms_xyz", Tokens(block[FindEnergy(block, 1).value])[0], "NUM"}
  {
    var sec := AtomSection(block, toReal).value;
    var k := sec.energyAt;
    EnergyKeyStart(block[k]);
    SectionAtoms(block, toReal);
    assert sec.atoms[k - 2].n == k - 1;
  }
}
