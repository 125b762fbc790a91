/** The empirical ("brutto") formula both stores key Brutto nodes by:
    `''.join(f'{a}{n}' for a, n in sorted(Counter(symbols).items()))`
    (RePathDB/graph.py:89-90, AFIRdb/graph.py:75-76). */
module Formula {
  import opened Base
  import opened Text

  /** Python's `<` on `str`: lexicographic by code point, a proper prefix first. */
  predicate Below(a: string, b: string)
    decreases |a|
  {
    b != [] && (a == [] || a[0] < b[0] || (a[0] == b[0] && Below(a[1..], b[1..])))
  }

  lemma {:induction false} BelowIrreflexive(a: string)
    ensures !Below(a, a)
    decreases |a|
  {
    if a != [] { BelowIrreflexive(a[1..]); }
  }

  lemma {:induction false} BelowTransitive(a: string, b: string, c: string)
    requires Below(a, b) && Below(b, c)
    ensures Below(a, c)
    decreases |a|
  {
    if a != [] && a[0] == b[0] && b[0] == c[0] {
      BelowTransitive(a[1..], b[1..], c[1..]);
    }
  }

  lemma {:induction false} BelowTotal(a: string, b: string)
    requires a != b
    ensures Below(a, b) || Below(b, a)
    decreases |a|
  {
    if a != [] && b != [] && a[0] == b[0] {
      assert a == [a[0]] + a[1..] && b == [b[0]] + b[1..];
      BelowTotal(a[1..], b[1..]);
    }
  }

  lemma BelowAsymmetric(a: string, b: string)
    requires Below(a, b)
    ensures !Below(b, a)
  {
    if Below(b, a) {
      BelowTransitive(a, b, a);
      BelowIrreflexive(a);
    }
  }

  /** Strictly ascending: sorted, and so without repeats. */
  predicate Ascending(xs: seq<string>) {
    forall i, j :: 0 <= i < j < |xs| ==> Below(xs[i], xs[j])
  }

  /** Inserts `x` into an ascending sequence unless it is already there. */
  function Insert(x: string, xs: seq<string>): (r: seq<string>)
    requires Ascending(xs)
    ensures Ascending(r)
    ensures forall e :: e in r <==> e in xs || e == x
  {
    if xs == [] then [x]
    else if x == xs[0] then xs
    else if Below(x, xs[0]) then
      assert forall j :: 0 < j < |xs| ==> Below(x, xs[j]) by {
        forall j | 0 < j < |xs| { BelowTransitive(x, xs[0], xs[j]); }
      }
      [x] + xs
    else
      BelowTotal(x, xs[0]);
      var tail := Insert(x, xs[1..]);
      assert forall e :: e in xs[1..] ==> Below(xs[0], e);
      [xs[0]] + tail
  }

  /** The distinct symbols of `atoms`, ascending: the keys of the sorted Counter. */
  function Symbols(atoms: seq<string>): (r: seq<string>)
    ensures Ascending(r)
    ensures forall e :: e in r <==> e in atoms
  {
    if atoms == [] then []
    else
      var init := atoms[..|atoms| - 1];
      assert atoms == init + [atoms[|atoms| - 1]];
      Insert(atoms[|atoms| - 1], Symbols(init))
  }

  /** One `(symbol, count)` item of the sorted Counter. */
  datatype Entry = Entry(symbol: string, count: nat)

  /** `sorted(Counter(atoms).items())`. */
  function Entries(atoms: seq<string>): (es: seq<Entry>)
    ensures |es| == |Symbols(atoms)|
    ensures forall i :: 0 <= i < |es| ==> es[i].symbol == Symbols(atoms)[i]
    ensures forall i :: 0 <= i < |es| ==> es[i].count == multiset(atoms)[es[i].symbol] >= 1
  {
    var syms := Symbols(atoms);
    assert forall e :: e in syms ==> e in multiset(atoms);
    seq(|syms|, i requires 0 <= i < |syms| => Entry(syms[i], multiset(atoms)[syms[i]]))
  }

  /** Each symbol followed by its count, the count written even when it is 1. */
  function Render(es: seq<Entry>): string {
    if es == [] then "" else es[0].symbol + NatToString(es[0].count) + Render(es[1..])
  }

  /** The brutto formula of a structure whose atoms have the given symbols. */
  function FormulaOf(atoms: seq<string>): string {
    Render(Entries(atoms))
  }

  /** The ascending order of a set of symbols is unique. */
  lemma {:induction false} AscendingUnique(x: seq<string>, y: seq<string>)
    requires Ascending(x) && Ascending(y)
    requires forall e :: e in x <==> e in y
    ensures x == y
  {
    assert x == [] <==> y == [] by {
      if x != [] { assert x[0] in y; }
      if y != [] { assert y[0] in x; }
    }
    if x != [] {
      if x[0] != y[0] {
        assert x[0] in y && y[0] in x;
        var i :| 0 <= i < |x| && x[i] == y[0];
        var j :| 0 <= j < |y| && y[j] == x[0];
        assert Below(x[0], y[0]) && Below(y[0], x[0]);
        BelowAsymmetric(x[0], y[0]);
      }
      forall e ensures e in x[1..] <==> e in y[1..] {
        if e in x[1..] {
          var i :| 1 <= i < |x| && x[i] == e;
          assert Below(x[0], e);
          BelowIrreflexive(e);
          assert e in x;
          var j :| 0 <= j < |y| && y[j] == e;
          assert j != 0;
          assert y[1..][j - 1] == e;
        }
        if e in y[1..] {
          var j :| 1 <= j < |y| && y[j] == e;
          assert Below(y[0], e);
          BelowIrreflexive(e);
          assert e in y;
          var i :| 0 <= i < |x| && x[i] == e;
          assert i != 0;
          assert x[1..][i - 1] == e;
        }
      }
      AscendingUnique(x[1..], y[1..]);
      assert x == [x[0]] + x[1..] && y == [y[0]] + y[1..];
    }
  }

  /** The formula depends on the composition only: the order of the atoms
      does not matter. */
  lemma FormulaOfComposition(a: seq<string>, b: seq<string>)
    requires multiset(a) == multiset(b)
    ensures FormulaOf(a) == FormulaOf(b)
  {
    forall e ensures e in a <==> e in b {
      assert e in a <==> e in multiset(a);
      assert e in b <==> e in multiset(b);
    }
    AscendingUnique(Symbols(a), Symbols(b));
    assert Entries(a) == Entries(b);
  }

  // Reading a formula back

  /** A chemical symbol as it may appear in a formula: non-empty, no digit. */
  predicate IsSymbol(s: string) {
    |s| > 0 && forall i :: 0 <= i < |s| ==> !IsDigit(s[i])
  }

  function NonDigits(s: string): (w: string)
    ensures w <= s
    ensures forall i :: 0 <= i < |w| ==> !IsDigit(w[i])
  {
    if s == [] || IsDigit(s[0]) then [] else [s[0]] + NonDigits(s[1..])
  }

  function DigitRun(s: string): (w: string)
    ensures w <= s
    ensures forall i :: 0 <= i < |w| ==> IsDigit(w[i])
  {
    if s == [] || !IsDigit(s[0]) then [] else [s[0]] + DigitRun(s[1..])
  }

  lemma {:induction false} NonDigitsSplit(a: string, b: string)
    requires forall i :: 0 <= i < |a| ==> !IsDigit(a[i])
    requires b != [] && IsDigit(b[0])
    ensures NonDigits(a + b) == a
  {
    if a != [] {
      assert (a + b)[1..] == a[1..] + b;
      NonDigitsSplit(a[1..], b);
    }
  }

  lemma {:induction false} DigitRunSplit(a: string, b: string)
    requires forall i :: 0 <= i < |a| ==> IsDigit(a[i])
    requires b == [] || !IsDigit(b[0])
    ensures DigitRun(a + b) == a
  {
    if a != [] {
      assert (a + b)[1..] == a[1..] + b;
      DigitRunSplit(a[1..], b);
    }
  }

  /** The rendering of a non-empty item list is its first symbol, its count
      and the rendering of the rest. */
  lemma RenderFirst(es: seq<Entry>)
    requires es != []
    ensures Render(es) == es[0].symbol + (NatToString(es[0].count) + Render(es[1..]))
  {
  }

  /** A rendering with digit-free, non-empty symbols does not start with a digit. */
  lemma RenderStart(es: seq<Entry>)
    requires forall i :: 0 <= i < |es| ==> IsSymbol(es[i].symbol)
    ensures Render(es) == [] || !IsDigit(Render(es)[0])
  {
    if es != [] {
      assert Render(es)[0] == es[0].symbol[0];
    }
  }

  /** A string made of a digit-free symbol, a numeral and a rest that does
      not start with a digit splits back into those three. */
  lemma SplitItem(s: string, sym: string, num: string, rest: string)
    requires forall i :: 0 <= i < |sym| ==> !IsDigit(sym[i])
    requires IsNumeral(num) && (rest == [] || !IsDigit(rest[0]))
    requires s == sym + (num + rest)
    ensures NonDigits(s) == sym && |sym| + |num| <= |s| && DigitRun(s[|sym|..]) == num
    ensures s[|sym| + |num|..] == rest
  {
    NonDigitsSplit(sym, num + rest);
    assert s[|sym|..] == num + rest;
    DigitRunSplit(num, rest);
  }

  /** Different item lists with digit-free symbols render differently: the
      rendering can be read back item by item. */
  lemma {:induction false} RenderInjective(ea: seq<Entry>, eb: seq<Entry>)
    requires forall i :: 0 <= i < |ea| ==> IsSymbol(ea[i].symbol)
    requires forall i :: 0 <= i < |eb| ==> IsSymbol(eb[i].symbol)
    requires Render(ea) == Render(eb)
    ensures ea == eb
    decreases |ea|
  {
    if ea != [] && eb != [] {
      RenderFirst(ea);
      RenderFirst(eb);
      RenderStart(ea[1..]);
      RenderStart(eb[1..]);
      var sa, na := ea[0].symbol, NatToString(ea[0].count);
      var sb, nb := eb[0].symbol, NatToString(eb[0].count);
      SplitItem(Render(ea), sa, na, Render(ea[1..]));
      SplitItem(Render(eb), sb, nb, Render(eb[1..]));
      NatToStringRoundTrip(ea[0].count);
      NatToStringRoundTrip(eb[0].count);
      RenderInjective(ea[1..], eb[1..]);
      assert ea == [ea[0]] + ea[1..] && eb == [eb[0]] + eb[1..];
    }
  }

  /** The sorted Counter items give back the composition. */
  lemma EntriesDetermineComposition(a: seq<string>, b: seq<string>)
    requires Entries(a) == Entries(b)
    ensures multiset(a) == multiset(b)
  {
    var ea, eb := Entries(a), Entries(b);
    assert Symbols(a) == Symbols(b);
    forall e ensures multiset(a)[e] == multiset(b)[e] {
      assert (e in a) == (e in b) by {
        assert (e in a) == (e in Symbols(a));
        assert (e in b) == (e in Symbols(b));
      }
      if e in a {
        assert e in Symbols(a);
        var i :| 0 <= i < |ea| && ea[i].symbol == e;
      } else {
        assert e !in multiset(a) && e !in multiset(b);
      }
    }
  }

  /** Two structures get the same formula exactly when they have the same
      composition (given symbols without digits). */
  lemma FormulaIffComposition(a: seq<string>, b: seq<string>)
    requires forall i :: 0 <= i < |a| ==> IsSymbol(a[i])
    requires forall i :: 0 <= i < |b| ==> IsSymbol(b[i])
    ensures FormulaOf(a) == FormulaOf(b) <==> multiset(a) == multiset(b)
  {
    if multiset(a) == multiset(b) {
      FormulaOfComposition(a, b);
    }
    if FormulaOf(a) == FormulaOf(b) {
      var ea, eb := Entries(a), Entries(b);
      forall i | 0 <= i < |ea| ensures IsSymbol(ea[i].symbol) {
        assert ea[i].symbol in a;
      }
      forall i | 0 <= i < |eb| ensures IsSymbol(eb[i].symbol) {
        assert eb[i].symbol in b;
      }
      RenderInjective(ea, eb);
      EntriesDetermineComposition(a, b);
    }
  }
}
