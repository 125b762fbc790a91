/** Atom-index mappings as they travel through a JSON relationship property:
    written from a dict with integer keys, read back with string keys. */
module Mappings {
  import opened Base
  import opened Text

  /** An atom-number correspondence, as `get_mapping` produces it. */
  type Mapping = map<int, int>

  /** A mapping as a JSON property holds it: every key written with `str`. */
  type Json = map<string, int>

  /** `{n: n for n in structure}`: each atom number mapped to itself. */
  function Identity(atoms: seq<int>): (m: Mapping)
    ensures forall n :: n in m <==> n in atoms
    ensures forall n :: n in m ==> m[n] == n
  {
    map n | n in atoms :: n
  }

  /** The JSON object `json.dumps` writes for a dict with integer keys. */
  function ToJson(m: Mapping): (j: Json)
    ensures forall k :: k in m ==> IntToString(k) in j && j[IntToString(k)] == m[k]
    ensures forall s :: s in j ==> exists k :: k in m && s == IntToString(k)
  {
    assert forall a, b :: a in m && b in m && IntToString(a) == IntToString(b) ==> a == b by {
      forall a, b | a in m && b in m && IntToString(a) == IntToString(b) {
        IntToStringInjective(a, b);
      }
    }
    map k | k in m :: IntToString(k) := m[k]
  }

  /** A JSON key `int()` turns back into the integer it was written from. */
  predicate IsIntKey(s: string) {
    IntValue(s).Some? && IntToString(IntValue(s).value) == s
  }

  /** `Mapping.mapping` (RePathDB/graph.py:65-67): `{int(k): v for k, v in mapping_json.items()}`;
      a key `int` cannot read is a ValueError. */
  function Decode(j: Json): (r: Result<Mapping>)
    ensures r.Ok? <==> forall s :: s in j ==> IsIntKey(s)
    ensures r.Err? ==> r.error == ValueError
    ensures r.Ok? ==> forall s :: s in j ==> IntValue(s).value in r.value && r.value[IntValue(s).value] == j[s]
    ensures r.Ok? ==> forall k :: k in r.value ==> exists s :: s in j && k == IntValue(s).value
  {
    if forall s | s in j :: IsIntKey(s) then
      Ok(map s | s in j :: IntValue(s).value := j[s])
    else
      Err(ValueError)
  }

  /** Every key of a stored mapping reads back as an integer. */
  lemma ToJsonKeys(m: Mapping)
    ensures forall s :: s in ToJson(m) ==> IsIntKey(s)
  {
    forall s | s in ToJson(m) ensures IsIntKey(s) {
      var k :| k in m && s == IntToString(k);
      IntToStringRoundTrip(k);
    }
  }

  lemma SameEntries(d: Mapping, m: Mapping)
    requires forall k :: k in m ==> k in d && d[k] == m[k]
    requires forall k :: k in d ==> k in m
    ensures d == m
  {
    assert forall k :: k in d.Keys <==> k in m.Keys;
    assert d.Keys == m.Keys;
    assert forall k :: k in d ==> d[k] == m[k];
  }

  /** Reading a stored mapping gives back exactly the mapping that was stored. */
  lemma DecodeToJson(m: Mapping)
    ensures Decode(ToJson(m)) == Ok(m)
  {
    var j := ToJson(m);
    ToJsonKeys(m);
    assert Decode(j).Ok?;
    var d := Decode(j).value;
    forall k | k in m ensures k in d && d[k] == m[k] {
      IntToStringRoundTrip(k);
      assert IntToString(k) in j;
    }
    forall k | k in d ensures k in m {
      var s :| s in j && IntValue(s).value == k;
      var k' :| k' in m && s == IntToString(k');
      IntToStringRoundTrip(k');
    }
    SameEntries(d, m);
  }

  /** The composition at AFIRdb/graph.py:269,
      `{k: c2r[str(v)] for k, v in t2c.items()}`, where `c2r` is a stored
      (JSON) mapping; a missing key is a KeyError. */
  function Compose(t2c: Mapping, c2r: Json): (r: Result<Mapping>)
    ensures r.Err? ==> r.error == KeyError
  {
    if forall k | k in t2c :: IntToString(t2c[k]) in c2r then
      Ok(map k | k in t2c :: c2r[IntToString(t2c[k])])
    else
      Err(KeyError)
  }

  /** Composing with a stored mapping `m` is function composition `m ∘ t2c`,
      defined exactly when every image of `t2c` is a key of `m`. */
  lemma ComposeStored(t2c: Mapping, m: Mapping)
    ensures Compose(t2c, ToJson(m)).Ok? <==> forall k :: k in t2c ==> t2c[k] in m
    ensures Compose(t2c, ToJson(m)).Ok? ==>
      var r := Compose(t2c, ToJson(m)).value;
      r.Keys == t2c.Keys && forall k :: k in t2c ==> r[k] == m[t2c[k]]
  {
    var j := ToJson(m);
    forall k | k in t2c && IntToString(t2c[k]) in j ensures t2c[k] in m {
      var k' :| k' in m && IntToString(t2c[k]) == IntToString(k');
      IntToStringInjective(t2c[k], k');
    }
  }
}
