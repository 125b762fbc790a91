/** The pathway search over the reaction network (RePathDB/graph.py):
    `search_path` is a best-first enumeration of Complex → Reaction → Complex
    paths driven by a heap keyed `(path length, last barrier, counter)`, with a
    `seen` set that absorbs the products queued so far (`new_seen`) each time
    the length of the popped path changes. The generator is modelled as the
    sequence of paths it yields; `get_effective_paths` weighs a prefix of it. */
module PathSearch {
  import opened Base

  function Max(a: int, b: int): int { if a < b then b else a }
  function Min(a: int, b: int): int { if a < b then a else b }

  /** The part of the graph the search reads: the `C2R` edges of each complex
      in the order `reactant.all()` returns them, the product complex of each
      reaction and the `energy` of complexes and reactions. */
  datatype Net = Net(out: map<int, seq<int>>, prod: map<int, int>, cEnergy: map<int, real>, rEnergy: map<int, real>)

  /** `cur.reactant.all()`: no edge means no reaction. */
  function Reactions(net: Net, c: int): seq<int> {
    if c in net.out then net.out[c] else []
  }

  /** What the store keeps: every complex with outgoing reactions has an
      energy, every such reaction has an energy and a product, and no
      reaction is listed twice for the same complex. */
  predicate Complete(net: Net) {
    (forall c :: c in net.out ==> c in net.cEnergy)
    && (forall c, i :: c in net.out && 0 <= i < |net.out[c]| ==> net.out[c][i] in net.prod && net.out[c][i] in net.rEnergy)
    && (forall c, i, j :: c in net.out && 0 <= i < j < |net.out[c]| ==> net.out[c][i] != net.out[c][j])
  }

  /** A `(node, barrier)` pair of a path. */
  datatype Entry = Entry(node: int, barrier: real)

  type Path = seq<Entry>

  /** The step `search_path` appends: a reaction of the current complex and
      its product, both carrying the barrier `r.energy - cur.energy`. */
  predicate Step(net: Net, c: Entry, r: Entry, p: Entry) {
    c.node in net.cEnergy && r.node in Reactions(net, c.node)
    && r.node in net.prod && r.node in net.rEnergy
    && p.node == net.prod[r.node]
    && r.barrier == net.rEnergy[r.node] - net.cEnergy[c.node]
    && p.barrier == r.barrier
  }

  /** Complexes at even positions, reactions at odd ones, each reaction a step. */
  predicate Chain(net: Net, p: Path) {
    forall i :: 0 <= i < |p| - 2 && i % 2 == 0 ==> Step(net, p[i], p[i + 1], p[i + 2])
  }

  /** No complex occurs twice. */
  predicate Simple(p: Path) {
    forall i, j :: 0 <= i < j < |p| && i % 2 == 0 && j % 2 == 0 ==> p[i].node != p[j].node
  }

  /** The complexes of a path all lie in `s`. */
  predicate AllIn(p: Path, s: set<int>) {
    forall i :: 0 <= i < |p| && i % 2 == 0 ==> p[i].node in s
  }

  /** One run of the search: the start complexes in the order the set of
      them is iterated, the initial `seen`, the target complexes
      (`final_compl`) and `max_len`. */
  datatype Query = Query(net: Net, starts: seq<int>, seen0: set<int>, finals: set<int>, maxLen: int)

  /** A path leaving a start complex with barrier 0 whose inner complexes are
      neither initially seen nor targets. */
  predicate Walk(t: Query, p: Path) {
    |p| % 2 == 1 && p[0].node in t.starts && p[0].barrier == 0.0
    && Chain(t.net, p) && Simple(p)
    && forall i :: 0 < i < |p| - 1 && i % 2 == 0 ==> p[i].node !in t.seen0 && p[i].node !in t.finals
  }

  /** A path that may sit in the queue: its last complex is no target either. */
  predicate Open(t: Query, p: Path) {
    Walk(t, p) && (|p| > 1 ==> p[|p| - 1].node !in t.seen0 && p[|p| - 1].node !in t.finals)
  }

  /** A path the search yields: at least one step, ending in a target. */
  predicate Found(t: Query, p: Path) {
    Walk(t, p) && |p| >= 3 && p[|p| - 1].node in t.finals
  }

  /** `init_path` extended by reaction `r` of its last complex. */
  function Extension(net: Net, p: Path, r: int): (q: Path)
    requires Complete(net) && |p| > 0 && r in Reactions(net, p[|p| - 1].node)
    ensures |q| == |p| + 2 && q[..|p|] == p && q[|p|].node == r && Step(net, p[|p| - 1], q[|p|], q[|p| + 1])
  {
    var c := p[|p| - 1].node;
    var b := net.rEnergy[r] - net.cEnergy[c];
    p + [Entry(r, b), Entry(net.prod[r], b)]
  }

  lemma {:induction false} ExtendWalk(t: Query, p: Path, r: Entry, e: Entry)
    requires Open(t, p) && Step(t.net, p[|p| - 1], r, e)
    requires forall i :: 0 <= i < |p| && i % 2 == 0 ==> p[i].node != e.node
    ensures Walk(t, p + [r, e])
  {
    var q := p + [r, e];
    forall i | 0 <= i < |q| - 2 && i % 2 == 0 ensures Step(t.net, q[i], q[i + 1], q[i + 2]) {
      if i < |p| - 2 {
        assert q[i] == p[i] && q[i + 1] == p[i + 1] && q[i + 2] == p[i + 2];
      } else {
        assert i == |p| - 1;
      }
    }
    forall i, j | 0 <= i < j < |q| && i % 2 == 0 && j % 2 == 0 ensures q[i].node != q[j].node {
      if j < |p| {
        assert q[i] == p[i] && q[j] == p[j];
      } else {
        assert q[i] == p[i] && q[j] == e;
      }
    }
    forall i | 0 < i < |q| - 1 && i % 2 == 0 ensures q[i].node !in t.seen0 && q[i].node !in t.finals {
      assert q[i] == p[i];
    }
  }

  /** A heap entry `(len(path), barrier, next(n), path)`. */
  datatype Item = Item(len: int, barrier: real, counter: int, path: Path)

  /** Python's tuple order on heap entries; the counter is unique, so the
      paths themselves are never compared. */
  predicate KeyLe(a: Item, b: Item) {
    a.len < b.len || (a.len == b.len && (a.barrier < b.barrier || (a.barrier == b.barrier && a.counter <= b.counter)))
  }

  /** The entry `heappop` takes: the least one in tuple order. */
  method Smallest(q: seq<Item>) returns (i: nat)
    requires q != []
    ensures i < |q|
    ensures forall k :: 0 <= k < |q| ==> KeyLe(q[i], q[k])
  {
    i := 0;
    for k := 1 to |q|
      invariant i < k
      invariant forall m :: 0 <= m < k ==> KeyLe(q[i], q[m])
    {
      if !KeyLe(q[i], q[k]) {
        i := k;
      }
    }
  }

  // What holds of every queued entry while the search runs

  predicate QueuedOk(t: Query, q: Item, seen: set<int>, newSeen: set<int>, oldLen: int) {
    q.len == |q.path| && Open(t, q.path) && |q.path| <= Max(1, t.maxLen) && |q.path| >= oldLen
    && AllIn(q.path, seen + newSeen)
    && (|q.path| == oldLen ==> AllIn(q.path, seen))
  }

  predicate AllQueued(t: Query, q: seq<Item>, seen: set<int>, newSeen: set<int>, oldLen: int) {
    forall k :: 0 <= k < |q| ==> QueuedOk(t, q[k], seen, newSeen, oldLen)
  }

  lemma QueuedGrow(t: Query, q: seq<Item>, seen: set<int>, a: set<int>, b: set<int>, oldLen: int)
    requires a <= b && AllQueued(t, q, seen, a, oldLen)
    ensures AllQueued(t, q, seen, b, oldLen)
  {
    forall k | 0 <= k < |q| ensures QueuedOk(t, q[k], seen, b, oldLen) {
      assert seen + a <= seen + b;
    }
  }

  lemma QueuedAdvance(t: Query, q: seq<Item>, seen: set<int>, newSeen: set<int>, oldLen: int, len: int)
    requires AllQueued(t, q, seen, newSeen, oldLen)
    requires forall k :: 0 <= k < |q| ==> q[k].len >= len
    ensures AllQueued(t, q, seen + newSeen, newSeen, len)
  {
    forall k | 0 <= k < |q| ensures QueuedOk(t, q[k], seen + newSeen, newSeen, len) {
      assert seen + newSeen + newSeen == seen + newSeen;
    }
  }

  lemma QueuedRemove(t: Query, q: seq<Item>, i: nat, seen: set<int>, newSeen: set<int>, oldLen: int)
    requires i < |q| && AllQueued(t, q, seen, newSeen, oldLen)
    ensures AllQueued(t, q[..i] + q[i + 1..], seen, newSeen, oldLen)
  {
    var rest := q[..i] + q[i + 1..];
    forall k | 0 <= k < |rest| ensures QueuedOk(t, rest[k], seen, newSeen, oldLen) {
      if k < i { assert rest[k] == q[k]; } else { assert rest[k] == q[k + 1]; }
    }
  }

  lemma QueuedSnoc(t: Query, q: seq<Item>, x: Item, seen: set<int>, newSeen: set<int>, oldLen: int)
    requires AllQueued(t, q, seen, newSeen, oldLen) && QueuedOk(t, x, seen, newSeen, oldLen)
    ensures AllQueued(t, q + [x], seen, newSeen, oldLen)
  {
    forall k | 0 <= k < |q| + 1 ensures QueuedOk(t, (q + [x])[k], seen, newSeen, oldLen) {
      if k < |q| { assert (q + [x])[k] == q[k]; }
    }
  }

  // Termination: the queue's potential, each entry weighing
  // (1 + out-degree bound) ^ (levels it may still grow)

  function Pow(b: nat, e: nat): nat {
    if e == 0 then 1 else b * Pow(b, e - 1)
  }

  lemma {:induction false} PowPositive(b: nat, e: nat)
    requires b >= 1
    ensures Pow(b, e) >= 1
  {
    if e > 0 {
      PowPositive(b, e - 1);
      assert b * Pow(b, e - 1) >= Pow(b, e - 1);
    }
  }

  function Lvl(len: int, maxLen: int): nat {
    if len < maxLen then maxLen - len else 0
  }

  function Potential(q: seq<Item>, base: nat, maxLen: int): nat {
    if q == [] then 0 else Pow(base, Lvl(q[0].len, maxLen)) + Potential(q[1..], base, maxLen)
  }

  lemma {:induction false} PotentialConcat(a: seq<Item>, b: seq<Item>, base: nat, maxLen: int)
    ensures Potential(a + b, base, maxLen) == Potential(a, base, maxLen) + Potential(b, base, maxLen)
  {
    if a == [] {
      assert a + b == b;
    } else {
      assert (a + b)[1..] == a[1..] + b;
      PotentialConcat(a[1..], b, base, maxLen);
    }
  }

  lemma PotentialRemove(q: seq<Item>, i: nat, base: nat, maxLen: int)
    requires i < |q|
    ensures Potential(q, base, maxLen) == Potential(q[..i] + q[i + 1..], base, maxLen) + Pow(base, Lvl(q[i].len, maxLen))
  {
    assert q == q[..i] + ([q[i]] + q[i + 1..]);
    PotentialConcat(q[..i], [q[i]] + q[i + 1..], base, maxLen);
    PotentialConcat([q[i]], q[i + 1..], base, maxLen);
    PotentialConcat(q[..i], q[i + 1..], base, maxLen);
  }

  /** What one pushed entry weighs when the popped path has length `len`. */
  function Child(len: int, maxLen: int, base: nat): nat {
    if len + 1 < maxLen then Pow(base, maxLen - len - 2) else 0
  }

  lemma MulMono(a: nat, b: nat, c: nat)
    requires a <= b
    ensures a * c <= b * c
  {
    assert b * c == a * c + (b - a) * c;
  }

  /** `j` entries of weight `c` each. */
  function Weight(j: nat, c: nat): nat {
    if j == 0 then 0 else Weight(j - 1, c) + c
  }

  lemma {:induction false} WeightMul(j: nat, c: nat)
    ensures Weight(j, c) == j * c
  {
    if j > 0 {
      WeightMul(j - 1, c);
      MulSucc(j - 1, c);
    }
  }

  lemma MulSucc(a: int, b: int)
    ensures (a + 1) * b == a * b + b
  {
  }

  lemma Budget(bound: nat, m: nat)
    ensures bound * Pow(bound + 1, m) < Pow(bound + 1, m + 2)
  {
    PowPositive(bound + 1, m);
    var p := Pow(bound + 1, m);
    var q := Pow(bound + 1, m + 1);
    assert q == (bound + 1) * p;
    assert Pow(bound + 1, m + 2) == (bound + 1) * q;
    assert (bound + 1) * p == bound * p + p;
    MulMono(1, bound + 1, q);
  }

  /** Up to `bound` children weigh less than their parent. */
  lemma Shrinks(bound: nat, n: nat, len: int, maxLen: int)
    requires n <= bound
    ensures n * Child(len, maxLen, bound + 1) < Pow(bound + 1, Lvl(len, maxLen))
  {
    PowPositive(bound + 1, Lvl(len, maxLen));
    var c := Child(len, maxLen, bound + 1);
    MulMono(n, bound, c);
    if len + 1 < maxLen {
      var m := maxLen - len - 2;
      assert Lvl(len, maxLen) == m + 2;
      Budget(bound, m);
    }
  }

  lemma {:induction false} DistinctWithin(s: seq<int>, keys: set<int>)
    requires forall i, j :: 0 <= i < j < |s| ==> s[i] != s[j]
    requires forall i :: 0 <= i < |s| ==> s[i] in keys
    ensures |s| <= |keys|
  {
    if s != [] {
      var rest := keys - {s[0]};
      assert |rest| == |keys| - 1;
      forall i | 0 <= i < |s| - 1 ensures s[1..][i] in rest {
        assert s[1..][i] == s[i + 1];
      }
      DistinctWithin(s[1..], rest);
    }
  }

  /** No complex has more reactions than there are reactions with a product. */
  /** Popping an entry and queueing at most `deg` children of it, with `deg`
      no more than the number of reactions, lowers the potential. */
  lemma PopFalls(queue: seq<Item>, i: nat, queue2: seq<Item>, bound: nat, deg: nat, maxLen: int)
    requires i < |queue| && deg <= bound
    requires Potential(queue2, bound + 1, maxLen) <=
      Potential(queue[..i] + queue[i + 1..], bound + 1, maxLen) + deg * Child(queue[i].len, maxLen, bound + 1)
    ensures Potential(queue2, bound + 1, maxLen) < Potential(queue, bound + 1, maxLen)
  {
    PotentialRemove(queue, i, bound + 1, maxLen);
    Shrinks(bound, deg, queue[i].len, maxLen);
  }

  lemma DegreeBound(net: Net, c: int)
    requires Complete(net)
    ensures |Reactions(net, c)| <= |net.prod.Keys|
  {
    if c in net.out {
      var rs := net.out[c];
      DistinctWithin(rs, net.prod.Keys);
    }
  }

  lemma ReactionsComplete(net: Net, c: int)
    requires Complete(net)
    ensures Reactions(net, c) != [] ==> c in net.cEnergy
    ensures forall m :: 0 <= m < |Reactions(net, c)| ==> Reactions(net, c)[m] in net.prod && Reactions(net, c)[m] in net.rEnergy
  {
    if c in net.out {
      assert Reactions(net, c) == net.out[c];
    }
  }

  /** Every one-step path from start `x` into a target has been yielded. */
  predicate DirectDone(t: Query, x: int, paths: seq<Path>)
    requires Complete(t.net)
  {
    forall r :: r in Reactions(t.net, x) && t.net.prod[r] in t.finals ==> Extension(t.net, [Entry(x, 0.0)], r) in paths
  }

  /** Each start has either had its one-step paths yielded or is still queued. */
  predicate StartsPending(t: Query, queue: seq<Item>, paths: seq<Path>)
    requires Complete(t.net)
  {
    forall x :: x in t.starts ==>
      DirectDone(t, x, paths) || exists k :: 0 <= k < |queue| && queue[k].path == [Entry(x, 0.0)]
  }

  lemma StartsKept(t: Query, queue: seq<Item>, i: nat, queue2: seq<Item>, paths: seq<Path>, paths2: seq<Path>)
    requires Complete(t.net) && i < |queue| && |queue[i].path| > 0
    requires |queue2| >= |queue| - 1 && queue2[..|queue| - 1] == queue[..i] + queue[i + 1..]
    requires |paths2| >= |paths| && paths2[..|paths|] == paths
    requires forall r :: r in Reactions(t.net, queue[i].path[|queue[i].path| - 1].node) && t.net.prod[r] in t.finals ==>
      Extension(t.net, queue[i].path, r) in paths2
    requires StartsPending(t, queue, paths)
    ensures StartsPending(t, queue2, paths2)
  {
    var rest := queue[..i] + queue[i + 1..];
    forall x | x in t.starts
      ensures DirectDone(t, x, paths2) || exists k :: 0 <= k < |queue2| && queue2[k].path == [Entry(x, 0.0)]
    {
      if DirectDone(t, x, paths) {
        forall r | r in Reactions(t.net, x) && t.net.prod[r] in t.finals
          ensures Extension(t.net, [Entry(x, 0.0)], r) in paths2
        {
          var e := Extension(t.net, [Entry(x, 0.0)], r);
          var m :| 0 <= m < |paths| && paths[m] == e;
          assert paths2[m] == paths[m];
        }
      } else {
        var k :| 0 <= k < |queue| && queue[k].path == [Entry(x, 0.0)];
        if k == i {
          assert queue[i].path == [Entry(x, 0.0)];
        } else if k < i {
          assert rest[k] == queue[k] && queue2[k] == rest[k];
        } else {
          assert rest[k - 1] == queue[k] && queue2[k - 1] == rest[k - 1];
        }
      }
    }
  }

  /** A reaction of the popped path's last complex into a target makes a
      path the search may yield. */
  lemma FoundStep(t: Query, p: Path, r: int)
    requires Complete(t.net) && Open(t, p) && |p| > 0
    requires forall x :: x in t.starts ==> x in t.seen0
    requires forall x :: x in t.finals ==> x !in t.seen0
    requires r in Reactions(t.net, p[|p| - 1].node) && t.net.prod[r] in t.finals
    ensures Found(t, Extension(t.net, p, r)) && |Extension(t.net, p, r)| == |p| + 2
  {
    var path := Extension(t.net, p, r);
    var prod := t.net.prod[r];
    forall i | 0 <= i < |p| && i % 2 == 0 ensures p[i].node != prod {
      if i > 0 && i < |p| - 1 {
      } else if i > 0 {
        assert i == |p| - 1;
      } else {
        assert p[0].node in t.seen0;
      }
    }
    assert path == p + [path[|p|], path[|p| + 1]];
    ExtendWalk(t, p, path[|p|], path[|p| + 1]);
  }

  /** A reaction of the popped path's last complex into a complex not yet
      seen, with the length cap not reached, makes an entry fit for the
      queue once its product is added to `grown`; it weighs one child. */
  lemma QueueStep(t: Query, p: Path, r: int, seen: set<int>, grown: set<int>, n: int)
    requires Complete(t.net) && Open(t, p) && |p| > 0 && AllIn(p, seen) && t.seen0 <= seen
    requires r in Reactions(t.net, p[|p| - 1].node)
    requires t.net.prod[r] !in t.finals && t.net.prod[r] !in seen && t.net.prod[r] in grown
    requires |p| + 1 < t.maxLen
    ensures var path := Extension(t.net, p, r);
      QueuedOk(t, Item(|path|, path[|p|].barrier, n, path), seen, grown, |p|)
  {
    var path := Extension(t.net, p, r);
    assert path == p + [path[|p|], path[|p| + 1]];
    ExtendWalk(t, p, path[|p|], path[|p| + 1]);
    assert AllIn(path, seen + grown) by {
      forall i | 0 <= i < |path| && i % 2 == 0 ensures path[i].node in seen + grown {
        if i < |p| { assert path[i] == p[i]; }
      }
    }
  }

  /** The last complex of an entry's path. */
  function End(q: Item): int {
    if q.path == [] then 0 else q.path[|q.path| - 1].node
  }

  /** The complexes a sequence of entries ends in: what `new_seen` gains. */
  function Lasts(qs: seq<Item>): set<int> {
    if qs == [] then {} else Lasts(qs[..|qs| - 1]) + {End(qs[|qs| - 1])}
  }

  lemma {:induction false} LastsConcat(a: seq<Item>, b: seq<Item>)
    ensures Lasts(a + b) == Lasts(a) + Lasts(b)
    decreases |b|
  {
    if b == [] {
      assert a + b == a;
    } else {
      assert (a + b)[..|a + b| - 1] == a + b[..|b| - 1];
      LastsConcat(a, b[..|b| - 1]);
    }
  }

  /** Every complex in `Lasts(qs)` ends one of the entries. */
  lemma {:induction false} LastsEnd(qs: seq<Item>, x: int)
    requires x in Lasts(qs)
    ensures exists k :: 0 <= k < |qs| && End(qs[k]) == x
    decreases |qs|
  {
    if End(qs[|qs| - 1]) != x {
      var init := qs[..|qs| - 1];
      LastsEnd(init, x);
      var k :| 0 <= k < |init| && End(init[k]) == x;
      assert qs[k] == init[k];
    }
  }

  lemma {:induction false} LastsHas(qs: seq<Item>, k: nat)
    requires k < |qs|
    ensures End(qs[k]) in Lasts(qs)
    decreases |qs|
  {
    if k < |qs| - 1 {
      var init := qs[..|qs| - 1];
      LastsHas(init, k);
      assert qs[k] == init[k];
    }
  }

  /** `elif cur_len and prod not in seen`: reaction `r` of the popped path's
      last complex is queued when its product is neither a target nor seen
      and the path may still grow by one step. */
  predicate Queues(t: Query, p: Path, r: int, seen: set<int>) {
    r in t.net.prod && t.net.prod[r] !in t.finals && |p| + 1 < t.maxLen && t.net.prod[r] !in seen
  }

  /** The heap entry `(len(path), barrier, next(n), path)` pushed for reaction `r`. */
  function Pushed(t: Query, p: Path, r: int, n: int): (q: Item)
    requires Complete(t.net) && |p| > 0 && r in Reactions(t.net, p[|p| - 1].node)
    ensures q.len == |q.path| == |p| + 2 && q.counter == n && q.path == Extension(t.net, p, r)
    ensures End(q) == t.net.prod[r]
  {
    var path := Extension(t.net, p, r);
    Item(|path|, path[|p|].barrier, n, path)
  }

  /** The reactions of the popped path's last complex, as `cur.reactant.all()` lists them. */
  function Out(t: Query, p: Path): seq<int>
    requires |p| > 0
  {
    Reactions(t.net, p[|p| - 1].node)
  }

  /** The entries pushed by the first `j` passes of the loop over
      `cur.reactant.all()`, counters from `n` on. */
  function Children(t: Query, p: Path, seen: set<int>, n: int, j: nat): (kids: seq<Item>)
    requires Complete(t.net) && |p| > 0 && j <= |Out(t, p)|
    ensures |kids| <= j
  {
    if j == 0 then []
    else
      var before := Children(t, p, seen, n, j - 1);
      var r := Out(t, p)[j - 1];
      before + if Queues(t, p, r, seen) then [Pushed(t, p, r, n + |before|)] else []
  }

  /** The paths yielded by the first `j` passes of that loop. */
  function Yields(t: Query, p: Path, j: nat): seq<Path>
    requires Complete(t.net) && |p| > 0 && j <= |Out(t, p)|
  {
    if j == 0 then []
    else
      var r := Out(t, p)[j - 1];
      ReactionsComplete(t.net, p[|p| - 1].node);
      Yields(t, p, j - 1) + if t.net.prod[r] in t.finals then [Extension(t.net, p, r)] else []
  }

  /** Some entry of `qs` holds `path`. */
  predicate Holds(qs: seq<Item>, path: Path) {
    exists k :: 0 <= k < |qs| && qs[k].path == path
  }

  /** A child is pushed for every reaction that queues. */
  lemma {:induction false} ChildrenCover(t: Query, p: Path, seen: set<int>, n: int, j: nat)
    requires Complete(t.net) && |p| > 0 && j <= |Out(t, p)|
    ensures forall m :: 0 <= m < j && Queues(t, p, Out(t, p)[m], seen) ==> Holds(Children(t, p, seen, n, j), Extension(t.net, p, Out(t, p)[m]))
  {
    if j > 0 {
      var before := Children(t, p, seen, n, j - 1);
      var r := Out(t, p)[j - 1];
      var tail := if Queues(t, p, r, seen) then [Pushed(t, p, r, n + |before|)] else [];
      var kids := Children(t, p, seen, n, j);
      assert kids == before + tail;
      ChildrenCover(t, p, seen, n, j - 1);
      forall m | 0 <= m < j && Queues(t, p, Out(t, p)[m], seen) ensures Holds(kids, Extension(t.net, p, Out(t, p)[m])) {
        if m < j - 1 {
          var k :| 0 <= k < |before| && before[k].path == Extension(t.net, p, Out(t, p)[m]);
          assert kids[k] == before[k];
        } else {
          assert kids[|before|] == tail[0];
        }
      }
    }
  }

  /** `q` is the entry pushed for one of the first `j` reactions, one that queues. */
  predicate PushedFor(t: Query, p: Path, seen: set<int>, j: nat, q: Item)
    requires Complete(t.net) && |p| > 0 && j <= |Out(t, p)|
  {
    exists m :: 0 <= m < j && Queues(t, p, Out(t, p)[m], seen) && q == Pushed(t, p, Out(t, p)[m], q.counter)
  }

  /** Every child pushed is one of a reaction that queues. */
  lemma {:induction false} ChildrenSound(t: Query, p: Path, seen: set<int>, n: int, j: nat)
    requires Complete(t.net) && |p| > 0 && j <= |Out(t, p)|
    ensures forall k :: 0 <= k < |Children(t, p, seen, n, j)| ==> PushedFor(t, p, seen, j, Children(t, p, seen, n, j)[k])
  {
    if j > 0 {
      var before := Children(t, p, seen, n, j - 1);
      var r := Out(t, p)[j - 1];
      var tail := if Queues(t, p, r, seen) then [Pushed(t, p, r, n + |before|)] else [];
      var kids := Children(t, p, seen, n, j);
      assert kids == before + tail;
      ChildrenSound(t, p, seen, n, j - 1);
      forall k | 0 <= k < |kids| ensures PushedFor(t, p, seen, j, kids[k]) {
        if k < |before| {
          assert PushedFor(t, p, seen, j - 1, before[k]);
          var m :| 0 <= m < j - 1 && Queues(t, p, Out(t, p)[m], seen) && before[k] == Pushed(t, p, Out(t, p)[m], before[k].counter);
          assert kids[k] == before[k];
        } else {
          assert kids[k] == tail[0] && Queues(t, p, r, seen);
        }
      }
    }
  }

  /** A path is yielded for every reaction into a target. */
  lemma {:induction false} YieldsCover(t: Query, p: Path, j: nat)
    requires Complete(t.net) && |p| > 0 && j <= |Out(t, p)|
    ensures forall m :: 0 <= m < j && t.net.prod[Out(t, p)[m]] in t.finals ==> Extension(t.net, p, Out(t, p)[m]) in Yields(t, p, j)
  {
    ReactionsComplete(t.net, p[|p| - 1].node);
    if j > 0 {
      var before := Yields(t, p, j - 1);
      var ys := Yields(t, p, j);
      YieldsCover(t, p, j - 1);
      assert ys[..|before|] == before;
      forall m | 0 <= m < j && t.net.prod[Out(t, p)[m]] in t.finals ensures Extension(t.net, p, Out(t, p)[m]) in ys {
        if m < j - 1 {
          var k :| 0 <= k < |before| && before[k] == Extension(t.net, p, Out(t, p)[m]);
          assert ys[k] == before[k];
        } else {
          assert ys[|before|] == Extension(t.net, p, Out(t, p)[m]);
        }
      }
    }
  }

  /** `path` is the step of one of the first `j` reactions, one into a target. */
  predicate YieldedFor(t: Query, p: Path, j: nat, path: Path)
    requires Complete(t.net) && |p| > 0 && j <= |Out(t, p)|
  {
    ReactionsComplete(t.net, p[|p| - 1].node);
    exists m :: 0 <= m < j && t.net.prod[Out(t, p)[m]] in t.finals && path == Extension(t.net, p, Out(t, p)[m])
  }

  /** Every path yielded is the step of a reaction into a target. */
  lemma {:induction false} YieldsSound(t: Query, p: Path, j: nat)
    requires Complete(t.net) && |p| > 0 && j <= |Out(t, p)|
    ensures forall k :: 0 <= k < |Yields(t, p, j)| ==> YieldedFor(t, p, j, Yields(t, p, j)[k])
  {
    ReactionsComplete(t.net, p[|p| - 1].node);
    if j > 0 {
      var before := Yields(t, p, j - 1);
      var ys := Yields(t, p, j);
      YieldsSound(t, p, j - 1);
      assert ys[..|before|] == before;
      forall k | 0 <= k < |ys| ensures YieldedFor(t, p, j, ys[k]) {
        if k < |before| {
          assert YieldedFor(t, p, j - 1, before[k]);
          var m :| 0 <= m < j - 1 && t.net.prod[Out(t, p)[m]] in t.finals && before[k] == Extension(t.net, p, Out(t, p)[m]);
          assert ys[k] == before[k];
        } else {
          assert k == |before| && t.net.prod[Out(t, p)[j - 1]] in t.finals;
          assert ys[k] == Extension(t.net, p, Out(t, p)[j - 1]);
        }
      }
    }
  }

  /** One pass of the `for i, r in enumerate(cur.reactant.all())` loop:
      reaction `r` of the popped path's last complex is yielded when its
      product is a target (`FoundStep` says the path is found), pushed when
      the product is new and the length cap allows it (`QueueStep` says the
      entry fits the queue), and skipped otherwise. */
  method ExpandReaction(t: Query, p: Path, r: int, seen: set<int>, newSeen: set<int>, queue: seq<Item>, paths: seq<Path>, n: int)
    returns (newSeen2: set<int>, queue2: seq<Item>, paths2: seq<Path>, n2: int, ghost qs: seq<Item>, ghost ps: seq<Path>)
    requires Complete(t.net) && |p| > 0
    requires r in Reactions(t.net, p[|p| - 1].node)
    ensures ps == if t.net.prod[r] in t.finals then [Extension(t.net, p, r)] else []
    ensures qs == if Queues(t, p, r, seen) then [Pushed(t, p, r, n)] else []
    ensures newSeen2 == newSeen + Lasts(qs) && n2 == n + |qs|
    ensures queue2 == queue + qs && paths2 == paths + ps
  {
    ReactionsComplete(t.net, p[|p| - 1].node);
    var barrier := t.net.rEnergy[r] - t.net.cEnergy[p[|p| - 1].node];
    var prod := t.net.prod[r];
    var path := p + [Entry(r, barrier), Entry(prod, barrier)];
    assert path == Extension(t.net, p, r);
    newSeen2, queue2, paths2, n2 := newSeen, queue, paths, n;
    qs, ps := [], [];
    if prod in t.finals {
      paths2 := paths + [path];
      ps := [path];
    } else if |p| + 1 < t.maxLen && prod !in seen {
      var next := Item(|path|, barrier, n, path);
      assert next == Pushed(t, p, r, n);
      assert Lasts([next]) == {prod};
      newSeen2 := newSeen + {prod};
      queue2 := queue + [next];
      qs := [next];
      n2 := n + 1;
    }
  }

  /** The entries pushed for a popped path are fit for the queue once
      `new_seen` holds their complexes, and weigh one child each. */
  lemma ChildrenQueued(t: Query, p: Path, seen: set<int>, grown: set<int>, n: int, j: nat)
    requires Complete(t.net) && |p| > 0 && j <= |Out(t, p)| && Open(t, p) && AllIn(p, seen) && t.seen0 <= seen
    requires Lasts(Children(t, p, seen, n, j)) <= grown
    ensures AllQueued(t, Children(t, p, seen, n, j), seen, grown, |p|)
  {
    var kids := Children(t, p, seen, n, j);
    ChildrenSound(t, p, seen, n, j);
    forall k | 0 <= k < |kids| ensures QueuedOk(t, kids[k], seen, grown, |p|) {
      assert PushedFor(t, p, seen, j, kids[k]);
      var m :| 0 <= m < j && Queues(t, p, Out(t, p)[m], seen) && kids[k] == Pushed(t, p, Out(t, p)[m], kids[k].counter);
      LastsHas(kids, k);
      QueueStep(t, p, Out(t, p)[m], seen, grown, kids[k].counter);
    }
  }

  /** The children of a popped path weigh at most one `Child` per reaction. */
  lemma {:induction false} ChildrenPotential(t: Query, p: Path, seen: set<int>, n: int, base: nat, j: nat)
    requires Complete(t.net) && |p| > 0 && j <= |Out(t, p)|
    ensures Potential(Children(t, p, seen, n, j), base, t.maxLen) <= Weight(j, Child(|p|, t.maxLen, base))
  {
    if j > 0 {
      var before := Children(t, p, seen, n, j - 1);
      var r := Out(t, p)[j - 1];
      var tail := if Queues(t, p, r, seen) then [Pushed(t, p, r, n + |before|)] else [];
      assert Children(t, p, seen, n, j) == before + tail;
      assert Potential(tail, base, t.maxLen) <= Child(|p|, t.maxLen, base) by {
        if Queues(t, p, r, seen) {
          assert tail[1..] == [];
        }
      }
      ChildrenPotential(t, p, seen, n, base, j - 1);
      PotentialConcat(before, tail, base, t.maxLen);
    }
  }

  /** Each child is one step longer than the popped path. */
  lemma {:induction false} ChildrenLength(t: Query, p: Path, seen: set<int>, n: int, j: nat)
    requires Complete(t.net) && |p| > 0 && j <= |Out(t, p)|
    ensures forall k :: 0 <= k < |Children(t, p, seen, n, j)| ==> |Children(t, p, seen, n, j)[k].path| == |p| + 2
  {
    if j > 0 {
      var before := Children(t, p, seen, n, j - 1);
      var r := Out(t, p)[j - 1];
      var tail := if Queues(t, p, r, seen) then [Pushed(t, p, r, n + |before|)] else [];
      assert Children(t, p, seen, n, j) == before + tail;
      ChildrenLength(t, p, seen, n, j - 1);
    }
  }

  /** Every path yielded for a popped path is found, one step longer. */
  lemma {:induction false} YieldsFound(t: Query, p: Path, j: nat)
    requires Complete(t.net) && |p| > 0 && j <= |Out(t, p)| && Open(t, p)
    requires forall x :: x in t.starts ==> x in t.seen0
    requires forall x :: x in t.finals ==> x !in t.seen0
    ensures forall k :: 0 <= k < |Yields(t, p, j)| ==> Found(t, Yields(t, p, j)[k]) && |Yields(t, p, j)[k]| == |p| + 2
  {
    if j > 0 {
      ReactionsComplete(t.net, p[|p| - 1].node);
      var before := Yields(t, p, j - 1);
      var r := Out(t, p)[j - 1];
      var tail := if t.net.prod[r] in t.finals then [Extension(t.net, p, r)] else [];
      assert Yields(t, p, j) == before + tail;
      YieldsFound(t, p, j - 1);
      if t.net.prod[r] in t.finals {
        FoundStep(t, p, r);
      }
    }
  }

  lemma QueuedConcat(t: Query, a: seq<Item>, b: seq<Item>, seen: set<int>, newSeen: set<int>, oldLen: int)
    requires AllQueued(t, a, seen, newSeen, oldLen) && AllQueued(t, b, seen, newSeen, oldLen)
    ensures AllQueued(t, a + b, seen, newSeen, oldLen)
  {
    forall k | 0 <= k < |a + b| ensures QueuedOk(t, (a + b)[k], seen, newSeen, oldLen) {
      if k < |a| { assert (a + b)[k] == a[k]; } else { assert (a + b)[k] == b[k - |a|]; }
    }
  }

  /** What pushing `Children` and yielding `Yields` for a popped path does
      to the queue and to the paths yielded so far. */
  lemma Expanded(t: Query, item: Item, seen: set<int>, newSeen: set<int>, queue: seq<Item>, paths: seq<Path>, n: int, base: nat)
    requires Complete(t.net)
    requires forall x :: x in t.starts ==> x in t.seen0
    requires forall x :: x in t.finals ==> x !in t.seen0
    requires t.seen0 <= seen
    requires QueuedOk(t, item, seen, newSeen, |item.path|) && AllIn(item.path, seen)
    requires AllQueued(t, queue, seen, newSeen, |item.path|)
    ensures var p := item.path;
      var kids := Children(t, p, seen, n, |Out(t, p)|);
      var ys := Yields(t, p, |Out(t, p)|);
      AllQueued(t, queue + kids, seen, newSeen + Lasts(kids), |p|)
      && (forall k :: 0 <= k < |ys| ==> Found(t, ys[k]) && |ys[k]| == |p| + 2)
      && (forall r :: r in Out(t, p) && t.net.prod[r] in t.finals ==> Extension(t.net, p, r) in ys)
      && Potential(queue + kids, base, t.maxLen) <= Potential(queue, base, t.maxLen) + |Out(t, p)| * Child(|p|, t.maxLen, base)
  {
    var p := item.path;
    var j := |Out(t, p)|;
    var kids := Children(t, p, seen, n, j);
    var grown := newSeen + Lasts(kids);
    ChildrenQueued(t, p, seen, grown, n, j);
    ChildrenPotential(t, p, seen, n, base, j);
    WeightMul(j, Child(|p|, t.maxLen, base));
    QueuedGrow(t, queue, seen, newSeen, grown, |p|);
    QueuedConcat(t, queue, kids, seen, grown, |p|);
    PotentialConcat(queue, kids, base, t.maxLen);
    YieldsFound(t, p, j);
    YieldsCover(t, p, j);
    forall r | r in Out(t, p) && t.net.prod[r] in t.finals ensures Extension(t.net, p, r) in Yields(t, p, j) {
      var m :| 0 <= m < j && Out(t, p)[m] == r;
    }
  }

  /** The `for i, r in enumerate(cur.reactant.all())` loop for one popped
      path: it pushes `Children` and yields `Yields`; so every reaction of
      its last complex into a target is yielded, and the queue grows by at
      most one child per reaction. */
  method Expand(t: Query, item: Item, seen: set<int>, newSeen: set<int>, queue: seq<Item>, paths: seq<Path>, n: int)
    returns (newSeen2: set<int>, queue2: seq<Item>, paths2: seq<Path>, n2: int)
    requires Complete(t.net)
    requires forall x :: x in t.starts ==> x in t.seen0
    requires forall x :: x in t.finals ==> x !in t.seen0
    requires t.seen0 <= seen
    requires QueuedOk(t, item, seen, newSeen, |item.path|) && AllIn(item.path, seen)
    requires AllQueued(t, queue, seen, newSeen, |item.path|)
    ensures var kids := Children(t, item.path, seen, n, |Out(t, item.path)|);
      queue2 == queue + kids && paths2 == paths + Yields(t, item.path, |Out(t, item.path)|)
      && newSeen2 == newSeen + Lasts(kids) && n2 == n + |kids|
  {
    var p := item.path;
    var rs := Reactions(t.net, p[|p| - 1].node);
    assert rs == Out(t, p);
    ghost var added: seq<Item> := [];
    ghost var found: seq<Path> := [];
    newSeen2, queue2, paths2, n2 := newSeen, queue, paths, n;
    for j := 0 to |rs|
      invariant added == Children(t, p, seen, n, j) && found == Yields(t, p, j)
      invariant newSeen2 == newSeen + Lasts(added) && n2 == n + |added|
      invariant queue2 == queue + added && paths2 == paths + found
    {
      ghost var qs, ps;
      newSeen2, queue2, paths2, n2, qs, ps := ExpandReaction(t, p, rs[j], seen, newSeen2, queue2, paths2, n2);
      LastsConcat(added, qs);
      Regroup(queue, added, qs);
      Regroup(paths, found, ps);
      added, found := added + qs, found + ps;
    }
  }

  /** Popping the least entry: every other entry is at least as long, and
      once `seen` has absorbed `new_seen` on a change of length, every
      complex of the popped path is in `seen`. */
  lemma Popped(t: Query, queue: seq<Item>, i: nat, seen: set<int>, newSeen: set<int>, oldLen: int)
    requires i < |queue| && AllQueued(t, queue, seen, newSeen, oldLen)
    requires forall k :: 0 <= k < |queue| ==> KeyLe(queue[i], queue[k])
    ensures var len := |queue[i].path|;
      var seen2 := if len != oldLen then seen + newSeen else seen;
      AllQueued(t, queue[..i] + queue[i + 1..], seen2, newSeen, len)
      && QueuedOk(t, queue[i], seen2, newSeen, len) && AllIn(queue[i].path, seen2) && oldLen <= len
  {
    var rest := queue[..i] + queue[i + 1..];
    var len := |queue[i].path|;
    assert QueuedOk(t, queue[i], seen, newSeen, oldLen);
    QueuedRemove(t, queue, i, seen, newSeen, oldLen);
    if len != oldLen {
      forall k | 0 <= k < |rest| ensures rest[k].len >= len {
        if k < i { assert rest[k] == queue[k]; } else { assert rest[k] == queue[k + 1]; }
      }
      QueuedAdvance(t, rest, seen, newSeen, oldLen, len);
      assert seen + newSeen + newSeen == seen + newSeen;
    }
  }

  /** The paths yielded so far: each one found, within the length bound, and
      no longer than the current length plus one step; lengths never decrease. */
  predicate Yielded(t: Query, paths: seq<Path>, oldLen: int) {
    (forall k :: 0 <= k < |paths| ==> Found(t, paths[k]) && |paths[k]| <= Max(1, t.maxLen) + 2 && |paths[k]| <= oldLen + 2)
    && (forall k, l :: 0 <= k < l < |paths| ==> |paths[k]| <= |paths[l]|)
  }

  lemma YieldedStep(t: Query, paths: seq<Path>, paths2: seq<Path>, oldLen: int, len: int)
    requires Yielded(t, paths, oldLen) && oldLen <= len <= Max(1, t.maxLen)
    requires |paths2| >= |paths| && paths2[..|paths|] == paths
    requires forall k :: |paths| <= k < |paths2| ==> Found(t, paths2[k]) && |paths2[k]| == len + 2
    ensures Yielded(t, paths2, len)
  {
    forall k | 0 <= k < |paths| ensures paths2[k] == paths[k] {
      assert paths2[..|paths|][k] == paths[k];
    }
  }

  // Completeness: the search yields something whenever a path it could
  // yield exists, because every complex such a path passes through is
  // eventually expanded by a path no longer than the prefix up to it

  /** Entry `q` holds a path of at most `len` entries ending in complex `x`. */
  predicate Reaches(q: Item, x: int, len: int) {
    0 < |q.path| <= len && End(q) == x
  }

  /** What expanding an entry records: the complex it ends in and its length. */
  function Mark(q: Item): (int, int) {
    (End(q), |q.path|)
  }

  /** Complex `x` has been reached by a path of at most `len` entries: one is
      still queued, or one has been expanded. */
  ghost predicate Reached(queue: seq<Item>, done: set<(int, int)>, x: int, len: int) {
    (exists k :: 0 <= k < |queue| && Reaches(queue[k], x, len))
    || (exists d :: d in done && d.0 == x && d.1 <= len)
  }

  /** Expanding complex `c` by a path of `len` entries yielded a path for a
      reaction into a target, and reached, by `len + 2` entries, every other
      product not initially seen when the cap allowed one more step. */
  ghost predicate Spread(t: Query, queue: seq<Item>, done: set<(int, int)>, paths: seq<Path>, c: int, len: int) {
    forall r :: r in Reactions(t.net, c) && r in t.net.prod ==>
      (t.net.prod[r] in t.finals ==> paths != [])
      && (t.net.prod[r] !in t.finals && t.net.prod[r] !in t.seen0 && len + 2 <= t.maxLen ==> Reached(queue, done, t.net.prod[r], len + 2))
  }

  /** What the `while queue` loop keeps, with `done` the expansions so far:
      each spread, each start reached by itself, each complex absorbed into
      `seen` reached within the current length, each one in `new_seen`
      within one step more. */
  ghost predicate Frontier(t: Query, queue: seq<Item>, done: set<(int, int)>, seen: set<int>, newSeen: set<int>, oldLen: int, paths: seq<Path>) {
    oldLen % 2 == 1
    && (forall d :: d in done ==> Spread(t, queue, done, paths, d.0, d.1))
    && (forall x :: x in t.starts ==> Reached(queue, done, x, 1))
    && (forall x :: x in seen ==> x in t.seen0 || Reached(queue, done, x, oldLen))
    && (forall x :: x in newSeen ==> Reached(queue, done, x, oldLen + 2))
  }

  /** Popping entry `i` and pushing `kids` loses no complex reached: the
      popped one is now expanded. */
  lemma ReachedKept(queue: seq<Item>, i: nat, kids: seq<Item>, done: set<(int, int)>, x: int, len: int, len2: int)
    requires i < |queue| && len <= len2 && Reached(queue, done, x, len)
    ensures Reached(queue[..i] + queue[i + 1..] + kids, done + {Mark(queue[i])}, x, len2)
  {
    var queue2 := queue[..i] + queue[i + 1..] + kids;
    var done2 := done + {Mark(queue[i])};
    if exists k :: 0 <= k < |queue| && Reaches(queue[k], x, len) {
      var k :| 0 <= k < |queue| && Reaches(queue[k], x, len);
      if k < i {
        assert queue2[k] == queue[k] && Reaches(queue2[k], x, len2);
      } else if k > i {
        assert queue2[k - 1] == queue[k] && Reaches(queue2[k - 1], x, len2);
      } else {
        assert Mark(queue[i]) in done2;
      }
    } else {
      var d :| d in done && d.0 == x && d.1 <= len;
      assert d in done2;
    }
  }

  /** A pushed entry reaches the complex it ends in. */
  lemma ReachedPushed(rest: seq<Item>, kids: seq<Item>, done: set<(int, int)>, k: nat, len: int)
    requires k < |kids| && 0 < |kids[k].path| <= len
    ensures Reached(rest + kids, done, End(kids[k]), len)
  {
    assert (rest + kids)[|rest| + k] == kids[k];
  }

  /** The `seen` and `new_seen` parts of `Frontier` after a pop. */
  lemma FrontierSeen(t: Query, queue: seq<Item>, i: nat, done: set<(int, int)>, seen: set<int>, newSeen: set<int>, oldLen: int, paths: seq<Path>,
                     seen2: set<int>, kids: seq<Item>)
    requires Frontier(t, queue, done, seen, newSeen, oldLen, paths)
    requires i < |queue| && |queue[i].path| % 2 == 1 && oldLen <= |queue[i].path|
    requires seen2 == if |queue[i].path| != oldLen then seen + newSeen else seen
    requires forall k :: 0 <= k < |kids| ==> |kids[k].path| == |queue[i].path| + 2
    ensures var queue2 := queue[..i] + queue[i + 1..] + kids;
      var done2 := done + {Mark(queue[i])};
      var len := |queue[i].path|;
      (forall x :: x in t.starts ==> Reached(queue2, done2, x, 1))
      && (forall x :: x in seen2 ==> x in t.seen0 || Reached(queue2, done2, x, len))
      && (forall x :: x in newSeen + Lasts(kids) ==> Reached(queue2, done2, x, len + 2))
  {
    var queue2 := queue[..i] + queue[i + 1..] + kids;
    var len := |queue[i].path|;
    forall x | x in t.starts ensures Reached(queue2, done + {Mark(queue[i])}, x, 1) {
      ReachedKept(queue, i, kids, done, x, 1, 1);
    }
    forall x | x in seen2 ensures x in t.seen0 || Reached(queue2, done + {Mark(queue[i])}, x, len) {
      if x in seen {
        if x !in t.seen0 {
          ReachedKept(queue, i, kids, done, x, oldLen, len);
        }
      } else {
        assert x in newSeen && len != oldLen;
        ReachedKept(queue, i, kids, done, x, oldLen + 2, len);
      }
    }
    forall x | x in newSeen + Lasts(kids) ensures Reached(queue2, done + {Mark(queue[i])}, x, len + 2) {
      if x in newSeen {
        ReachedKept(queue, i, kids, done, x, oldLen + 2, len + 2);
      } else {
        LastsEnd(kids, x);
        var k :| 0 <= k < |kids| && End(kids[k]) == x;
        ReachedPushed(queue[..i] + queue[i + 1..], kids, done + {Mark(queue[i])}, k, len + 2);
      }
    }
  }

  /** The popped entry's complex spreads once every reaction of it into a
      target has been yielded and every product it queues is pushed. */
  lemma SpreadPopped(t: Query, queue: seq<Item>, i: nat, done2: set<(int, int)>, seen2: set<int>, paths2: seq<Path>, kids: seq<Item>)
    requires Complete(t.net) && i < |queue| && |queue[i].path| > 0
    requires forall x :: x in seen2 ==> x in t.seen0 || Reached(queue[..i] + queue[i + 1..] + kids, done2, x, |queue[i].path|)
    requires forall r :: r in Out(t, queue[i].path) && t.net.prod[r] in t.finals ==> Extension(t.net, queue[i].path, r) in paths2
    requires forall m :: 0 <= m < |Out(t, queue[i].path)| && Queues(t, queue[i].path, Out(t, queue[i].path)[m], seen2) ==>
      Holds(kids, Extension(t.net, queue[i].path, Out(t, queue[i].path)[m]))
    ensures Spread(t, queue[..i] + queue[i + 1..] + kids, done2, paths2, Mark(queue[i]).0, Mark(queue[i]).1)
  {
    var p := queue[i].path;
    var queue2 := queue[..i] + queue[i + 1..] + kids;
    var len := |p|;
    forall r | r in Reactions(t.net, End(queue[i])) && r in t.net.prod
      ensures (t.net.prod[r] in t.finals ==> paths2 != [])
        && (t.net.prod[r] !in t.finals && t.net.prod[r] !in t.seen0 && len + 2 <= t.maxLen ==> Reached(queue2, done2, t.net.prod[r], len + 2))
    {
      var x := t.net.prod[r];
      if x !in t.finals && x !in t.seen0 && len + 2 <= t.maxLen {
        if x in seen2 {
          var y :| y in seen2 && y == x;
          if exists k :: 0 <= k < |queue2| && Reaches(queue2[k], x, len) {
            var k :| 0 <= k < |queue2| && Reaches(queue2[k], x, len);
            assert Reaches(queue2[k], x, len + 2);
          } else {
            var d :| d in done2 && d.0 == x && d.1 <= len;
          }
        } else {
          var m :| 0 <= m < |Out(t, p)| && Out(t, p)[m] == r;
          assert Queues(t, p, r, seen2);
          var k :| 0 <= k < |kids| && kids[k].path == Extension(t.net, p, r);
          ReachedPushed(queue[..i] + queue[i + 1..], kids, done2, k, len + 2);
        }
      }
    }
  }

  /** Popping entry `i`, expanding it into `kids` and yielding into `paths2`
      keeps the frontier invariant, with the popped entry marked expanded. */
  lemma FrontierStep(t: Query, queue: seq<Item>, i: nat, done: set<(int, int)>, seen: set<int>, newSeen: set<int>, oldLen: int, paths: seq<Path>,
                     seen2: set<int>, kids: seq<Item>, paths2: seq<Path>)
    requires Complete(t.net) && Frontier(t, queue, done, seen, newSeen, oldLen, paths)
    requires i < |queue| && |queue[i].path| % 2 == 1 && oldLen <= |queue[i].path|
    requires seen2 == if |queue[i].path| != oldLen then seen + newSeen else seen
    requires forall k :: 0 <= k < |kids| ==> |kids[k].path| == |queue[i].path| + 2
    requires |paths2| >= |paths| && paths2[..|paths|] == paths
    requires forall r :: r in Out(t, queue[i].path) && t.net.prod[r] in t.finals ==> Extension(t.net, queue[i].path, r) in paths2
    requires forall m :: 0 <= m < |Out(t, queue[i].path)| && Queues(t, queue[i].path, Out(t, queue[i].path)[m], seen2) ==>
      Holds(kids, Extension(t.net, queue[i].path, Out(t, queue[i].path)[m]))
    ensures Frontier(t, queue[..i] + queue[i + 1..] + kids, done + {Mark(queue[i])}, seen2, newSeen + Lasts(kids), |queue[i].path|, paths2)
  {
    var queue2 := queue[..i] + queue[i + 1..] + kids;
    var done2 := done + {Mark(queue[i])};
    var len := |queue[i].path|;
    FrontierSeen(t, queue, i, done, seen, newSeen, oldLen, paths, seen2, kids);
    SpreadPopped(t, queue, i, done2, seen2, paths2, kids);
    forall d | d in done2 ensures Spread(t, queue2, done2, paths2, d.0, d.1) {
      if d != Mark(queue[i]) {
        assert Spread(t, queue, done, paths, d.0, d.1);
        forall r | r in Reactions(t.net, d.0) && r in t.net.prod
          ensures (t.net.prod[r] in t.finals ==> paths2 != [])
            && (t.net.prod[r] !in t.finals && t.net.prod[r] !in t.seen0 && d.1 + 2 <= t.maxLen ==> Reached(queue2, done2, t.net.prod[r], d.1 + 2))
        {
          if t.net.prod[r] in t.finals {
            assert paths != [] && paths2[0] == paths[0];
          } else if t.net.prod[r] !in t.seen0 && d.1 + 2 <= t.maxLen {
            ReachedKept(queue, i, kids, done, t.net.prod[r], d.1 + 2, d.1 + 2);
          }
        }
      }
    }
  }

  /** Along a path the search could yield, every complex but the last has
      been expanded by a path no longer than the prefix up to it. */
  lemma {:induction false} ExpandedAlong(t: Query, done: set<(int, int)>, paths: seq<Path>, p: Path, j: nat)
    requires forall d :: d in done ==> Spread(t, [], done, paths, d.0, d.1)
    requires forall x :: x in t.starts ==> Reached([], done, x, 1)
    requires Walk(t, p) && |p| <= Max(1, t.maxLen) + 2 && 2 * j + 2 < |p|
    ensures exists len :: (p[2 * j].node, len) in done && len <= 2 * j + 1
  {
    if j == 0 {
      assert Reached([], done, p[0].node, 1);
      var d :| d in done && d.0 == p[0].node && d.1 <= 1;
      assert (p[0].node, d.1) == d;
    } else {
      ExpandedAlong(t, done, paths, p, j - 1);
      var len :| (p[2 * j - 2].node, len) in done && len <= 2 * j - 1;
      var c := p[2 * j - 2].node;
      var r := p[2 * j - 1].node;
      var x := p[2 * j].node;
      assert Step(t.net, p[2 * j - 2], p[2 * j - 1], p[2 * j]);
      assert Spread(t, [], done, paths, c, len);
      assert x !in t.seen0 && x !in t.finals;
      assert Reached([], done, x, len + 2);
      var d :| d in done && d.0 == x && d.1 <= len + 2;
      assert (x, d.1) == d;
    }
  }

  /** Once the queue is empty, a path the search could yield within the
      length cap means something was yielded. */
  lemma SearchComplete(t: Query, done: set<(int, int)>, paths: seq<Path>, p: Path)
    requires forall d :: d in done ==> Spread(t, [], done, paths, d.0, d.1)
    requires forall x :: x in t.starts ==> Reached([], done, x, 1)
    requires Found(t, p) && |p| <= Max(1, t.maxLen) + 2
    ensures paths != []
  {
    var j := (|p| - 3) / 2;
    ExpandedAlong(t, done, paths, p, j);
    var len :| (p[2 * j].node, len) in done && len <= 2 * j + 1;
    assert 2 * j + 2 == |p| - 1;
    assert Step(t.net, p[2 * j], p[2 * j + 1], p[2 * j + 2]);
    assert Spread(t, [], done, paths, p[2 * j].node, len);
  }

  /** The `while queue:` loop of `search_path`, from the initial heap to the
      last yielded path. */
  method Search(t: Query) returns (paths: seq<Path>)
    requires Complete(t.net)
    requires forall x :: x in t.starts ==> x in t.seen0
    requires forall x :: x in t.finals ==> x !in t.seen0
    ensures t.finals == {} ==> paths == []
    ensures forall k :: 0 <= k < |paths| ==> Found(t, paths[k]) && |paths[k]| <= Max(1, t.maxLen) + 2
    ensures forall k, l :: 0 <= k < l < |paths| ==> |paths[k]| <= |paths[l]|
    ensures forall x :: x in t.starts ==> DirectDone(t, x, paths)
    ensures (exists p :: Found(t, p) && |p| <= Max(1, t.maxLen) + 2) ==> paths != []
  {
    paths := [];
    if t.finals == {} {
      return;
    }
    var seen := t.seen0;
    var queue: seq<Item> := [];
    var n := 0;
    for s := 0 to |t.starts|
      invariant AllQueued(t, queue, seen, {}, 1)
      invariant |queue| == s
      invariant forall k :: 0 <= k < s ==> queue[k].path == [Entry(t.starts[k], 0.0)]
    {
      var start := Item(1, 0.0, n, [Entry(t.starts[s], 0.0)]);
      QueuedSnoc(t, queue, start, seen, {}, 1);
      queue := queue + [start];
      n := n + 1;
    }
    var oldLen := 1;
    var newSeen: set<int> := {};
    ghost var bound := |t.net.prod.Keys|;
    ghost var done: set<(int, int)> := {};
    forall x | x in t.starts ensures Reached(queue, done, x, 1) {
      var k :| 0 <= k < |t.starts| && t.starts[k] == x;
      assert Reaches(queue[k], x, 1);
    }
    while queue != []
      invariant AllQueued(t, queue, seen, newSeen, oldLen)
      invariant t.seen0 <= seen
      invariant Yielded(t, paths, oldLen)
      invariant StartsPending(t, queue, paths)
      invariant Frontier(t, queue, done, seen, newSeen, oldLen, paths)
      decreases Potential(queue, bound + 1, t.maxLen)
    {
      seen, newSeen, oldLen, queue, paths, n, done := Pop(t, seen, newSeen, oldLen, queue, paths, n, done);
    }
    if p :| Found(t, p) && |p| <= Max(1, t.maxLen) + 2 {
      SearchComplete(t, done, paths, p);
    }
  }

  /** One pass of the `while queue` loop: pop the shortest entry, fold the
      complexes met at the previous length into `seen` when the length
      grows, and expand it. The potential of the queue falls. */
  method Pop(t: Query, seen: set<int>, newSeen: set<int>, oldLen: int, queue: seq<Item>, paths: seq<Path>, n: int, ghost done: set<(int, int)>)
    returns (seen2: set<int>, newSeen2: set<int>, oldLen2: int, queue2: seq<Item>, paths2: seq<Path>, n2: int, ghost done2: set<(int, int)>)
    requires Complete(t.net)
    requires forall x :: x in t.starts ==> x in t.seen0
    requires forall x :: x in t.finals ==> x !in t.seen0
    requires queue != []
    requires AllQueued(t, queue, seen, newSeen, oldLen) && t.seen0 <= seen
    requires Yielded(t, paths, oldLen) && StartsPending(t, queue, paths)
    requires Frontier(t, queue, done, seen, newSeen, oldLen, paths)
    ensures AllQueued(t, queue2, seen2, newSeen2, oldLen2) && t.seen0 <= seen2
    ensures Frontier(t, queue2, done2, seen2, newSeen2, oldLen2, paths2)
    ensures Yielded(t, paths2, oldLen2) && StartsPending(t, queue2, paths2)
    ensures Potential(queue2, |t.net.prod.Keys| + 1, t.maxLen) < Potential(queue, |t.net.prod.Keys| + 1, t.maxLen)
  {
    ghost var bound := |t.net.prod.Keys|;
    var i;
    i, seen2, oldLen2 := Shortest(t, seen, newSeen, oldLen, queue);
    var item := queue[i];
    var rest := queue[..i] + queue[i + 1..];
    newSeen2, queue2, paths2, n2 := Expand(t, item, seen2, newSeen, rest, paths, n);
    PopQueued(t, queue, i, seen2, newSeen, paths, n, queue2, newSeen2);
    PopYielded(t, queue, i, seen2, newSeen, oldLen, paths, n, queue2, paths2);
    PopFrontier(t, queue, i, done, seen, newSeen, oldLen, paths, seen2, n, queue2, newSeen2, paths2);
    done2 := done + {Mark(item)};
  }

  /** The queue invariant across one pass of the loop, from what `Shortest`
      promises and what `Expand` computes; the potential falls. */
  lemma PopQueued(t: Query, queue: seq<Item>, i: nat, seen2: set<int>, newSeen: set<int>, paths: seq<Path>, n: int,
                  queue2: seq<Item>, newSeen2: set<int>)
    requires Complete(t.net)
    requires forall x :: x in t.starts ==> x in t.seen0
    requires forall x :: x in t.finals ==> x !in t.seen0
    requires t.seen0 <= seen2 && i < |queue|
    requires AllQueued(t, queue[..i] + queue[i + 1..], seen2, newSeen, |queue[i].path|)
    requires QueuedOk(t, queue[i], seen2, newSeen, |queue[i].path|) && AllIn(queue[i].path, seen2)
    requires var kids := Children(t, queue[i].path, seen2, n, |Out(t, queue[i].path)|);
      queue2 == queue[..i] + queue[i + 1..] + kids && newSeen2 == newSeen + Lasts(kids)
    ensures AllQueued(t, queue2, seen2, newSeen2, |queue[i].path|)
    ensures Potential(queue2, |t.net.prod.Keys| + 1, t.maxLen) < Potential(queue, |t.net.prod.Keys| + 1, t.maxLen)
  {
    var p := queue[i].path;
    var rest := queue[..i] + queue[i + 1..];
    var j := |Out(t, p)|;
    var kids := Children(t, p, seen2, n, j);
    var bound := |t.net.prod.Keys|;
    ChildrenQueued(t, p, seen2, newSeen2, n, j);
    ChildrenPotential(t, p, seen2, n, bound + 1, j);
    WeightMul(j, Child(|p|, t.maxLen, bound + 1));
    QueuedGrow(t, rest, seen2, newSeen, newSeen2, |p|);
    QueuedConcat(t, rest, kids, seen2, newSeen2, |p|);
    DegreeBound(t.net, p[|p| - 1].node);
    PopShrinks(queue, i, kids, bound, j, t.maxLen);
  }

  /** Replacing the popped entry by at most `deg` children, each one level
      down, lowers the potential. */
  lemma PopShrinks(queue: seq<Item>, i: nat, kids: seq<Item>, bound: nat, deg: nat, maxLen: int)
    requires i < |queue| && deg <= bound
    requires Potential(kids, bound + 1, maxLen) <= deg * Child(queue[i].len, maxLen, bound + 1)
    ensures Potential(queue[..i] + queue[i + 1..] + kids, bound + 1, maxLen) < Potential(queue, bound + 1, maxLen)
  {
    PotentialConcat(queue[..i] + queue[i + 1..], kids, bound + 1, maxLen);
    PopFalls(queue, i, queue[..i] + queue[i + 1..] + kids, bound, deg, maxLen);
  }

  /** The yield invariants across one pass of the loop: what was yielded
      stays, and the new paths are found, one step longer than the popped
      path, including every reaction of it into a target. */
  lemma PopYielded(t: Query, queue: seq<Item>, i: nat, seen2: set<int>, newSeen: set<int>, oldLen: int, paths: seq<Path>, n: int,
                   queue2: seq<Item>, paths2: seq<Path>)
    requires Complete(t.net)
    requires forall x :: x in t.starts ==> x in t.seen0
    requires forall x :: x in t.finals ==> x !in t.seen0
    requires t.seen0 <= seen2 && Yielded(t, paths, oldLen) && StartsPending(t, queue, paths)
    requires i < |queue| && oldLen <= |queue[i].path|
    requires QueuedOk(t, queue[i], seen2, newSeen, |queue[i].path|) && AllIn(queue[i].path, seen2)
    requires queue2 == queue[..i] + queue[i + 1..] + Children(t, queue[i].path, seen2, n, |Out(t, queue[i].path)|)
    requires paths2 == paths + Yields(t, queue[i].path, |Out(t, queue[i].path)|)
    ensures Yielded(t, paths2, |queue[i].path|) && StartsPending(t, queue2, paths2)
    ensures |paths2| >= |paths| && paths2[..|paths|] == paths
    ensures forall r :: r in Reactions(t.net, queue[i].path[|queue[i].path| - 1].node) && t.net.prod[r] in t.finals ==>
      Extension(t.net, queue[i].path, r) in paths2
  {
    var p := queue[i].path;
    var ys := Yields(t, p, |Out(t, p)|);
    YieldsFound(t, p, |Out(t, p)|);
    YieldsCover(t, p, |Out(t, p)|);
    forall r | r in Out(t, p) && t.net.prod[r] in t.finals ensures Extension(t.net, p, r) in paths2 {
      var m :| 0 <= m < |Out(t, p)| && Out(t, p)[m] == r;
      assert Extension(t.net, p, r) in ys;
    }
    assert paths2[..|paths|] == paths;
    assert queue2[..|queue| - 1] == queue[..i] + queue[i + 1..];
    forall k | |paths| <= k < |paths2| ensures Found(t, paths2[k]) && |paths2[k]| == |p| + 2 {
      assert paths2[k] == ys[k - |paths|];
    }
    YieldedStep(t, paths, paths2, oldLen, |p|);
    StartsKept(t, queue, i, queue2, paths, paths2);
  }

  /** `Frontier` across one pass of the loop, from what `Shortest` and
      `Expand` promise. */
  lemma PopFrontier(t: Query, queue: seq<Item>, i: nat, done: set<(int, int)>, seen: set<int>, newSeen: set<int>, oldLen: int, paths: seq<Path>,
                    seen2: set<int>, n: int, queue2: seq<Item>, newSeen2: set<int>, paths2: seq<Path>)
    requires Complete(t.net) && Frontier(t, queue, done, seen, newSeen, oldLen, paths)
    requires i < |queue| && Open(t, queue[i].path) && oldLen <= |queue[i].path|
    requires seen2 == if |queue[i].path| != oldLen then seen + newSeen else seen
    requires var kids := Children(t, queue[i].path, seen2, n, |Out(t, queue[i].path)|);
      queue2 == queue[..i] + queue[i + 1..] + kids && newSeen2 == newSeen + Lasts(kids)
    requires |paths2| >= |paths| && paths2[..|paths|] == paths
    requires forall r :: r in Reactions(t.net, queue[i].path[|queue[i].path| - 1].node) && t.net.prod[r] in t.finals ==>
      Extension(t.net, queue[i].path, r) in paths2
    ensures Frontier(t, queue2, done + {Mark(queue[i])}, seen2, newSeen2, |queue[i].path|, paths2)
  {
    var kids := Children(t, queue[i].path, seen2, n, |Out(t, queue[i].path)|);
    ChildrenCover(t, queue[i].path, seen2, n, |Out(t, queue[i].path)|);
    ChildrenLength(t, queue[i].path, seen2, n, |Out(t, queue[i].path)|);
    FrontierStep(t, queue, i, done, seen, newSeen, oldLen, paths, seen2, kids, paths2);
  }

  /** `heapq.heappop(queue)` followed by `if len(cur) != old_len: seen |=
      new_seen`: the entry popped is the least, and it and everything left
      are queued consistently at its length. */
  method Shortest(t: Query, seen: set<int>, newSeen: set<int>, oldLen: int, queue: seq<Item>)
    returns (i: nat, seen2: set<int>, oldLen2: int)
    requires queue != [] && AllQueued(t, queue, seen, newSeen, oldLen)
    ensures i < |queue| && oldLen2 == |queue[i].path| && oldLen <= oldLen2
    ensures forall k :: 0 <= k < |queue| ==> KeyLe(queue[i], queue[k])
    ensures seen2 == if oldLen2 != oldLen then seen + newSeen else seen
    ensures AllQueued(t, queue[..i] + queue[i + 1..], seen2, newSeen, oldLen2)
    ensures QueuedOk(t, queue[i], seen2, newSeen, oldLen2) && AllIn(queue[i].path, seen2)
  {
    i := Smallest(queue);
    Popped(t, queue, i, seen, newSeen, oldLen);
    oldLen2 := |queue[i].path|;
    seen2 := seen;
    if oldLen2 != oldLen {
      seen2 := seen + newSeen;
    }
  }

  // The two generators and what is built on them

  /** The query `Complex.search_path` runs: `seen = {self}`,
      `final_compl = {target} - seen`, one start unless it is the target. */
  function ComplexQuery(net: Net, start: int, target: int, maxLen: int): Query {
    Query(net, if start == target then [] else [start], {start}, {target} - {start}, maxLen)
  }

  /** `Complex.search_path(target, max_len)`: every yielded path runs from this
      complex to the target, one reaction per step, without visiting either in
      between or any complex twice; a direct reaction into the target is
      always among them. */
  method ComplexSearch(net: Net, start: int, target: int, maxLen: int) returns (paths: seq<Path>)
    requires Complete(net)
    ensures start == target ==> paths == []
    ensures forall k :: 0 <= k < |paths| ==> Found(ComplexQuery(net, start, target, maxLen), paths[k])
    ensures forall k :: 0 <= k < |paths| ==>
      |paths[k]| >= 3 && paths[k][0] == Entry(start, 0.0) && paths[k][|paths[k]| - 1].node == target
      && |paths[k]| <= Max(1, maxLen) + 2
    ensures forall k, l :: 0 <= k < l < |paths| ==> |paths[k]| <= |paths[l]|
    ensures start != target ==> forall r :: r in Reactions(net, start) && net.prod[r] == target ==>
      Extension(net, [Entry(start, 0.0)], r) in paths
    ensures (exists p :: Found(ComplexQuery(net, start, target, maxLen), p) && |p| <= Max(1, maxLen) + 2) ==> paths != []
  {
    var t := ComplexQuery(net, start, target, maxLen);
    paths := Search(t);
    if start != target {
      assert DirectDone(t, start, paths);
    }
  }

  /** The query `Molecule.search_path` runs: `seen` is the set of this
      molecule's complexes, the targets are the target molecule's complexes
      outside it, and the starts are this molecule's complexes that are not
      the target's, in the order `order` lists them. */
  function MoleculeQuery(net: Net, mine: set<int>, theirs: set<int>, order: seq<int>, maxLen: int): Query {
    Query(net, order, mine, theirs - mine, maxLen)
  }

  /** `Molecule.search_path(target, max_len)`. `order` is the iteration order
      of the set `seen - final_compl`. */
  method MoleculeSearch(net: Net, mine: set<int>, theirs: set<int>, order: seq<int>, maxLen: int) returns (paths: seq<Path>)
    requires Complete(net)
    requires forall x :: x in order <==> x in mine && x !in theirs
    ensures theirs <= mine ==> paths == []
    ensures forall k :: 0 <= k < |paths| ==>
      Found(MoleculeQuery(net, mine, theirs, order, maxLen), paths[k]) && |paths[k]| <= Max(1, maxLen) + 2
    ensures forall k, l :: 0 <= k < l < |paths| ==> |paths[k]| <= |paths[l]|
    ensures forall x :: x in order ==> DirectDone(MoleculeQuery(net, mine, theirs, order, maxLen), x, paths)
    ensures (exists p :: Found(MoleculeQuery(net, mine, theirs, order, maxLen), p) && |p| <= Max(1, maxLen) + 2) ==> paths != []
  {
    var t := MoleculeQuery(net, mine, theirs, order, maxLen);
    assert theirs <= mine ==> t.finals == {};
    paths := Search(t);
  }

  /** `Molecule.has_path(target)`: False for the molecule itself, otherwise
      whether the search with the default `max_len` of 10 yields anything. */
  method HasPath(net: Net, self: int, target: int, mine: set<int>, theirs: set<int>, order: seq<int>)
    returns (b: bool, ghost example: Path)
    requires Complete(net)
    requires forall x :: x in order <==> x in mine && x !in theirs
    ensures self == target ==> !b
    ensures b ==> Found(MoleculeQuery(net, mine, theirs, order, 10), example) && |example| <= 12
    ensures b <==> self != target && exists p :: Found(MoleculeQuery(net, mine, theirs, order, 10), p) && |p| <= 12
    ensures self != target && (exists x, r :: x in order && r in Reactions(net, x) && net.prod[r] in theirs - mine) ==> b
  {
    example := [];
    if self == target {
      return false, example;
    }
    var paths := MoleculeSearch(net, mine, theirs, order, 10);
    if exists x, r :: x in order && r in Reactions(net, x) && net.prod[r] in theirs - mine {
      var x, r :| x in order && r in Reactions(net, x) && net.prod[r] in theirs - mine;
      assert DirectDone(MoleculeQuery(net, mine, theirs, order, 10), x, paths);
      assert Extension(net, [Entry(x, 0.0)], r) in paths;
    }
    b := |paths| > 0;
    if b {
      example := paths[0];
    }
  }

  /** `weighted_path(nodes, cost, total_cost)`. */
  datatype WeightedPath = WeightedPath(nodes: seq<int>, cost: seq<real>, totalCost: real)

  function Sum(xs: seq<real>): real {
    if xs == [] then 0.0 else Sum(xs[..|xs| - 1]) + xs[|xs| - 1]
  }

  /** `w` weighs path `p`: its nodes in order, cost 0 at each complex and the
      step barrier at each reaction, and the sum of the costs as total. */
  predicate Weighs(p: Path, w: WeightedPath) {
    |w.nodes| == |p| && |w.cost| == |p|
    && (forall i :: 0 <= i < |p| ==> w.nodes[i] == p[i].node)
    && (forall i :: 0 <= i < |p| ==> w.cost[i] == if i % 2 == 1 then p[i].barrier else 0.0)
    && w.totalCost == Sum(w.cost)
  }

  /** The inner loop of `get_effective_paths` over `enumerate(path, start=1)`:
      positions 2, 4, … (the reactions) carry their barrier. */
  method Weigh(p: Path) returns (w: WeightedPath)
    ensures Weighs(p, w)
  {
    var nodes: seq<int> := [];
    var costs: seq<real> := [];
    var total := 0.0;
    for i := 0 to |p|
      invariant |nodes| == i && |costs| == i
      invariant forall j :: 0 <= j < i ==> nodes[j] == p[j].node
      invariant forall j :: 0 <= j < i ==> costs[j] == if j % 2 == 1 then p[j].barrier else 0.0
      invariant total == Sum(costs)
    {
      nodes := nodes + [p[i].node];
      if (i + 1) % 2 == 0 {
        costs := costs + [p[i].barrier];
      } else {
        costs := costs + [0.0];
      }
      assert costs[..|costs| - 1] == costs[..i];
      total := total + costs[|costs| - 1];
    }
    w := WeightedPath(nodes, costs, total);
  }

  /** Weighs the first `cap` paths of a search, in order. */
  method WeighFirst(paths: seq<Path>, cap: nat) returns (ws: seq<WeightedPath>)
    ensures |ws| == Min(cap, |paths|)
    ensures forall k :: 0 <= k < |ws| ==> Weighs(paths[k], ws[k])
  {
    ws := [];
    var n := 0;
    while n < |paths| && n < cap
      invariant n <= |paths| && n <= cap && |ws| == n
      invariant forall k :: 0 <= k < n ==> Weighs(paths[k], ws[k])
    {
      var w := Weigh(paths[n]);
      ws := ws + [w];
      n := n + 1;
    }
  }

  /** `Molecule.get_effective_paths(target, limit)`: a limit below 1 is a
      ValueError; otherwise the first 30 paths of the search with
      `max_len = limit`, weighed. `paths` is everything the search would yield. */
  method MoleculeEffectivePaths(net: Net, mine: set<int>, theirs: set<int>, order: seq<int>, limit: int)
    returns (r: Result<seq<WeightedPath>>, ghost paths: seq<Path>)
    requires Complete(net)
    requires forall x :: x in order <==> x in mine && x !in theirs
    ensures r.Err? <==> limit <= 0
    ensures r.Err? ==> r.error == ValueError
    ensures r.Ok? ==> |r.value| == Min(30, |paths|)
    ensures r.Ok? ==> forall k :: 0 <= k < |r.value| ==>
      Weighs(paths[k], r.value[k]) && Found(MoleculeQuery(net, mine, theirs, order, limit), paths[k]) && |paths[k]| <= limit + 2
    ensures r.Ok? ==> forall k, l :: 0 <= k < l < |paths| ==> |paths[k]| <= |paths[l]|
    ensures r.Ok? ==> forall x :: x in order ==> DirectDone(MoleculeQuery(net, mine, theirs, order, limit), x, paths)
    ensures r.Ok? && theirs <= mine ==> r.value == []
    ensures r.Ok? && (exists p :: Found(MoleculeQuery(net, mine, theirs, order, limit), p) && |p| <= limit + 2) ==> r.value != []
  {
    paths := [];
    if limit <= 0 {
      return Err(ValueError), paths;
    }
    var all := MoleculeSearch(net, mine, theirs, order, limit);
    paths := all;
    var ws := WeighFirst(all, 30);
    r := Ok(ws);
  }

  /** `Complex.get_effective_paths(target, limit)`: only a limit of 0 is a
      ValueError; the loop returns after the path with index 30, so up to 31
      paths are weighed. */
  method ComplexEffectivePaths(net: Net, start: int, target: int, limit: int)
    returns (r: Result<seq<WeightedPath>>, ghost paths: seq<Path>)
    requires Complete(net)
    ensures r.Err? <==> limit == 0
    ensures r.Err? ==> r.error == ValueError
    ensures r.Ok? ==> |r.value| == Min(31, |paths|)
    ensures r.Ok? ==> forall k :: 0 <= k < |r.value| ==>
      Weighs(paths[k], r.value[k]) && Found(ComplexQuery(net, start, target, limit), paths[k]) && |paths[k]| <= Max(1, limit) + 2
    ensures r.Ok? ==> forall k, l :: 0 <= k < l < |paths| ==> |paths[k]| <= |paths[l]|
    ensures r.Ok? && start != target ==> forall q :: q in Reactions(net, start) && net.prod[q] == target ==>
      Extension(net, [Entry(start, 0.0)], q) in paths
    ensures r.Ok? && start == target ==> r.value == []
    ensures r.Ok? && (exists p :: Found(ComplexQuery(net, start, target, limit), p) && |p| <= Max(1, limit) + 2) ==> r.value != []
  {
    paths := [];
    if limit == 0 {
      return Err(ValueError), paths;
    }
    var all := ComplexSearch(net, start, target, limit);
    paths := all;
    var ws := WeighFirst(all, 31);
    r := Ok(ws);
  }

  /** The energy climbed along a path: the sum over its steps of the
      reaction's energy minus the energy of the complex it leaves. */
  function Climb(net: Net, p: Path): real
    requires |p| % 2 == 1 && Chain(net, p)
    decreases |p|
  {
    if |p| == 1 then 0.0
    else
      var n := |p|;
      var q := p[..n - 2];
      assert Step(net, p[n - 3], p[n - 2], p[n - 1]);
      assert Chain(net, q) by {
        forall i | 0 <= i < |q| - 2 && i % 2 == 0 ensures Step(net, q[i], q[i + 1], q[i + 2]) {
          assert q[i] == p[i] && q[i + 1] == p[i + 1] && q[i + 2] == p[i + 2];
        }
      }
      Climb(net, q) + (net.rEnergy[p[n - 2].node] - net.cEnergy[p[n - 3].node])
  }

  /** The total cost of a weighed path is the energy it climbs: the step
      barriers summed, each reaction's energy over the complex before it. */
  lemma {:induction false} TotalCost(net: Net, p: Path, w: WeightedPath)
    requires |p| % 2 == 1 && Chain(net, p) && Weighs(p, w)
    ensures w.totalCost == Climb(net, p)
  {
    ClimbCost(net, p, w.cost);
  }

  lemma {:induction false} ClimbCost(net: Net, p: Path, cost: seq<real>)
    requires |p| % 2 == 1 && Chain(net, p) && |cost| == |p|
    requires forall i :: 0 <= i < |p| ==> cost[i] == if i % 2 == 1 then p[i].barrier else 0.0
    ensures Sum(cost) == Climb(net, p)
    decreases |p|
  {
    var n := |p|;
    if n > 1 {
      var q := p[..n - 2];
      var cq := cost[..n - 2];
      assert Step(net, p[n - 3], p[n - 2], p[n - 1]);
      assert Chain(net, q) by {
        forall i | 0 <= i < |q| - 2 && i % 2 == 0 ensures Step(net, q[i], q[i + 1], q[i + 2]) {
          assert q[i] == p[i] && q[i + 1] == p[i + 1] && q[i + 2] == p[i + 2];
        }
      }
      ClimbCost(net, q, cq);
      assert cost[..n - 1][..n - 2] == cq;
      assert Sum(cost) == Sum(cost[..n - 1]) + cost[n - 1];
      assert Sum(cost[..n - 1]) == Sum(cq) + cost[n - 2];
    }
  }
}
