/**
 ProcessTree (src/darwincore/foundation/process/ProcessTree.cpp): a forest of processes with a
 cached number of live descendants in every node, pruned when the last live descendant dies.

 A node's links are kept as keys.  A stored node's parent is stored too and is never replaced while
 it has children, so a key denotes the same node as the source's weak and shared pointers do.
 */
module ProcessTree {

  datatype Option<+T> = None | Some(value: T)

  datatype ProcKey = ProcKey(pid: int, version: nat)

  datatype Info = Info(key: ProcKey, parent: ProcKey, responsible: ProcKey, name: string, path: string)

  datatype Node = Node(info: Info, parent: Option<ProcKey>, children: seq<ProcKey>, alive: bool, count: nat)

  type Nodes = map<ProcKey, Node>

  // ---------------------------------------------------------------- ancestors and live descendants

  type Parents = map<ProcKey, Option<ProcKey>>

  /** When each node was added: a witness that parent links cannot form a cycle. */
  type Ranks = map<ProcKey, nat>

  ghost predicate RankedAt(par: Parents, rank: Ranks, k: ProcKey)
    requires k in par && k in rank
  {
    match par[k]
    case None => true
    case Some(p) => p in par && p in rank && rank[p] < rank[k]
  }

  /** Parents are stored and older than their children. */
  ghost predicate Ranked(par: Parents, rank: Ranks) {
    forall k :: k in par ==> k in rank && RankedAt(par, rank, k)
  }

  /** The proper ancestors of a node. */
  ghost function Above(par: Parents, rank: Ranks, k: ProcKey): set<ProcKey>
    requires Ranked(par, rank) && k in par
    decreases rank[k]
  {
    assert RankedAt(par, rank, k);
    if par[k].None? then {} else {par[k].value} + Above(par, rank, par[k].value)
  }

  /** A node together with its ancestors; nothing when there is no node. */
  ghost function Chain(par: Parents, rank: Ranks, k: Option<ProcKey>): set<ProcKey>
    requires Ranked(par, rank) && (k.Some? ==> k.value in par)
  {
    if k.None? then {} else {k.value} + Above(par, rank, k.value)
  }

  type Uppers = map<ProcKey, set<ProcKey>>

  /** Every node's proper ancestors. */
  ghost function Ups(par: Parents, rank: Ranks): Uppers
    requires Ranked(par, rank)
  {
    map k | k in par :: Above(par, rank, k)
  }

  /** The live proper descendants of a node: what alive_descendant_count caches the number of. */
  ghost function Under(up: Uppers, live: set<ProcKey>, k: ProcKey): set<ProcKey> {
    set d | d in live && d in up && k in up[d]
  }

  lemma {:induction false} AboveRanks(par: Parents, rank: Ranks, k: ProcKey)
    requires Ranked(par, rank) && k in par
    ensures forall a :: a in Above(par, rank, k) ==> a in par && rank[a] < rank[k]
    decreases rank[k]
  {
    assert RankedAt(par, rank, k);
    if par[k].Some? { AboveRanks(par, rank, par[k].value); }
  }

  /** Ancestors depend on the links of a node and of its ancestors only. */
  lemma {:induction false} AboveSame(par: Parents, par': Parents, rank: Ranks, rank': Ranks, k: ProcKey)
    requires Ranked(par, rank) && Ranked(par', rank') && k in par
    requires forall j :: j in par && (j == k || j in Above(par, rank, k)) ==> j in par' && par'[j] == par[j]
    ensures Above(par', rank', k) == Above(par, rank, k)
    decreases rank[k]
  {
    assert RankedAt(par, rank, k);
    if par[k].Some? { AboveSame(par, par', rank, rank', par[k].value); }
  }

  lemma {:induction false} AboveTrans(par: Parents, rank: Ranks, a: ProcKey, b: ProcKey)
    requires Ranked(par, rank) && b in par && a in par && a in Above(par, rank, b)
    ensures Above(par, rank, a) <= Above(par, rank, b)
    decreases rank[b]
  {
    assert RankedAt(par, rank, b);
    var p := par[b].value;
    if a != p { AboveTrans(par, rank, a, p); }
  }

  /** Whoever has a descendant has a child. */
  lemma {:induction false} AboveHasChild(par: Parents, rank: Ranks, a: ProcKey, d: ProcKey) returns (c: ProcKey)
    requires Ranked(par, rank) && d in par && a in Above(par, rank, d)
    ensures c in par && par[c] == Some(a)
    decreases rank[d]
  {
    assert RankedAt(par, rank, d);
    var p := par[d].value;
    if a == p { c := d; } else { c := AboveHasChild(par, rank, a, p); }
  }

  lemma UpsAreStored(par: Parents, rank: Ranks)
    requires Ranked(par, rank)
    ensures forall k :: k in Ups(par, rank) ==> Ups(par, rank)[k] <= par.Keys && k !in Ups(par, rank)[k]
  {
    forall k | k in par ensures Above(par, rank, k) <= par.Keys && k !in Above(par, rank, k) { AboveRanks(par, rank, k); }
  }

  /** Ranks that put one more node after all the others. */
  ghost predicate Newest(keys: set<ProcKey>, rank: Ranks, rank': Ranks, key: ProcKey) {
    key in rank' && forall k :: k in keys && k in rank ==> k in rank' && rank'[k] == rank[k] && rank'[k] < rank'[key]
  }

  /** A new leaf changes nobody else's ancestors. */
  lemma LeafUps(par: Parents, rank: Ranks, key: ProcKey, p: Option<ProcKey>, rank': Ranks)
    requires Ranked(par, rank) && key !in par && (p.Some? ==> p.value in par)
    requires Newest(par.Keys, rank, rank', key)
    ensures Ranked(par[key := p], rank')
    ensures Ups(par[key := p], rank') == Ups(par, rank)[key := Chain(par, rank, p)]
  {
    var par' := par[key := p];
    forall k | k in par' ensures RankedAt(par', rank', k) { assert k != key ==> RankedAt(par, rank, k); }
    forall k | k in par ensures Above(par', rank', k) == Above(par, rank, k) {
      AboveRanks(par, rank, k);
      AboveSame(par, par', rank, rank', k);
    }
  }

  /** Taking a leaf away changes nobody else's ancestors. */
  lemma DropUps(par: Parents, rank: Ranks, k: ProcKey)
    requires Ranked(par, rank) && k in par && (forall c :: c in par ==> par[c] != Some(k))
    ensures Ranked(par - {k}, rank)
    ensures Ups(par - {k}, rank) == Ups(par, rank) - {k}
  {
    var par' := par - {k};
    forall j | j in par' ensures RankedAt(par', rank, j) { assert RankedAt(par, rank, j); }
    forall j | j in par' ensures Above(par', rank, j) == Above(par, rank, j) {
      if k in Above(par, rank, j) { var c := AboveHasChild(par, rank, k, j); }
      AboveSame(par, par', rank, rank, j);
    }
  }

  // ---------------------------------------------------------------- the invariant

  ghost function Links(nodes: Nodes): Parents {
    map k | k in nodes :: nodes[k].parent
  }

  ghost function Live(nodes: Nodes): set<ProcKey> {
    set k | k in nodes && nodes[k].alive
  }

  ghost predicate Distinct(s: seq<ProcKey>) {
    forall i, j :: 0 <= i < j < |s| ==> s[i] != s[j]
  }

  /** Parent links and children lists mirror each other, without repetition. */
  ghost predicate Linked(nodes: Nodes, k: ProcKey)
    requires k in nodes
  {
    && nodes[k].info.key == k
    && (nodes[k].parent.Some? ==> nodes[k].parent.value in nodes && k in nodes[nodes[k].parent.value].children)
    && (forall c :: c in nodes[k].children ==> c in nodes && nodes[c].parent == Some(k))
    && Distinct(nodes[k].children)
  }

  ghost predicate Mirrored(nodes: Nodes) {
    forall k :: k in nodes ==> Linked(nodes, k)
  }

  ghost predicate Counted(nodes: Nodes, up: Uppers) {
    forall k :: k in nodes ==> nodes[k].count == |Under(up, Live(nodes), k)|
  }

  /** Dead, and without a live descendant. */
  ghost predicate Ripe(n: Node) {
    !n.alive && n.count == 0
  }

  /** Nothing is ripe for pruning, except perhaps some of the nodes in `but`. */
  ghost predicate Tidy(nodes: Nodes, but: set<ProcKey>) {
    forall k :: k in nodes && k !in but ==> !Ripe(nodes[k])
  }

  ghost predicate Forest(nodes: Nodes, rank: Ranks) {
    Mirrored(nodes) && Ranked(Links(nodes), rank) && Counted(nodes, Ups(Links(nodes), rank))
  }

  ghost predicate Sound(nodes: Nodes, rank: Ranks) {
    Forest(nodes, rank) && Tidy(nodes, {})
  }

  /** What the outside can tell of a node. */
  datatype Shown = Shown(info: Info, parent: Option<ProcKey>, alive: bool)

  ghost function Show(nodes: Nodes): map<ProcKey, Shown> {
    map k | k in nodes :: Shown(nodes[k].info, nodes[k].parent, nodes[k].alive)
  }

  // ---------------------------------------------------------------- adding a leaf

  ghost predicate Roomy(nodes: Nodes, at: set<ProcKey>, delta: int) {
    forall k :: k in at && k in nodes ==> nodes[k].count + delta >= 0
  }

  /** Adds to the cached count of some nodes. */
  ghost function Bumped(nodes: Nodes, at: set<ProcKey>, delta: int): Nodes
    requires Roomy(nodes, at, delta)
  {
    map k | k in nodes :: if k in at then nodes[k].(count := nodes[k].count + delta) else nodes[k]
  }

  lemma BumpedMirrored(nodes: Nodes, at: set<ProcKey>, delta: int)
    requires Mirrored(nodes) && Roomy(nodes, at, delta)
    ensures Mirrored(Bumped(nodes, at, delta))
  {
    var nodes' := Bumped(nodes, at, delta);
    forall k | k in nodes' ensures Linked(nodes', k) { assert Linked(nodes, k); }
  }

  ghost function StoredParent(nodes: Nodes, info: Info): Option<ProcKey> {
    if info.parent in nodes then Some(info.parent) else None
  }

  ghost function WithChild(nodes: Nodes, p: Option<ProcKey>, key: ProcKey): Nodes
    requires p.Some? ==> p.value in nodes
  {
    if p.None? then nodes else nodes[p.value := nodes[p.value].(children := nodes[p.value].children + [key])]
  }

  ghost function WithLeaf(nodes: Nodes, info: Info): Nodes {
    WithChild(nodes, StoredParent(nodes, info), info.key)[info.key := Node(info, StoredParent(nodes, info), [], true, 0)]
  }

  lemma LeafLinked(nodes: Nodes, info: Info, k: ProcKey)
    requires Mirrored(nodes) && info.key !in nodes && k in WithLeaf(nodes, info)
    ensures Linked(WithLeaf(nodes, info), k)
  {
    if k != info.key { assert Linked(nodes, k); }
  }

  lemma LeafCount(up: Uppers, live: set<ProcKey>, key: ProcKey, at: set<ProcKey>, k: ProcKey)
    requires key !in live && key !in up && (forall j :: j in up ==> key !in up[j]) && key !in at
    ensures |Under(up[key := at], live + {key}, k)| == |Under(up, live, k)| + (if k in at then 1 else 0)
    ensures Under(up[key := at], live + {key}, key) == {}
  {
    assert Under(up[key := at], live + {key}, k) == if k in at then Under(up, live, k) + {key} else Under(up, live, k);
  }

  lemma LeafLinks(nodes: Nodes, info: Info, at: set<ProcKey>)
    requires info.key !in nodes
    ensures Links(Bumped(WithLeaf(nodes, info), at, 1)) == Links(nodes)[info.key := StoredParent(nodes, info)]
    ensures Live(Bumped(WithLeaf(nodes, info), at, 1)) == Live(nodes) + {info.key}
    ensures Show(Bumped(WithLeaf(nodes, info), at, 1)) == Show(nodes)[info.key := Shown(info, StoredParent(nodes, info), true)]
  {}

  /** Adding a live leaf, and one to the count of each of its ancestors, keeps the tree valid. */
  lemma LeafValid(nodes: Nodes, rank: Ranks, info: Info, rank': Ranks, at: set<ProcKey>)
    requires Sound(nodes, rank) && info.key !in nodes
    requires Newest(nodes.Keys, rank, rank', info.key)
    requires at == Chain(Links(nodes), rank, StoredParent(nodes, info))
    ensures Sound(Bumped(WithLeaf(nodes, info), at, 1), rank')
  {
    LeafMirrored(nodes, info, at);
    LeafLinks(nodes, info, at);
    assert Links(nodes).Keys == nodes.Keys;
    LeafUps(Links(nodes), rank, info.key, StoredParent(nodes, info), rank');
    LeafIsNew(Links(nodes), rank, info.key, StoredParent(nodes, info));
    LeafCounted(nodes, Ups(Links(nodes), rank), info, at);
  }

  lemma LeafMirrored(nodes: Nodes, info: Info, at: set<ProcKey>)
    requires Mirrored(nodes) && info.key !in nodes
    ensures Mirrored(Bumped(WithLeaf(nodes, info), at, 1))
  {
    forall k | k in WithLeaf(nodes, info) ensures Linked(WithLeaf(nodes, info), k) { LeafLinked(nodes, info, k); }
    BumpedMirrored(WithLeaf(nodes, info), at, 1);
  }

  lemma LeafIsNew(par: Parents, rank: Ranks, key: ProcKey, p: Option<ProcKey>)
    requires Ranked(par, rank) && key !in par && (p.Some? ==> p.value in par)
    ensures key !in Chain(par, rank, p) && forall j :: j in Ups(par, rank) ==> key !in Ups(par, rank)[j]
  {
    UpsAreStored(par, rank);
    if p.Some? { AboveRanks(par, rank, p.value); }
  }

  lemma LeafCounted(nodes: Nodes, up: Uppers, info: Info, at: set<ProcKey>)
    requires Counted(nodes, up) && Tidy(nodes, {}) && info.key !in nodes && up.Keys == nodes.Keys
    requires info.key !in at && forall j :: j in up ==> info.key !in up[j]
    ensures Counted(Bumped(WithLeaf(nodes, info), at, 1), up[info.key := at]) && Tidy(Bumped(WithLeaf(nodes, info), at, 1), {})
  {
    LeafLinks(nodes, info, at);
    LeafCounts(nodes, Bumped(WithLeaf(nodes, info), at, 1), up, info.key, at);
  }

  lemma LeafCounts(nodes: Nodes, nodes': Nodes, up: Uppers, key: ProcKey, at: set<ProcKey>)
    requires Counted(nodes, up) && Tidy(nodes, {}) && key !in nodes && key !in up && key !in at && (forall j :: j in up ==> key !in up[j])
    requires nodes'.Keys == nodes.Keys + {key} && Live(nodes') == Live(nodes) + {key}
    requires nodes'[key].count == 0
    requires forall k :: k in nodes ==> nodes'[k].count == nodes[k].count + (if k in at then 1 else 0)
    ensures Counted(nodes', up[key := at]) && Tidy(nodes', {})
  {
    forall k | k in nodes'
      ensures nodes'[k].count == |Under(up[key := at], Live(nodes'), k)| && !Ripe(nodes'[k])
    {
      LeafCount(up, Live(nodes), key, at, k);
      if k != key { assert !Ripe(nodes[k]) && (k in Live(nodes) <==> nodes[k].alive); }
      assert k in Live(nodes') <==> nodes'[k].alive;
    }
  }

  // ---------------------------------------------------------------- a process dies

  ghost function Marked(nodes: Nodes, key: ProcKey): Nodes
    requires key in nodes
  {
    nodes[key := nodes[key].(alive := false)]
  }

  lemma DeathCount(up: Uppers, live: set<ProcKey>, key: ProcKey, k: ProcKey)
    requires key in live && key in up
    ensures |Under(up, live - {key}, k)| == |Under(up, live, k)| - (if k in up[key] then 1 else 0)
  {
    assert Under(up, live, k) == Under(up, live - {key}, k) + if k in up[key] then {key} else {};
  }

  /** An ancestor of a live node has a positive count, so the guard on the decrement never fails. */
  lemma AncestorsCount(nodes: Nodes, up: Uppers, key: ProcKey)
    requires Counted(nodes, up) && key in nodes && key in up && nodes[key].alive
    ensures Roomy(nodes, up[key], -1)
  {
    forall a | a in up[key] && a in nodes ensures nodes[a].count > 0 { assert key in Under(up, Live(nodes), a); }
  }

  lemma MarkedLinks(nodes: Nodes, key: ProcKey, at: set<ProcKey>)
    requires key in nodes && Roomy(Marked(nodes, key), at, -1)
    ensures Links(Bumped(Marked(nodes, key), at, -1)) == Links(nodes)
    ensures Live(Bumped(Marked(nodes, key), at, -1)) == Live(nodes) - {key}
    ensures Show(Bumped(Marked(nodes, key), at, -1)) == Show(Marked(nodes, key))
  {}

  lemma MarkedMirrored(nodes: Nodes, key: ProcKey)
    requires Mirrored(nodes) && key in nodes
    ensures Mirrored(Marked(nodes, key))
  {
    var nodes' := Marked(nodes, key);
    forall k | k in nodes' ensures Linked(nodes', k) { assert Linked(nodes, k); }
  }

  /** A death takes one from the count of each ancestor; only the dead node and they may then be ripe. */
  lemma MarkedForest(nodes: Nodes, rank: Ranks, key: ProcKey, at: set<ProcKey>)
    requires Sound(nodes, rank) && key in nodes && nodes[key].alive
    requires at == Above(Links(nodes), rank, key)
    ensures Roomy(Marked(nodes, key), at, -1)
    ensures Forest(Bumped(Marked(nodes, key), at, -1), rank)
    ensures Tidy(Bumped(Marked(nodes, key), at, -1), {key} + at)
  {
    var up := Ups(Links(nodes), rank);
    assert up[key] == at;
    AncestorsCount(nodes, up, key);
    MarkedMirrored(nodes, key);
    BumpedMirrored(Marked(nodes, key), at, -1);
    MarkedLinks(nodes, key, at);
    MarkedCounted(nodes, up, key);
  }

  lemma MarkedCounted(nodes: Nodes, up: Uppers, key: ProcKey)
    requires Counted(nodes, up) && Tidy(nodes, {}) && key in nodes && key in up && nodes[key].alive && Roomy(Marked(nodes, key), up[key], -1)
    ensures Counted(Bumped(Marked(nodes, key), up[key], -1), up)
    ensures Tidy(Bumped(Marked(nodes, key), up[key], -1), {key} + up[key])
  {
    var nodes' := Bumped(Marked(nodes, key), up[key], -1);
    MarkedLinks(nodes, key, up[key]);
    forall k | k in nodes' ensures nodes'[k].count == |Under(up, Live(nodes'), k)| { DeathCount(up, Live(nodes), key, k); }
    forall k | k in nodes' && k !in {key} + up[key] ensures !Ripe(nodes'[k]) { assert nodes'[k] == nodes[k] && !Ripe(nodes[k]); }
  }

  // ---------------------------------------------------------------- pruning

  function Without(s: seq<ProcKey>, x: ProcKey): (r: seq<ProcKey>)
    ensures forall y :: y in r <==> y in s && y != x
  {
    if s == [] then [] else (if s[0] == x then [] else [s[0]]) + Without(s[1..], x)
  }

  lemma WithoutDistinct(s: seq<ProcKey>, x: ProcKey)
    requires Distinct(s)
    ensures Distinct(Without(s, x))
  {
    if s != [] {
      WithoutDistinct(s[1..], x);
      assert s[0] !in s[1..];
    }
  }

  /** A node taken off its parent's list of children. */
  ghost function Detached(nodes: Nodes, k: ProcKey): Nodes
    requires k in nodes
  {
    match nodes[k].parent
    case None => nodes
    case Some(p) => if p in nodes then nodes[p := nodes[p].(children := Without(nodes[p].children, k))] else nodes
  }

  ghost function Dropped(nodes: Nodes, k: ProcKey): Nodes
    requires k in nodes
  {
    Detached(nodes, k) - {k}
  }

  /** A child that is not ripe stands for a live descendant of its parent. */
  lemma HeirBelow(par: Parents, rank: Ranks, live: set<ProcKey>, k: ProcKey, c: ProcKey)
    requires Ranked(par, rank) && c in par && par[c] == Some(k)
    requires c in live || Under(Ups(par, rank), live, c) != {}
    ensures Under(Ups(par, rank), live, k) != {}
  {
    assert k in Above(par, rank, c);
    if c in live {
      assert c in Under(Ups(par, rank), live, k);
    } else {
      var d :| d in Under(Ups(par, rank), live, c);
      AboveTrans(par, rank, c, d);
      assert d in Under(Ups(par, rank), live, k);
    }
  }

  /** Hence a ripe node has no stored child. */
  lemma RipeIsLeaf(nodes: Nodes, rank: Ranks, k: ProcKey, c: ProcKey)
    requires Ranked(Links(nodes), rank) && k in nodes && Ripe(nodes[k])
    requires Counted(nodes, Ups(Links(nodes), rank)) && Tidy(nodes, {k} + Above(Links(nodes), rank, k))
    requires c in nodes
    ensures nodes[c].parent != Some(k)
  {
    if nodes[c].parent == Some(k) {
      AboveRanks(Links(nodes), rank, k);
      assert RankedAt(Links(nodes), rank, c);
      HeirBelow(Links(nodes), rank, Live(nodes), k, c);
    }
  }

  lemma DropLinked(nodes: Nodes, k: ProcKey, j: ProcKey)
    requires k in nodes && j in nodes && j != k && Linked(nodes, j) && Linked(nodes, k)
    requires nodes[j].parent != Some(k)
    requires nodes[k].parent != Some(k)
    ensures Linked(Dropped(nodes, k), j)
  {
    WithoutDistinct(nodes[j].children, k);
  }

  lemma DropLinks(nodes: Nodes, k: ProcKey)
    requires k in nodes && !nodes[k].alive
    ensures Links(Dropped(nodes, k)) == Links(nodes) - {k} && Live(Dropped(nodes, k)) == Live(nodes)
    ensures Show(Dropped(nodes, k)) == Show(nodes) - {k}
    ensures forall j :: j in nodes && j != k ==> j in Dropped(nodes, k) && Dropped(nodes, k)[j].count == nodes[j].count
  {}

  /** Dropping one ripe node leaves a forest in which only its ancestors may be ripe. */
  lemma DropRipe(nodes: Nodes, rank: Ranks, k: ProcKey)
    requires Forest(nodes, rank) && k in nodes && Ripe(nodes[k]) && Tidy(nodes, {k} + Above(Links(nodes), rank, k))
    ensures Forest(Dropped(nodes, k), rank)
    ensures Tidy(Dropped(nodes, k), Above(Links(nodes), rank, k))
    ensures Ups(Links(Dropped(nodes, k)), rank) == Ups(Links(nodes), rank) - {k}
  {
    forall c | c in nodes ensures nodes[c].parent != Some(k) { RipeIsLeaf(nodes, rank, k, c); }
    DropLinks(nodes, k);
    DropUps(Links(nodes), rank, k);
    DropMirrored(nodes, k);
    DropCounted(nodes, Ups(Links(nodes), rank), k);
    DropTidy(nodes, k, Above(Links(nodes), rank, k));
  }

  lemma DropMirrored(nodes: Nodes, k: ProcKey)
    requires Mirrored(nodes) && k in nodes && forall c :: c in nodes ==> nodes[c].parent != Some(k)
    ensures Mirrored(Dropped(nodes, k))
  {
    var rest := Dropped(nodes, k);
    forall j | j in rest ensures Linked(rest, j) {
      assert Linked(nodes, j) && Linked(nodes, k);
      DropLinked(nodes, k, j);
    }
  }

  lemma DropUnder(up: Uppers, live: set<ProcKey>, k: ProcKey, j: ProcKey)
    requires k !in live
    ensures Under(up - {k}, live, j) == Under(up, live, j)
  {}

  lemma DropCounted(nodes: Nodes, up: Uppers, k: ProcKey)
    requires Counted(nodes, up) && k in nodes && !nodes[k].alive
    ensures Counted(Dropped(nodes, k), up - {k})
  {
    var rest := Dropped(nodes, k);
    DropLinks(nodes, k);
    forall j | j in rest ensures rest[j].count == |Under(up - {k}, Live(rest), j)| { DropUnder(up, Live(nodes), k, j); }
  }

  lemma DropTidy(nodes: Nodes, k: ProcKey, but: set<ProcKey>)
    requires k in nodes && Tidy(nodes, {k} + but)
    ensures Tidy(Dropped(nodes, k), but)
  {
    forall j | j in Dropped(nodes, k) && j !in but ensures !Ripe(Dropped(nodes, k)[j]) { assert !Ripe(nodes[j]); }
  }

  /** The whole cascade: drop a ripe node, then look at its parent. */
  ghost function Pruned(nodes: Nodes, rank: Ranks, k: Option<ProcKey>): Nodes
    requires Ranked(Links(nodes), rank) && (k.Some? ==> k.value in nodes)
    decreases if k.Some? then rank[k.value] + 1 else 0
  {
    if k.None? || !Ripe(nodes[k.value]) then nodes
    else
      var rest := Dropped(nodes, k.value);
      assert RankedAt(Links(nodes), rank, k.value);
      if Ranked(Links(rest), rank) then Pruned(rest, rank, nodes[k.value].parent) else rest
  }

  /** What a live process keeps in the tree: itself and its ancestors. */
  ghost function Needed(nodes: Nodes, rank: Ranks): set<ProcKey>
    requires Ranked(Links(nodes), rank)
  {
    set k | k in nodes && (nodes[k].alive || Under(Ups(Links(nodes), rank), Live(nodes), k) != {})
  }

  ghost function Only(shown: map<ProcKey, Shown>, keys: set<ProcKey>): map<ProcKey, Shown> {
    map j | j in shown && j in keys :: shown[j]
  }

  /** A node that is not ripe keeps all its ancestors from being ripe. */
  lemma Spared(nodes: Nodes, rank: Ranks, k: ProcKey, a: ProcKey)
    requires Forest(nodes, rank) && k in nodes && !Ripe(nodes[k]) && a in nodes && a in Above(Links(nodes), rank, k)
    ensures !Ripe(nodes[a])
  {
    var par, live := Links(nodes), Live(nodes);
    if nodes[k].alive {
      assert k in Under(Ups(par, rank), live, a);
    } else {
      var d :| d in Under(Ups(par, rank), live, k);
      AboveTrans(par, rank, k, d);
      assert d in Under(Ups(par, rank), live, a);
    }
  }

  /** A forest in which only a node and its ancestors may be ripe. */
  ghost predicate Settling(nodes: Nodes, rank: Ranks, k: Option<ProcKey>) {
    Forest(nodes, rank) && (k.Some? ==> k.value in nodes) && Tidy(nodes, Chain(Links(nodes), rank, k))
  }

  /** The cascade never loses a parent it still has to visit. */
  ghost predicate Prunable(nodes: Nodes, rank: Ranks, k: Option<ProcKey>)
    decreases if k.Some? && k.value in rank then rank[k.value] + 1 else 0
  {
    && Ranked(Links(nodes), rank) && (k.Some? ==> k.value in nodes)
    && (k.Some? && Ripe(nodes[k.value]) ==>
          assert RankedAt(Links(nodes), rank, k.value); Prunable(Dropped(nodes, k.value), rank, nodes[k.value].parent))
  }

  lemma {:induction false} SettlingPrunable(nodes: Nodes, rank: Ranks, k: Option<ProcKey>)
    requires Settling(nodes, rank, k)
    ensures Prunable(nodes, rank, k)
    decreases if k.Some? then rank[k.value] + 1 else 0
  {
    if k.Some? && Ripe(nodes[k.value]) {
      PruneStep(nodes, rank, k.value);
      SettlingPrunable(Dropped(nodes, k.value), rank, nodes[k.value].parent);
    }
  }

  /** The cascade removes exactly the nodes that are neither alive nor have a live descendant. */
  lemma {:induction false} PrunedValid(nodes: Nodes, rank: Ranks, k: Option<ProcKey>)
    requires Settling(nodes, rank, k)
    ensures Sound(Pruned(nodes, rank, k), rank)
    ensures Show(Pruned(nodes, rank, k)) == Only(Show(nodes), Needed(nodes, rank))
    decreases if k.Some? then rank[k.value] + 1 else 0
  {
    if k.None? || !Ripe(nodes[k.value]) {
      PruneStops(nodes, rank, k);
    } else {
      PruneStep(nodes, rank, k.value);
      PrunedValid(Dropped(nodes, k.value), rank, nodes[k.value].parent);
      OnlyDropped(Show(nodes), k.value, Needed(nodes, rank));
    }
  }

  lemma PruneStops(nodes: Nodes, rank: Ranks, k: Option<ProcKey>)
    requires Settling(nodes, rank, k) && (k.Some? ==> !Ripe(nodes[k.value]))
    ensures Tidy(nodes, {}) && Show(nodes) == Only(Show(nodes), Needed(nodes, rank))
  {
    if k.Some? { SparedAll(nodes, rank, k.value); }
    AllNeeded(nodes, rank);
    assert Show(nodes) == Only(Show(nodes), nodes.Keys);
  }

  lemma OnlyDropped(shown: map<ProcKey, Shown>, k: ProcKey, keys: set<ProcKey>)
    requires k !in keys
    ensures Only(shown - {k}, keys) == Only(shown, keys)
  {}

  lemma SparedAll(nodes: Nodes, rank: Ranks, k: ProcKey)
    requires Forest(nodes, rank) && k in nodes && !Ripe(nodes[k]) && Tidy(nodes, {k} + Above(Links(nodes), rank, k))
    ensures Tidy(nodes, {})
  {
    forall a | a in nodes ensures !Ripe(nodes[a]) {
      if a in Above(Links(nodes), rank, k) { Spared(nodes, rank, k, a); }
    }
  }

  lemma PruneStep(nodes: Nodes, rank: Ranks, k: ProcKey)
    requires Settling(nodes, rank, Some(k)) && Ripe(nodes[k])
    ensures nodes[k].parent.Some? ==> rank[nodes[k].parent.value] < rank[k]
    ensures Settling(Dropped(nodes, k), rank, nodes[k].parent)
    ensures Pruned(nodes, rank, Some(k)) == Pruned(Dropped(nodes, k), rank, nodes[k].parent)
    ensures Needed(Dropped(nodes, k), rank) == Needed(nodes, rank)
    ensures k !in Needed(nodes, rank) && Show(Dropped(nodes, k)) == Show(nodes) - {k}
  {
    assert RankedAt(Links(nodes), rank, k);
    DropRipe(nodes, rank, k);
    DropChain(nodes, rank, k);
    NeededDropped(nodes, rank, k);
    DropLinks(nodes, k);
  }

  lemma AllNeeded(nodes: Nodes, rank: Ranks)
    requires Forest(nodes, rank) && Tidy(nodes, {})
    ensures Needed(nodes, rank) == nodes.Keys
  {
    forall k | k in nodes ensures k in Needed(nodes, rank) { assert !Ripe(nodes[k]); }
  }

  lemma DropChain(nodes: Nodes, rank: Ranks, k: ProcKey)
    requires Ranked(Links(nodes), rank) && k in nodes && Ranked(Links(Dropped(nodes, k)), rank) && RankedAt(Links(nodes), rank, k)
    requires Ups(Links(Dropped(nodes, k)), rank) == Ups(Links(nodes), rank) - {k}
    ensures nodes[k].parent.Some? ==> nodes[k].parent.value in Dropped(nodes, k)
    ensures Above(Links(nodes), rank, k) == Chain(Links(Dropped(nodes, k)), rank, nodes[k].parent)
  {
    if nodes[k].parent.Some? {
      var p := nodes[k].parent.value;
      assert Ups(Links(Dropped(nodes, k)), rank)[p] == Ups(Links(nodes), rank)[p];
    }
  }

  lemma NeededDropped(nodes: Nodes, rank: Ranks, k: ProcKey)
    requires Ranked(Links(nodes), rank) && k in nodes && Ripe(nodes[k]) && Ranked(Links(Dropped(nodes, k)), rank)
    requires nodes[k].count == |Under(Ups(Links(nodes), rank), Live(nodes), k)|
    requires Ups(Links(Dropped(nodes, k)), rank) == Ups(Links(nodes), rank) - {k}
    ensures Needed(Dropped(nodes, k), rank) == Needed(nodes, rank)
    ensures k !in Needed(nodes, rank)
  {
    var rest, up := Dropped(nodes, k), Ups(Links(nodes), rank);
    DropLinks(nodes, k);
    forall j ensures j in Needed(rest, rank) <==> j in Needed(nodes, rank) {
      DropUnder(up, Live(nodes), k, j);
      assert j in nodes ==> (nodes[j].alive <==> j in Live(nodes));
      assert j in rest ==> (rest[j].alive <==> j in Live(rest));
    }
  }

  // ---------------------------------------------------------------- reference: no counts, no cascade

  /** A climb along parent links. */
  ghost predicate IsClimb(shown: map<ProcKey, Shown>, path: seq<ProcKey>) {
    && |path| > 0
    && (forall i :: 0 <= i < |path| ==> path[i] in shown)
    && (forall i :: 0 < i < |path| ==> shown[path[i - 1]].parent == Some(path[i]))
  }

  /** Some live process can climb to this node: it is live itself or has a live descendant. */
  ghost predicate Wanted(shown: map<ProcKey, Shown>, k: ProcKey) {
    exists path :: IsClimb(shown, path) && shown[path[0]].alive && path[|path| - 1] == k
  }

  ghost function Grown(shown: map<ProcKey, Shown>, info: Info): map<ProcKey, Shown> {
    if info.key in shown then shown
    else shown[info.key := Shown(info, if info.parent in shown then Some(info.parent) else None, true)]
  }

  ghost function Died(shown: map<ProcKey, Shown>, key: ProcKey): map<ProcKey, Shown> {
    if key !in shown || !shown[key].alive then shown
    else
      var dead := shown[key := shown[key].(alive := false)];
      Only(dead, set k | k in dead && Wanted(dead, k))
  }

  lemma {:induction false} ClimbTo(nodes: Nodes, rank: Ranks, d: ProcKey, k: ProcKey) returns (path: seq<ProcKey>)
    requires Ranked(Links(nodes), rank) && d in nodes && k in Above(Links(nodes), rank, d)
    ensures IsClimb(Show(nodes), path) && path[0] == d && path[|path| - 1] == k
    decreases rank[d]
  {
    assert RankedAt(Links(nodes), rank, d);
    var p := nodes[d].parent.value;
    var rest := [p];
    if p != k { rest := ClimbTo(nodes, rank, p, k); }
    path := [d] + rest;
    assert forall i :: 0 < i < |path| ==> path[i] == rest[i - 1];
  }

  lemma {:induction false} ClimbIsAbove(nodes: Nodes, rank: Ranks, path: seq<ProcKey>)
    requires Ranked(Links(nodes), rank) && IsClimb(Show(nodes), path)
    ensures |path| > 1 ==> path[|path| - 1] in Above(Links(nodes), rank, path[0])
  {
    if |path| > 1 {
      var rest := path[1..];
      assert Show(nodes)[path[0]].parent == Some(path[1]);
      assert forall i :: 0 <= i < |rest| ==> rest[i] == path[i + 1];
      ClimbIsAbove(nodes, rank, rest);
    }
  }

  lemma NeededIsWanted(nodes: Nodes, rank: Ranks, k: ProcKey)
    requires Ranked(Links(nodes), rank) && k in nodes
    ensures k in Needed(nodes, rank) <==> Wanted(Show(nodes), k)
  {
    var up, live := Ups(Links(nodes), rank), Live(nodes);
    if nodes[k].alive {
      assert IsClimb(Show(nodes), [k]) && Show(nodes)[[k][0]].alive;
    } else if k in Needed(nodes, rank) {
      var d :| d in Under(up, live, k);
      var path := ClimbTo(nodes, rank, d, k);
      assert Show(nodes)[path[0]].alive;
    }
    if Wanted(Show(nodes), k) {
      var path :| IsClimb(Show(nodes), path) && Show(nodes)[path[0]].alive && path[|path| - 1] == k;
      ClimbIsAbove(nodes, rank, path);
      assert |path| > 1 ==> path[0] in Under(up, live, k);
    }
  }

  lemma NeededAreWanted(nodes: Nodes, rank: Ranks)
    requires Ranked(Links(nodes), rank)
    ensures Needed(nodes, rank) == set k | k in Show(nodes) && Wanted(Show(nodes), k)
  {
    forall k | k in nodes ensures k in Needed(nodes, rank) <==> Wanted(Show(nodes), k) { NeededIsWanted(nodes, rank, k); }
  }

  // ---------------------------------------------------------------- walking up from a node

  /** `done` is what has been passed of the nodes in `goal`, `cur` the next one. */
  ghost predicate Climbing(par: Parents, rank: Ranks, cur: Option<ProcKey>, done: set<ProcKey>, goal: set<ProcKey>) {
    && Ranked(par, rank) && (cur.Some? ==> cur.value in par)
    && done + Chain(par, rank, cur) == goal && done !! Chain(par, rank, cur)
  }

  lemma ClimbOn(par: Parents, rank: Ranks, cur: ProcKey, done: set<ProcKey>, goal: set<ProcKey>)
    requires Climbing(par, rank, Some(cur), done, goal)
    ensures cur in goal && cur !in done && RankedAt(par, rank, cur) && Climbing(par, rank, par[cur], done + {cur}, goal)
  {
    assert RankedAt(par, rank, cur);
    AboveRanks(par, rank, cur);
    assert Chain(par, rank, Some(cur)) == {cur} + Chain(par, rank, par[cur]);
  }

  lemma BumpOne(base: Nodes, done: set<ProcKey>, delta: int, k: ProcKey)
    requires k in base && k !in done && Roomy(base, done + {k}, delta)
    ensures Roomy(base, done, delta)
    ensures Bumped(base, done, delta)[k := base[k].(count := base[k].count + delta)] == Bumped(base, done + {k}, delta)
  {}

  // ---------------------------------------------------------------- lineage

  /** A node and its ancestors, up to a root or to a process numbered 1 or less. */
  ghost function Upward(nodes: Nodes, rank: Ranks, k: Option<ProcKey>): seq<ProcKey>
    requires Ranked(Links(nodes), rank) && (k.Some? ==> k.value in nodes)
    decreases if k.Some? then rank[k.value] + 1 else 0
  {
    if k.None? || k.value.pid <= 1 then []
    else
      assert RankedAt(Links(nodes), rank, k.value);
      [k.value] + Upward(nodes, rank, nodes[k.value].parent)
  }

  /** Following responsible links from a node for as long as they lead to something not seen yet. */
  ghost function Answering(nodes: Nodes, k: ProcKey, seen: set<ProcKey>): seq<ProcKey>
    requires k in nodes
    decreases nodes.Keys - seen
  {
    var r := nodes[k].info.responsible;
    if r !in nodes || r in seen then [] else [r] + Answering(nodes, r, seen + {r})
  }

  ghost function Elements(s: seq<ProcKey>): set<ProcKey> {
    set k | k in s
  }

  ghost function Lineage(nodes: Nodes, rank: Ranks, k: ProcKey): seq<ProcKey>
    requires Ranked(Links(nodes), rank) && k in nodes
  {
    var ups := Upward(nodes, rank, Some(k));
    var both := ups + Answering(nodes, k, Elements(ups));
    if k in both then both else both + [k]
  }

  ghost predicate Infos(nodes: Nodes, keys: seq<ProcKey>, infos: seq<Info>) {
    |infos| == |keys| && forall i :: 0 <= i < |keys| ==> keys[i] in nodes && infos[i] == nodes[keys[i]].info
  }

  /** The nodes passed on the way up are younger than the one to come. */
  ghost predicate Passed(rank: Ranks, keys: seq<ProcKey>, cur: Option<ProcKey>, visited: set<ProcKey>) {
    && visited == Elements(keys)
    && (cur.Some? && cur.value in rank ==> forall u :: u in visited ==> u in rank && rank[cur.value] < rank[u])
  }

  ghost predicate Keyed(nodes: Nodes) {
    forall k :: k in nodes ==> nodes[k].info.key == k
  }

  lemma DistinctJoin(a: seq<ProcKey>, b: seq<ProcKey>)
    requires Distinct(a) && Distinct(b) && Elements(a) !! Elements(b)
    ensures Distinct(a + b)
  {
    forall i, j | 0 <= i < j < |a + b| ensures (a + b)[i] != (a + b)[j] {
      if i < |a| <= j { assert a[i] in Elements(a) && b[j - |a|] in Elements(b); }
    }
  }

  lemma UpwardStep(nodes: Nodes, rank: Ranks, keys: seq<ProcKey>, k: ProcKey)
    requires Ranked(Links(nodes), rank) && k in nodes && k.pid > 1
    ensures RankedAt(Links(nodes), rank, k)
    ensures keys + Upward(nodes, rank, Some(k)) == (keys + [k]) + Upward(nodes, rank, nodes[k].parent)
  {
    assert RankedAt(Links(nodes), rank, k);
    Regroup(keys, k, Upward(nodes, rank, nodes[k].parent));
  }

  lemma Regroup(a: seq<ProcKey>, k: ProcKey, b: seq<ProcKey>)
    ensures a + ([k] + b) == (a + [k]) + b
  {}

  lemma {:induction false} UpwardDistinct(nodes: Nodes, rank: Ranks, k: ProcKey)
    requires Ranked(Links(nodes), rank) && k in nodes
    ensures Distinct(Upward(nodes, rank, Some(k)))
    ensures forall u :: u in Upward(nodes, rank, Some(k)) ==> u in nodes && rank[u] <= rank[k]
    decreases rank[k]
  {
    assert RankedAt(Links(nodes), rank, k);
    if k.pid > 1 && nodes[k].parent.Some? { UpwardDistinct(nodes, rank, nodes[k].parent.value); }
  }

  lemma {:induction false} AnsweringDistinct(nodes: Nodes, k: ProcKey, seen: set<ProcKey>)
    requires k in nodes
    ensures Distinct(Answering(nodes, k, seen))
    ensures forall u :: u in Answering(nodes, k, seen) ==> u in nodes && u !in seen
    decreases nodes.Keys - seen
  {
    var r := nodes[k].info.responsible;
    if r in nodes && r !in seen { AnsweringDistinct(nodes, r, seen + {r}); }
  }

  /** No process is listed twice, even when responsible links form a cycle; the process itself is listed. */
  lemma LineageDistinct(nodes: Nodes, rank: Ranks, k: ProcKey)
    requires Ranked(Links(nodes), rank) && k in nodes
    ensures Distinct(Lineage(nodes, rank, k)) && k in Lineage(nodes, rank, k)
    ensures Elements(Lineage(nodes, rank, k)) <= nodes.Keys
  {
    var ups := Upward(nodes, rank, Some(k));
    var answering := Answering(nodes, k, Elements(ups));
    UpwardDistinct(nodes, rank, k);
    AnsweringDistinct(nodes, k, Elements(ups));
    DistinctJoin(ups, answering);
    if k !in ups + answering { DistinctJoin(ups + answering, [k]); }
  }

  /** The process responsible for another one. */
  ghost function ResponsibleOf(nodes: Nodes, k: ProcKey): ProcKey
    requires k in nodes
  {
    nodes[k].info.responsible
  }

  /** Whom entry i of a list behind its first `from` entries follows: the entry before, or k. */
  ghost function Before(list: seq<ProcKey>, from: nat, i: nat, k: ProcKey): ProcKey
    requires from <= i <= |list|
  {
    if i == from then k else list[i - 1]
  }

  /**
   list[from..e] is the responsible chain of k: each entry is responsible for the one before it, and the chain
   ends where the next one is not stored or is listed already.
   */
  ghost predicate IsChain(nodes: Nodes, list: seq<ProcKey>, from: nat, e: nat, k: ProcKey)
    requires k in nodes
  {
    && from <= e <= |list| && (forall i :: from <= i < e ==> list[i] in nodes)
    && (forall i :: from <= i < e ==> list[i] == ResponsibleOf(nodes, Before(list, from, i, k)))
    && (var next := ResponsibleOf(nodes, Before(list, from, e, k)); next !in nodes || next in list[..e])
  }

  lemma {:induction false} AnsweringIsChain(nodes: Nodes, listed: seq<ProcKey>, k: ProcKey)
    requires k in nodes
    ensures IsChain(nodes, listed + Answering(nodes, k, Elements(listed)), |listed|, |listed + Answering(nodes, k, Elements(listed))|, k)
    decreases nodes.Keys - Elements(listed)
  {
    var r := ResponsibleOf(nodes, k);
    var rest := Answering(nodes, k, Elements(listed));
    if r !in nodes || r in listed {
      assert rest == [] && listed + rest == listed;
      assert listed[..|listed|] == listed;
    } else {
      var more := listed + [r];
      assert Elements(more) == Elements(listed) + {r};
      AnsweringIsChain(nodes, more, r);
      ChainGrows(nodes, listed, k, r, Answering(nodes, r, Elements(more)));
    }
  }

  lemma ChainGrows(nodes: Nodes, listed: seq<ProcKey>, k: ProcKey, r: ProcKey, rest: seq<ProcKey>)
    requires k in nodes && r in nodes && r == ResponsibleOf(nodes, k)
    requires IsChain(nodes, (listed + [r]) + rest, |listed| + 1, |listed| + 1 + |rest|, r)
    ensures IsChain(nodes, listed + ([r] + rest), |listed|, |listed| + 1 + |rest|, k)
  {
    var list, n := listed + ([r] + rest), |listed|;
    assert list == (listed + [r]) + rest;
    assert list[n] == r;
    forall i | n <= i < |list| ensures list[i] in nodes && list[i] == ResponsibleOf(nodes, Before(list, n, i, k)) {
      if i > n { assert Before(list, n, i, k) == Before(list, n + 1, i, r); }
    }
    assert Before(list, n, |list|, k) == Before(list, n + 1, |list|, r);
  }

  /**
   Behind the climb the lineage is the responsible chain of k, followed by k itself exactly if neither the climb nor
   the chain lists it.
   */
  lemma LineageGoesOn(nodes: Nodes, rank: Ranks, k: ProcKey) returns (e: nat)
    requires Ranked(Links(nodes), rank) && k in nodes
    ensures var list, from := Lineage(nodes, rank, k), |Upward(nodes, rank, Some(k))|;
            && e <= |list| && IsChain(nodes, list, from, e, k)
            && list[e..] == (if k in list[..e] then [] else [k])
  {
    var ups := Upward(nodes, rank, Some(k));
    var both := ups + Answering(nodes, k, Elements(ups));
    AnsweringIsChain(nodes, ups, k);
    e := |both|;
    var list := Lineage(nodes, rank, k);
    assert list[..e] == both;
    ChainPrefix(nodes, both, list, |ups|, e, k);
  }

  lemma ChainPrefix(nodes: Nodes, list: seq<ProcKey>, list': seq<ProcKey>, from: nat, e: nat, k: ProcKey)
    requires k in nodes && |list| == e && IsChain(nodes, list, from, e, k) && e <= |list'| && list'[..e] == list
    ensures IsChain(nodes, list', from, e, k)
  {
    assert list[..e] == list;
    assert forall i :: 0 <= i < e ==> list'[i] == list[i];
    assert forall i :: from <= i <= e ==> Before(list', from, i, k) == Before(list, from, i, k);
  }

  /** A stored process responsible for k is always in the lineage of k. */
  lemma ResponsibleIsListed(nodes: Nodes, rank: Ranks, k: ProcKey)
    requires Ranked(Links(nodes), rank) && k in nodes && ResponsibleOf(nodes, k) in nodes
    ensures ResponsibleOf(nodes, k) in Lineage(nodes, rank, k)
  {
    var list, from := Lineage(nodes, rank, k), |Upward(nodes, rank, Some(k))|;
    var e := LineageGoesOn(nodes, rank, k);
    if from < e { assert list[from] == ResponsibleOf(nodes, Before(list, from, from, k)); }
    else { assert ResponsibleOf(nodes, k) in list[..e]; }
  }

  /** The lineage of an ordinary process begins with the climb to its root, or to just below process 1. */
  lemma LineageBegins(nodes: Nodes, rank: Ranks, k: ProcKey)
    requires Ranked(Links(nodes), rank) && k in nodes
    ensures Upward(nodes, rank, Some(k)) <= Lineage(nodes, rank, k)
    ensures if k.pid > 1 then ClimbsOut(nodes, Upward(nodes, rank, Some(k)), k) else Upward(nodes, rank, Some(k)) == []
  {
    if k.pid > 1 { UpwardClimbs(nodes, rank, k); }
  }

  /** A climb over processes numbered above 1, to one without a parent or whose parent is numbered 1 or less. */
  ghost predicate ClimbsOut(nodes: Nodes, path: seq<ProcKey>, k: ProcKey) {
    && IsClimb(Show(nodes), path) && path[0] == k && StopsAt(nodes, path[|path| - 1])
    && forall i :: 0 <= i < |path| ==> path[i].pid > 1
  }

  ghost predicate StopsAt(nodes: Nodes, k: ProcKey) {
    k in nodes && (nodes[k].parent.Some? ==> nodes[k].parent.value.pid <= 1)
  }

  lemma {:induction false} UpwardClimbs(nodes: Nodes, rank: Ranks, k: ProcKey)
    requires Ranked(Links(nodes), rank) && k in nodes && k.pid > 1
    ensures ClimbsOut(nodes, Upward(nodes, rank, Some(k)), k)
    decreases rank[k]
  {
    assert RankedAt(Links(nodes), rank, k);
    var p := nodes[k].parent;
    if p.Some? && p.value.pid > 1 {
      UpwardClimbs(nodes, rank, p.value);
      ClimbCons(nodes, k, p.value, Upward(nodes, rank, p));
    } else {
      assert Upward(nodes, rank, Some(k)) == [k];
    }
  }

  lemma ClimbCons(nodes: Nodes, k: ProcKey, p: ProcKey, rest: seq<ProcKey>)
    requires k in nodes && k.pid > 1 && nodes[k].parent == Some(p) && ClimbsOut(nodes, rest, p)
    ensures ClimbsOut(nodes, [k] + rest, k)
  {
    var path, shown := [k] + rest, Show(nodes);
    forall i | 0 <= i < |path| ensures path[i] in shown && path[i].pid > 1 { assert i > 0 ==> path[i] == rest[i - 1]; }
    forall i | 0 < i < |path| ensures shown[path[i - 1]].parent == Some(path[i]) {
      assert path[i] == rest[i - 1];
      if i > 1 { assert path[i - 1] == rest[i - 2] && shown[rest[i - 2]].parent == Some(rest[i - 1]); }
    }
  }

  ghost predicate Dated(nodes: Nodes, rank: Ranks, clock: nat) {
    forall k :: k in nodes && k in rank ==> rank[k] < clock
  }

  class Tree {
    var nodes: Nodes
    ghost var rank: Ranks
    ghost var clock: nat

    ghost predicate Valid()
      reads this
    {
      Sound(nodes, rank) && Dated(nodes, rank, clock)
    }

    constructor ()
      ensures Valid() && nodes == map[]
    {
      nodes, rank, clock := map[], map[], 0;
    }

    /** One more live process below a node and all its ancestors. */
    method RaiseCounts(from: ProcKey, ghost goal: set<ProcKey>)
      requires Ranked(Links(nodes), rank) && from in nodes && goal == Chain(Links(nodes), rank, Some(from))
      modifies this`nodes
      ensures nodes == Bumped(old(nodes), goal, 1)
    {
      ghost var base, par := nodes, Links(nodes);
      ghost var done: set<ProcKey> := {};
      var pcur := Some(from);
      while pcur.Some?
        invariant Climbing(par, rank, pcur, done, goal)
        invariant nodes == Bumped(base, done, 1)
        decreases if pcur.Some? then rank[pcur.value] + 1 else 0
      {
        var k := pcur.value;
        ClimbOn(par, rank, k, done, goal);
        BumpOne(base, done, 1, k);
        nodes := nodes[k := nodes[k].(count := nodes[k].count + 1)];
        pcur := nodes[k].parent;
        done := done + {k};
      }
    }

    /** One live process less below all these ancestors; the guard never skips one of them. */
    method LowerCounts(from: Option<ProcKey>, ghost goal: set<ProcKey>)
      requires Ranked(Links(nodes), rank) && (from.Some? ==> from.value in nodes) && goal == Chain(Links(nodes), rank, from)
      requires Roomy(nodes, goal, -1)
      modifies this`nodes
      ensures nodes == Bumped(old(nodes), goal, -1)
    {
      ghost var base, par := nodes, Links(nodes);
      ghost var done: set<ProcKey> := {};
      var pcur := from;
      while pcur.Some?
        invariant Climbing(par, rank, pcur, done, goal)
        invariant Roomy(base, goal, -1) && done <= goal && nodes == Bumped(base, done, -1)
        decreases if pcur.Some? then rank[pcur.value] + 1 else 0
      {
        var k := pcur.value;
        ClimbOn(par, rank, k, done, goal);
        BumpOne(base, done, -1, k);
        if nodes[k].count > 0 { nodes := nodes[k := nodes[k].(count := nodes[k].count - 1)]; }
        pcur := nodes[k].parent;
        done := done + {k};
      }
    }

    method AddProcess(info: Info)
      requires Valid()
      modifies this
      ensures Valid()
      ensures Show(nodes) == Grown(Show(old(nodes)), info)
    {
      if info.key in nodes { return; }
      LeafAdded(nodes, rank, clock, info);
      LinkNew(info);
      rank := rank[info.key := clock];
      clock := clock + 1;
    }

    /** The new node under its parent, if that is stored, and counted by all its ancestors. */
    method LinkNew(info: Info)
      requires Ranked(Links(nodes), rank) && info.key !in nodes
      modifies this`nodes
      ensures nodes == Added(old(nodes), rank, info)
    {
      ChildLinks(nodes, StoredParent(nodes, info), info.key);
      var parent: Option<ProcKey> := None;
      if info.parent in nodes {
        parent := Some(info.parent);
        nodes := nodes[info.parent := nodes[info.parent].(children := nodes[info.parent].children + [info.key])];
        RaiseCounts(info.parent, Chain(Links(nodes), rank, parent));
      }
      BumpNothing(nodes);
      nodes := nodes[info.key := Node(info, parent, [], true, 0)];
    }

    method MarkProcessDead(key: ProcKey)
      requires Valid()
      modifies this
      ensures Valid()
      ensures Show(nodes) == Died(Show(old(nodes)), key)
    {
      if key in nodes && nodes[key].alive {
        Bury(key);
      } else {
        assert Died(Show(nodes), key) == Show(nodes);
      }
    }

    /** Marks a live process dead, lowers its ancestors' counts and cleans up. */
    method Bury(key: ProcKey)
      requires Sound(nodes, rank) && Dated(nodes, rank, clock) && key in nodes && nodes[key].alive
      modifies this`nodes
      ensures Buried(old(nodes), rank, clock, key, nodes)
    {
      ghost var rest := Death(nodes, rank, clock, key);
      LowerAndClean(key, rest);
    }

    method LowerAndClean(key: ProcKey, ghost rest: Nodes)
      requires Dying(nodes, rank, key, rest)
      modifies this`nodes
      ensures nodes == rest
    {
      Lower(key);
      Cleanup(key);
    }

    method Cleanup(key: ProcKey)
      requires Settling(nodes, rank, Some(key))
      modifies this`nodes
      ensures nodes == Pruned(old(nodes), rank, Some(key))
    {
      SettlingPrunable(nodes, rank, Some(key));
      MinusNothing(nodes);
      TryCleanup(key, {});
      MinusNothing(nodes);
    }

    method Lower(key: ProcKey)
      requires Ranked(Links(nodes), rank) && key in nodes && Lowers(nodes, rank, key)
      modifies this`nodes
      ensures nodes == Lowered(old(nodes), rank, key)
    {
      nodes := nodes[key := nodes[key].(alive := false)];
      DeadLinks(old(nodes), key);
      LowerCounts(nodes[key].parent, Above(Links(nodes), rank, key));
    }

    method GetProcessInfo(key: ProcKey) returns (info: Option<Info>)
      requires Valid()
      ensures info == if key in nodes then Some(Show(nodes)[key].info) else None
    {
      info := if key in nodes then Some(nodes[key].info) else None;
    }

    /** The infos of the parent chain, then of the responsible chain, then of the process itself. */
    method GetProcLineage(key: ProcKey) returns (result: seq<Info>)
      requires Valid()
      ensures key !in nodes ==> result == []
      ensures key in nodes ==> Infos(nodes, Lineage(nodes, rank, key), result)
    {
      if key !in nodes { return []; }
      assert Keyed(nodes) by { assert forall k :: k in nodes ==> Linked(nodes, k); }
      var visited;
      result, visited := ListParents(key);
      result, visited := ListResponsible(key, result, visited, Upward(nodes, rank, Some(key)));
      if key !in visited { result := result + [nodes[key].info]; }
    }

    method ListParents(key: ProcKey) returns (result: seq<Info>, visited: set<ProcKey>)
      requires Ranked(Links(nodes), rank) && Keyed(nodes) && key in nodes
      ensures Infos(nodes, Upward(nodes, rank, Some(key)), result) && visited == Elements(Upward(nodes, rank, Some(key)))
    {
      result, visited := [], {};
      ghost var keys: seq<ProcKey> := [];
      var cur := Some(key);
      while cur.Some? && nodes[cur.value].info.key.pid > 1
        invariant cur.Some? ==> cur.value in nodes
        invariant keys + Upward(nodes, rank, cur) == Upward(nodes, rank, Some(key))
        invariant Passed(rank, keys, cur, visited) && Infos(nodes, keys, result)
        decreases if cur.Some? then rank[cur.value] + 1 else 0
      {
        var k := cur.value;
        UpwardStep(nodes, rank, keys, k);
        if k in visited { break; }
        visited := visited + {k};
        result := result + [nodes[k].info];
        keys := keys + [k];
        cur := nodes[k].parent;
      }
    }

    method ListResponsible(key: ProcKey, listed: seq<Info>, seen: set<ProcKey>, ghost ups: seq<ProcKey>)
      returns (result: seq<Info>, visited: set<ProcKey>)
      requires key in nodes && Infos(nodes, ups, listed) && seen == Elements(ups)
      ensures Infos(nodes, ups + Answering(nodes, key, seen), result) && visited == Elements(ups + Answering(nodes, key, seen))
    {
      result, visited := listed, seen;
      ghost var keys := ups;
      var cur := key;
      while nodes[cur].info.responsible in nodes
        invariant cur in nodes && visited == Elements(keys)
        invariant keys + Answering(nodes, cur, visited) == ups + Answering(nodes, key, seen)
        invariant Infos(nodes, keys, result)
        decreases nodes.Keys - visited
      {
        var r := nodes[cur].info.responsible;
        if r in visited { break; }
        visited := visited + {r};
        result := result + [nodes[r].info];
        keys := keys + [r];
        cur := r;
      }
    }

    /** `aside` holds the nodes below that are already off their parents' lists but not yet erased. */
    method TryCleanup(k: ProcKey, ghost aside: set<ProcKey>)
      requires aside <= nodes.Keys && k !in aside && Prunable(nodes - aside, rank, Some(k))
      modifies this`nodes
      ensures Cleaned(old(nodes), rank, Some(k), aside, nodes)
      decreases rank[k]
    {
      var n := nodes[k];
      if !n.alive && n.count == 0 {
        ghost var mid := nodes;
        if n.parent.Some? {
          var p := n.parent.value;
          DetachAside(nodes, rank, aside, k, p);
          nodes := nodes[p := nodes[p].(children := Without(nodes[p].children, k))];
          mid := nodes;
          TryCleanup(p, aside + {k});
        } else {
          RootAside(nodes, aside, k);
        }
        EraseAside(old(nodes), rank, aside, k, mid, nodes);
        nodes := nodes - {k};
      } else {
        StaysAside(nodes, rank, aside, k);
      }
    }
  }

  /** A cascade has run on the nodes that are not set aside. */
  ghost predicate Cleaned(before: Nodes, rank: Ranks, k: Option<ProcKey>, aside: set<ProcKey>, now: Nodes) {
    && Ranked(Links(before - aside), rank) && (k.Some? ==> k.value in before - aside)
    && aside <= now.Keys && aside <= before.Keys
    && now - aside == Pruned(before - aside, rank, k)
    && forall d :: d in aside ==> now[d] == before[d]
  }

  lemma StaysAside(nodes: Nodes, rank: Ranks, aside: set<ProcKey>, k: ProcKey)
    requires aside <= nodes.Keys && k !in aside && k in nodes && Ranked(Links(nodes - aside), rank) && !Ripe(nodes[k])
    ensures Cleaned(nodes, rank, Some(k), aside, nodes)
  {}

  lemma RootAside(nodes: Nodes, aside: set<ProcKey>, k: ProcKey)
    requires k in nodes && k !in aside && nodes[k].parent == None
    ensures nodes - (aside + {k}) == Dropped(nodes - aside, k)
  {}

  /** Taking a ripe node off its parent's list leaves the cascade to go on from there. */
  lemma DetachAside(nodes: Nodes, rank: Ranks, aside: set<ProcKey>, k: ProcKey, p: ProcKey)
    requires aside <= nodes.Keys && k !in aside && Prunable(nodes - aside, rank, Some(k)) && Ripe(nodes[k]) && nodes[k].parent == Some(p)
    ensures p in nodes && p !in aside && p != k && rank[p] < rank[k]
    ensures var nodes' := nodes[p := nodes[p].(children := Without(nodes[p].children, k))];
            nodes' - (aside + {k}) == Dropped(nodes - aside, k) && Prunable(nodes' - (aside + {k}), rank, Some(p))
  {
    assert RankedAt(Links(nodes - aside), rank, k);
    DroppedAside(nodes, aside, k, p);
  }

  lemma DroppedAside(nodes: Nodes, aside: set<ProcKey>, k: ProcKey, p: ProcKey)
    requires k in nodes && k !in aside && nodes[k].parent == Some(p) && p in nodes && p !in aside && p != k
    ensures nodes[p := nodes[p].(children := Without(nodes[p].children, k))] - (aside + {k}) == Dropped(nodes - aside, k)
  {}

  /** Erasing the node last completes its part of the cascade. */
  lemma EraseAside(before: Nodes, rank: Ranks, aside: set<ProcKey>, k: ProcKey, mid: Nodes, now: Nodes)
    requires aside <= before.Keys && k !in aside && Prunable(before - aside, rank, Some(k)) && Ripe(before[k])
    requires mid - (aside + {k}) == Dropped(before - aside, k) && forall d :: d in aside ==> d in mid && mid[d] == before[d]
    requires if before[k].parent.None? then now == mid else Cleaned(mid, rank, before[k].parent, aside + {k}, now)
    ensures Cleaned(before, rank, Some(k), aside, now - {k})
  {
    DropAside(now, aside, k);
  }

  lemma BumpNothing(nodes: Nodes)
    ensures Bumped(nodes, {}, 1) == nodes
  {}

  lemma MinusNothing(nodes: Nodes)
    ensures nodes - {} == nodes
  {}

  lemma ChildLinks(nodes: Nodes, p: Option<ProcKey>, key: ProcKey)
    requires p.Some? ==> p.value in nodes
    ensures Links(WithChild(nodes, p, key)) == Links(nodes)
  {}

  lemma DeadLinks(nodes: Nodes, key: ProcKey)
    requires key in nodes
    ensures Links(Marked(nodes, key)) == Links(nodes)
  {}

  lemma DropAside(nodes: Nodes, aside: set<ProcKey>, k: ProcKey)
    ensures (nodes - {k}) - aside == nodes - (aside + {k})
    ensures (nodes - {k}) - aside == (nodes - aside) - {k}
  {}

  /** The tree once a new process is in: linked to its parent and counted by all its ancestors. */
  ghost function Added(nodes: Nodes, rank: Ranks, info: Info): Nodes
    requires Ranked(Links(nodes), rank)
  {
    var p := StoredParent(nodes, info);
    Bumped(WithChild(nodes, p, info.key), Chain(Links(nodes), rank, p), 1)[info.key := Node(info, p, [], true, 0)]
  }

  lemma LeafAdded(nodes: Nodes, rank: Ranks, clock: nat, info: Info)
    requires Sound(nodes, rank) && Dated(nodes, rank, clock) && info.key !in nodes
    ensures Sound(Added(nodes, rank, info), rank[info.key := clock])
    ensures Dated(Added(nodes, rank, info), rank[info.key := clock], clock + 1)
    ensures Show(Added(nodes, rank, info)) == Grown(Show(nodes), info)
  {
    AddedIsLeaf(nodes, rank, info);
    LeafValid(nodes, rank, info, rank[info.key := clock], Chain(Links(nodes), rank, StoredParent(nodes, info)));
    LeafShows(nodes, rank, clock, info);
  }

  lemma AddedIsLeaf(nodes: Nodes, rank: Ranks, info: Info)
    requires Ranked(Links(nodes), rank) && info.key !in nodes
    ensures Added(nodes, rank, info) == Bumped(WithLeaf(nodes, info), Chain(Links(nodes), rank, StoredParent(nodes, info)), 1)
  {
    var p := StoredParent(nodes, info);
    LeafIsNew(Links(nodes), rank, info.key, p);
    LeafInserted(nodes, info, Chain(Links(nodes), rank, p));
  }

  lemma LeafShows(nodes: Nodes, rank: Ranks, clock: nat, info: Info)
    requires Ranked(Links(nodes), rank) && Dated(nodes, rank, clock) && info.key !in nodes
    ensures Show(Added(nodes, rank, info)) == Grown(Show(nodes), info)
    ensures Dated(Added(nodes, rank, info), rank[info.key := clock], clock + 1)
  {
    AddedIsLeaf(nodes, rank, info);
    LeafLinks(nodes, info, Chain(Links(nodes), rank, StoredParent(nodes, info)));
  }

  lemma LeafInserted(nodes: Nodes, info: Info, goal: set<ProcKey>)
    requires info.key !in nodes && info.key !in goal
    ensures var p := StoredParent(nodes, info);
            Bumped(WithLeaf(nodes, info), goal, 1) == Bumped(WithChild(nodes, p, info.key), goal, 1)[info.key := Node(info, p, [], true, 0)]
  {}

  /** The decrements of a dying node's ancestors are all possible. */
  ghost predicate Lowers(nodes: Nodes, rank: Ranks, key: ProcKey)
    requires Ranked(Links(nodes), rank) && key in nodes
  {
    && (nodes[key].parent.Some? ==> nodes[key].parent.value in nodes)
    && Above(Links(nodes), rank, key) == Chain(Links(nodes), rank, nodes[key].parent)
    && Roomy(Marked(nodes, key), Above(Links(nodes), rank, key), -1)
  }

  lemma DeathLowers(nodes: Nodes, rank: Ranks, key: ProcKey)
    requires Ranked(Links(nodes), rank) && Counted(nodes, Ups(Links(nodes), rank)) && key in nodes && nodes[key].alive
    ensures Lowers(nodes, rank, key)
  {
    var at := Above(Links(nodes), rank, key);
    assert RankedAt(Links(nodes), rank, key);
    assert Roomy(nodes, at, -1) by { AncestorsCount(nodes, Ups(Links(nodes), rank), key); }
    RoomyMarked(nodes, key, at);
  }

  lemma RoomyMarked(nodes: Nodes, key: ProcKey, at: set<ProcKey>)
    requires key in nodes && Roomy(nodes, at, -1)
    ensures Roomy(Marked(nodes, key), at, -1)
  {
    assert forall k :: k in nodes ==> Marked(nodes, key)[k].count == nodes[k].count;
  }

  ghost function Lowered(nodes: Nodes, rank: Ranks, key: ProcKey): Nodes
    requires Ranked(Links(nodes), rank) && key in nodes && Roomy(Marked(nodes, key), Above(Links(nodes), rank, key), -1)
  {
    Bumped(Marked(nodes, key), Above(Links(nodes), rank, key), -1)
  }

  /** After a death and the cascade the tree is sound and shows what the reference shows. */
  lemma DeathSettles(nodes: Nodes, rank: Ranks, clock: nat, key: ProcKey)
    requires Sound(nodes, rank) && Dated(nodes, rank, clock) && key in nodes && nodes[key].alive
    requires Lowers(nodes, rank, key)
    ensures Settling(Lowered(nodes, rank, key), rank, Some(key))
    ensures var rest := Pruned(Lowered(nodes, rank, key), rank, Some(key));
            Sound(rest, rank) && Dated(rest, rank, clock) && Show(rest) == Died(Show(nodes), key)
  {
    MarkedForest(nodes, rank, key, Above(Links(nodes), rank, key));
    MarkedLinks(nodes, key, Above(Links(nodes), rank, key));
    PrunedValid(Lowered(nodes, rank, key), rank, Some(key));
    DeathShows(nodes, rank, key);
    PrunedDated(Lowered(nodes, rank, key), rank, clock, Some(key));
  }

  /** What one death does to the tree. */
  lemma Death(nodes: Nodes, rank: Ranks, clock: nat, key: ProcKey) returns (rest: Nodes)
    requires Sound(nodes, rank) && Dated(nodes, rank, clock) && key in nodes && nodes[key].alive
    ensures Dying(nodes, rank, key, rest) && Buried(nodes, rank, clock, key, rest)
  {
    DeathLowers(nodes, rank, key);
    DeathSettles(nodes, rank, clock, key);
    rest := Pruned(Lowered(nodes, rank, key), rank, Some(key));
  }

  /** The steps that lead from a death to what is left of the tree. */
  ghost predicate Dying(nodes: Nodes, rank: Ranks, key: ProcKey, rest: Nodes) {
    && Ranked(Links(nodes), rank) && key in nodes && Lowers(nodes, rank, key)
    && Settling(Lowered(nodes, rank, key), rank, Some(key))
    && rest == Pruned(Lowered(nodes, rank, key), rank, Some(key))
  }

  ghost predicate Buried(nodes: Nodes, rank: Ranks, clock: nat, key: ProcKey, rest: Nodes) {
    Sound(rest, rank) && Dated(rest, rank, clock) && Show(rest) == Died(Show(nodes), key)
  }

  lemma DeathShows(nodes: Nodes, rank: Ranks, key: ProcKey)
    requires Ranked(Links(nodes), rank) && key in nodes && nodes[key].alive
    requires Roomy(Marked(nodes, key), Above(Links(nodes), rank, key), -1)
    requires Ranked(Links(Lowered(nodes, rank, key)), rank)
    ensures Only(Show(Lowered(nodes, rank, key)), Needed(Lowered(nodes, rank, key), rank)) == Died(Show(nodes), key)
  {
    MarkedLinks(nodes, key, Above(Links(nodes), rank, key));
    NeededAreWanted(Lowered(nodes, rank, key), rank);
    assert Show(Marked(nodes, key)) == Show(nodes)[key := Show(nodes)[key].(alive := false)];
  }

  lemma PrunedDated(nodes: Nodes, rank: Ranks, clock: nat, k: Option<ProcKey>)
    requires Settling(nodes, rank, k) && Dated(nodes, rank, clock)
    ensures Dated(Pruned(nodes, rank, k), rank, clock)
  {
    PrunedValid(nodes, rank, k);
    assert forall j :: j in Pruned(nodes, rank, k) ==> j in Show(Pruned(nodes, rank, k));
  }

  // ---------------------------------------------------------------- what a sound tree means, without ranks

  /** A proper ancestor: reached by climbing at least one link. */
  ghost predicate Descends(shown: map<ProcKey, Shown>, d: ProcKey, k: ProcKey) {
    exists path :: IsClimb(shown, path) && |path| > 1 && path[0] == d && path[|path| - 1] == k
  }

  lemma DescendsIsAbove(nodes: Nodes, rank: Ranks, d: ProcKey, k: ProcKey)
    requires Ranked(Links(nodes), rank) && d in nodes
    ensures Descends(Show(nodes), d, k) <==> k in Above(Links(nodes), rank, d)
  {
    AboveRanks(Links(nodes), rank, d);
    if k in Above(Links(nodes), rank, d) {
      var path := ClimbTo(nodes, rank, d, k);
      assert path[0] != path[|path| - 1];
    }
    if Descends(Show(nodes), d, k) {
      var path :| IsClimb(Show(nodes), path) && |path| > 1 && path[0] == d && path[|path| - 1] == k;
      ClimbIsAbove(nodes, rank, path);
    }
  }

  /** Nobody is its own ancestor; counts are exact; whatever is stored is alive or has a live descendant. */
  lemma SoundMeans(nodes: Nodes, rank: Ranks, k: ProcKey)
    requires Sound(nodes, rank) && k in nodes
    ensures !Descends(Show(nodes), k, k)
    ensures nodes[k].count == |set d | d in nodes && nodes[d].alive && Descends(Show(nodes), d, k)|
    ensures Wanted(Show(nodes), k)
  {
    AboveRanks(Links(nodes), rank, k);
    DescendsIsAbove(nodes, rank, k, k);
    forall d | d in nodes ensures Descends(Show(nodes), d, k) <==> k in Above(Links(nodes), rank, d) { DescendsIsAbove(nodes, rank, d, k); }
    assert (set d | d in nodes && nodes[d].alive && Descends(Show(nodes), d, k)) == Under(Ups(Links(nodes), rank), Live(nodes), k);
    AllNeeded(nodes, rank);
    NeededIsWanted(nodes, rank, k);
  }

  datatype Call = Add(info: Info) | Die(key: ProcKey)

  ghost function History(calls: seq<Call>): map<ProcKey, Shown> {
    if calls == [] then map[]
    else
      var before := History(calls[..|calls| - 1]);
      match calls[|calls| - 1]
      case Add(info) => Grown(before, info)
      case Die(key) => Died(before, key)
  }

  /** Any run of calls leaves a sound tree that shows what the reference shows. */
  method Replay(calls: seq<Call>) returns (tree: Tree)
    ensures tree.Valid() && Show(tree.nodes) == History(calls)
  {
    tree := new Tree();
    for i := 0 to |calls|
      invariant fresh(tree) && tree.Valid() && Show(tree.nodes) == History(calls[..i])
    {
      assert calls[..i + 1][..i] == calls[..i];
      match calls[i] {
        case Add(info) => tree.AddProcess(info);
        case Die(key) => tree.MarkProcessDead(key);
      }
    }
    assert calls[..|calls|] == calls;
  }
}
