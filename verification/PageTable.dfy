/**
 XeMemory::PageTable: a four-level radix tree edited in place in a pool of table pages.
 Every method is proved to be the step of the same name on the finite map of PageTableSpec.
 */
module PageTable {
  import opened Arithmetic
  import opened PteFormat
  import opened PageTableSpec
  import opened PageTableTree

  const MAX_PAGES: nat := 128

  datatype Edge = Edge(parent: nat, child: nat, index: nat)

  /** What initialize demands of the pool: encodable, distinct DMA pages in CPU buffers that do not overlap. */
  predicate PoolEntryOk(pool: seq<Page>, pat: nat, i: nat)
    requires i < |pool|
  {
    var cpu := pool[i].cpu;
    cpu != 0 && cpu % 8 == 0 && cpu <= U64 - PAGE && EncodePde(pool[i].dma, pat).Some?
  }

  predicate PoolPairOk(pool: seq<Page>, i: nat, j: nat)
    requires i < |pool| && j < |pool|
  {
    var a, b := pool[i].cpu, pool[j].cpu;
    pool[i].dma != pool[j].dma && (if a <= b then b - a >= PAGE else a - b >= PAGE)
  }

  predicate PoolUsable(pool: seq<Page>, pat: nat) {
    && (forall i: nat | i < |pool| :: PoolEntryOk(pool, pat, i))
    && (forall i: nat, j: nat | j < i < |pool| :: PoolPairOk(pool, i, j))
  }

  function Dmas(pool: seq<Page>): seq<nat> {
    seq(|pool|, i requires 0 <= i < |pool| => pool[i].dma)
  }

  class PageTable {
    var ready: bool
    var pool: seq<Page>
    var words: seq<seq<nat>>
    var nodes: seq<Node>
    var mappings: nat
    var owner: nat
    var tablePat: nat
    var sealed: bool
    ghost var tab: map<Key, nat>
    ghost var home: seq<Key>
    ghost var m: map<nat, nat>

    ghost function T(): Tree
      reads this
    {
      Tree(pool, tablePat, words, nodes, tab, home, m)
    }

    /** The tree is well formed, holds exactly the needed tables, maps none of them, and the counter is exact. */
    ghost predicate Valid()
      reads this
    {
      if ready then Exact() && mappings == |m| && Guarded(m, Dmas(pool)) else !sealed
    }

    /** The tree holds exactly the tables its pages need. */
    ghost predicate Exact()
      reads this
    {
      |pool| <= MAX_PAGES && Shape(T()) && tab.Keys == Tables(m.Keys)
    }

    /** The abstract state. */
    ghost function View(): Spec
      reads this
    {
      if !ready then Blank else Live(owner, tablePat, Dmas(pool), sealed, m)
    }

    constructor ()
      ensures Valid() && View() == Blank
    {
      ready, pool, words, nodes, mappings, owner, tablePat, sealed := false, [], [], [], 0, 0, 0, false;
      tab, home, m := map[], [], map[];
    }

    method FindDma(dma: nat) returns (slot: nat)
      requires |pool| <= MAX_PAGES
      ensures slot == MAX_PAGES || slot < |pool|
      ensures slot == MAX_PAGES <==> dma !in Dmas(pool)
      ensures slot < |pool| ==> pool[slot].dma == dma
    {
      assert forall i | 0 <= i < |pool| :: pool[i].dma == Dmas(pool)[i];
      for i := 0 to |pool|
        invariant forall j | 0 <= j < i :: pool[j].dma != dma
      {
        if pool[i].dma == dma { return i; }
      }
      return MAX_PAGES;
    }

    method Clear(slot: nat)
      requires slot < |words| && |words[slot]| == FAN
      modifies this`words
      ensures words == old(words)[slot := Zeros()]
    {
      for i := 0 to FAN
        invariant |words| == |old(words)| && |words[slot]| == FAN
        invariant forall s | 0 <= s < |words| && s != slot :: words[s] == old(words)[s]
        invariant forall j | 0 <= j < i :: words[slot][j] == 0
      {
        words := words[slot := words[slot][i := 0]];
      }
      assert words[slot] == Zeros();
    }

    /** The first unused slot, cleared and marked, or `MAX_PAGES` when every slot is used. */
    method Allocate(level: nat) returns (slot: nat)
      requires |words| == |nodes| <= MAX_PAGES && forall s | 0 <= s < |words| :: |words[s]| == FAN
      modifies this`words, this`nodes
      ensures slot <= MAX_PAGES
      ensures slot == MAX_PAGES ==> words == old(words) && nodes == old(nodes)
      ensures slot == MAX_PAGES ==> forall s | 0 <= s < |nodes| :: nodes[s].used
      ensures slot != MAX_PAGES ==> slot < |old(nodes)| == |nodes| && !old(nodes)[slot].used
      ensures slot != MAX_PAGES ==>
                nodes == old(nodes)[slot := Node(true, level)] && words == old(words)[slot := Zeros()]
      ensures slot != MAX_PAGES ==> forall s | 0 <= s < slot :: old(nodes)[s].used
    {
      for i := 0 to |nodes|
        invariant words == old(words) && nodes == old(nodes)
        invariant forall s | 0 <= s < i :: nodes[s].used
      {
        if !nodes[i].used {
          Clear(i);
          nodes := nodes[i := Node(true, level)];
          return i;
        }
      }
      return MAX_PAGES;
    }

    /** The complete pool is validated before anything is consumed. */
    static method CheckPool(newPool: seq<Page>, pat: nat) returns (ok: bool)
      ensures ok <==> PoolUsable(newPool, pat)
    {
      for i := 0 to |newPool|
        invariant forall a: nat | a < i :: PoolEntryOk(newPool, pat, a)
        invariant forall a: nat, b: nat | b < a < i :: PoolPairOk(newPool, a, b)
      {
        if !PoolEntryOk(newPool, pat, i) { return false; }
        for j := 0 to i
          invariant forall b: nat | b < j :: PoolPairOk(newPool, i, b)
        {
          if !PoolPairOk(newPool, i, j) { return false; }
        }
      }
      return true;
    }

    method Install(newOwner: nat, newPool: seq<Page>, buffers: seq<seq<nat>>, pat: nat)
      requires !ready && 1 <= |newPool| <= MAX_PAGES && PoolUsable(newPool, pat)
      requires |buffers| == |newPool| && forall b <- buffers :: |b| == FAN
      modifies this
      ensures ready && Valid() && View() == Live(newOwner, pat, Dmas(newPool), false, map[])
    {
      hide Tables, Shape, PoolUsable, EncodePde, AddressOf, Guarded;
      ready, pool, words, owner, tablePat, sealed, mappings := true, newPool, buffers, newOwner, pat, false, 0;
      nodes := seq(|newPool|, _ => Node(false, 0));
      assert !nodes[0].used;
      var root := Allocate(3);
      tab, m := map[ROOT := root], map[];
      EmptyGuarded(Dmas(newPool));
      home := seq(|newPool|, _ => ROOT);
      EmptyTreeShape(newPool, pat, buffers);
      assert T() == EmptyTree(newPool, pat, buffers);
    }

    /** `buffers` are the caller's CPU pages: their old words do not matter. */
    method Initialize(newOwner: nat, newPool: seq<Page>, buffers: seq<seq<nat>>, pat: nat) returns (status: Status)
      requires Valid()
      requires |buffers| == |newPool| && forall b <- buffers :: |b| == FAN
      modifies this
      ensures Valid()
      ensures status == if old(ready) then Busy
                        else if newOwner == 0 || newPool == [] || |newPool| > MAX_PAGES || pat > 3
                                || !PoolUsable(newPool, pat) then Invalid
                        else Ok
      ensures View() == if status == Ok then Live(newOwner, pat, Dmas(newPool), false, map[]) else old(View())
    {
      hide Tables, Shape, PoolUsable;
      if ready { return Busy; }
      if newOwner == 0 || newPool == [] || |newPool| > MAX_PAGES || pat > 3 { return Invalid; }
      var usable := CheckPool(newPool, pat);
      if !usable { return Invalid; }
      Install(newOwner, newPool, buffers, pat);
      return Ok;
    }

    /** Follows one directory entry through the DMA-to-slot search. Under `Shape` the
        consistency checks never fail. */
    method ChildOf(parent: nat, index: nat, ghost k: Key) returns (status: Status, out: nat)
      requires |pool| <= MAX_PAGES && Shape(T()) && k in tab && tab[k] == parent && 0 < k.level && index < FAN
      ensures status == if Child(k, index) in tab then Ok else NotFound
      ensures status == Ok ==> out == tab[Child(k, index)]
    {
      out := 0;
      var entry := words[parent][index];
      ghost var c := Child(k, index);
      assert entry == Link(T(), c);
      LinkWord(T(), c);
      if entry == 0 { return NotFound, 0; }
      PdeRoundTrip(pool[tab[c]].dma, tablePat);
      var candidate := FindDma(AddressOf(entry));
      assert Dmas(pool)[tab[c]] == AddressOf(entry);
      assert candidate == tab[c];
      if candidate == MAX_PAGES || !nodes[candidate].used || nodes[parent].level == 0 ||
         nodes[candidate].level + 1 != nodes[parent].level || EncodePde(pool[candidate].dma, tablePat) != Some(entry)
      {
        status := Invalid;
        return;
      }
      return Ok, candidate;
    }

    /** The needed tables plus the not needed tables of levels `lo..hi` on one path. */
    ghost predicate Extra(page: nat, lo: nat, hi: nat)
      reads this
    {
      && |pool| <= MAX_PAGES && Shape(T()) && lo <= hi <= 3 && page < PAGES
      && tab.Keys == Tables(m.Keys) + Chain(page, lo, hi)
      && (forall l | lo <= l < hi :: KeyOf(page, l) !in Tables(m.Keys))
    }

    method UndoEdge(edge: Edge, ghost page: nat, ghost lo: nat, ghost hi: nat)
      requires lo < hi && Extra(page, lo, hi)
      requires EditAt(tab, edge, page, lo)
      modifies this`words, this`nodes, this`tab
      ensures Extra(page, lo + 1, hi) && tab == old(tab) - {KeyOf(page, lo)}
    {
      hide Tables, Shape, Chain, Up, Index, EncodePde, Pde;
      ghost var k, i := KeyOf(page, lo + 1), Index(page, lo + 1);
      ghost var before := T();
      ShapeFacts(before);
      PathStep(page, lo + 1);
      ChainBottomIsBare(before, page, lo, hi);
      ChainPop(page, lo, hi);
      DetachKeepsShape(before, k, i, Zeros());
      words := words[edge.parent := words[edge.parent][edge.index := 0]];
      Clear(edge.child);
      nodes := nodes[edge.child := Node(false, 0)];
      tab := tab - {KeyOf(page, lo)};
      assert T() == Detached(before, k, i, Zeros());
    }

    method Rollback(edits: seq<Edge>, ghost page: nat, ghost lo: nat)
      requires Extra(page, lo, lo + |edits|) && EditsMatch(tab, edits, |edits|, page, lo)
      modifies this`words, this`nodes, this`tab
      ensures Exact()
    {
      hide Tables, Shape, Up, Index, Chain;
      var count := |edits|;
      ghost var low := lo;
      while count > 0
        invariant 0 <= count <= |edits| && low == lo + |edits| - count
        invariant Extra(page, low, low + count) && EditsMatch(tab, edits, count, page, low)
      {
        count := count - 1;
        assert EditAt(tab, edits[count], page, low);
        ghost var before := tab;
        UndoEdge(edits[count], page, low, low + count + 1);
        low := low + 1;
        forall j | 0 <= j < count
          ensures EditAt(tab, edits[j], page, low + count - 1 - j)
        {
          assert EditAt(before, edits[j], page, low + count - 1 - j);
        }
      }
      ChainEmpty(page, low);
    }

    /** Links a freshly allocated table below level `level` of the path. */
    method AddTable(page: nat, node: nat, level: nat, ghost hi: nat) returns (next: nat, edge: Edge)
      requires 0 < level <= hi && Extra(page, level, hi)
      requires KeyOf(page, level) in tab && tab[KeyOf(page, level)] == node
      requires KeyOf(page, level - 1) !in tab
      modifies this`words, this`nodes, this`tab, this`home
      ensures next == MAX_PAGES ==> Extra(page, level, hi) && |tab.Keys| == |pool| && tab == old(tab)
      ensures next != MAX_PAGES ==>
                Extra(page, level - 1, hi) && EditAt(tab, edge, page, level - 1) && edge.child == next
      ensures next != MAX_PAGES ==> tab == old(tab)[KeyOf(page, level - 1) := next]
    {
      hide Tables, Shape, Chain, Up, Index, EncodePde, Pde;
      edge := Edge(0, 0, 0);
      ghost var before := T();
      ghost var k := KeyOf(page, level);
      ShapeFacts(before);
      var i := Index(page, level);
      PathStep(page, level);
      next := Allocate(level - 1);
      if next == MAX_PAGES { return; }
      MissingIsBare(before, page, level, hi);
      AttachKeepsShape(before, k, i, next);
      LinkedEntry(pool, tablePat, next);
      var entry := EncodePde(pool[next].dma, tablePat);
      words := words[node := words[node][i := entry.value]];
      edge := Edge(node, next, i);
      tab := tab[KeyOf(page, level - 1) := next];
      home := home[next := KeyOf(page, level - 1)];
      assert T() == Attached(before, k, i, next);
      ChainPop(page, level - 1, hi);
    }

    /** Where the walk down the path of `page` stands before it enters level `level`. */
    ghost predicate OnPath(page: nat, level: nat, node: nat, edits: seq<Edge>)
      reads this
    {
      && Extra(page, level, level + |edits|) && EditsMatch(tab, edits, |edits|, page, level)
      && KeyOf(page, level) in tab && tab[KeyOf(page, level)] == node
      && (level + |edits| < 3 ==> KeyOf(page, level + |edits|) in Tables(m.Keys))
    }

    method DescendMissing(page: nat, level: nat, node: nat, edits: seq<Edge>) returns (next: nat, edits': seq<Edge>)
      requires 0 < level && OnPath(page, level, node, edits) && KeyOf(page, level - 1) !in tab
      modifies this`words, this`nodes, this`tab, this`home
      ensures next != MAX_PAGES ==> OnPath(page, level - 1, next, edits')
      ensures next == MAX_PAGES ==> Exact() && Missing(m.Keys, page) > |pool| - |Tables(m.Keys)|
    {
      hide Tables, Shape, Up, Index, Chain, PathTables, EditsMatch, EditAt;
      ghost var before := tab;
      var edge;
      next, edge := AddTable(page, node, level, level + |edits|);
      edits' := edits + [edge];
      if next == MAX_PAGES {
        Exhausted(T(), page, level, level + |edits|);
        Rollback(edits, page, level);
      } else {
        EditsGrow(before, edits, edge, page, level);
      }
    }

    method DescendPresent(page: nat, level: nat, node: nat, edits: seq<Edge>, next: nat)
      requires 0 < level && OnPath(page, level, node, edits)
      requires KeyOf(page, level - 1) in tab && tab[KeyOf(page, level - 1)] == next
      ensures OnPath(page, level - 1, next, edits)
    {
      hide Tables, Shape, Up, Index, Chain, PathTables, EditAt;
      ChildNeeded(T(), page, level, level + |edits|);
      ChainEmpty(page, level);
      ChainEmpty(page, level - 1);
    }

    method DescendStep(page: nat, level: nat, node: nat, edits: seq<Edge>) returns (next: nat, edits': seq<Edge>)
      requires 0 < level && OnPath(page, level, node, edits)
      modifies this`words, this`nodes, this`tab, this`home
      ensures next != MAX_PAGES ==> OnPath(page, level - 1, next, edits')
      ensures next == MAX_PAGES ==> Exact() && Missing(m.Keys, page) > |pool| - |Tables(m.Keys)|
    {
      hide Tables, Shape, Up, Index, Chain, PathTables, EditsMatch;
      PathStep(page, level);
      IndexBound(page, level);
      ShapeFacts(T());
      var found;
      edits' := edits;
      found, next := ChildOf(node, Index(page, level), KeyOf(page, level));
      if found == NotFound {
        next, edits' := DescendMissing(page, level, node, edits);
      } else {
        DescendPresent(page, level, node, edits, next);
      }
    }

    /** Walks from the root to the leaf table of `page`, adding what is missing; on
        exhaustion everything added is undone. */
    method Descend(page: nat) returns (status: Status, node: nat, edits: seq<Edge>)
      requires ready && Valid() && page < PAGES
      modifies this`words, this`nodes, this`tab, this`home
      ensures status == if Missing(m.Keys, page) > |pool| - |Tables(m.Keys)| then NoSpace else Ok
      ensures status == NoSpace ==> Exact()
      ensures status == Ok ==> OnPath(page, 0, node, edits) && |edits| == Missing(m.Keys, page)
    {
      hide Tables, Shape, Up, Index, Chain, PathTables, EditsMatch;
      PathStart(page);
      ShapeFacts(T());
      ChainEmpty(page, 3);
      NoEdits(tab, page, 3);
      node, edits := Walk(page);
      if node == MAX_PAGES { return NoSpace, 0, []; }
      Complete(T(), page, |edits|);
      return Ok, node, edits;
    }

    /** The walk itself, one level after another. */
    method Walk(page: nat) returns (node: nat, edits: seq<Edge>)
      requires OnPath(page, 3, 0, [])
      modifies this`words, this`nodes, this`tab, this`home
      ensures if node == MAX_PAGES then Exact() && Missing(m.Keys, page) > |pool| - |Tables(m.Keys)|
              else OnPath(page, 0, node, edits)
    {
      hide OnPath, Exact, Tables, Missing;
      var level := 3;
      node, edits := 0, [];
      while level > 0
        invariant 0 <= level && OnPath(page, level, node, edits)
      {
        node, edits := DescendStep(page, level, node, edits);
        if node == MAX_PAGES { return; }
        level := level - 1;
      }
      NodeInRange(page, node, edits);
    }

    lemma NodeInRange(page: nat, node: nat, edits: seq<Edge>)
      requires OnPath(page, 0, node, edits)
      ensures node != MAX_PAGES
    {
      hide Tables, Up, Index, Chain, PathTables, EditsMatch;
      ShapeFacts(T());
    }

    /** Writes one leaf word; `m'` is the map that word makes true. */
    method PutLeaf(page: nat, word: nat, node: nat, ghost m': map<nat, nat>)
      requires Shape(T()) && KeyOf(page, 0) in tab && tab[KeyOf(page, 0)] == node
      requires Pages(m') && Leaf(m', page) == word && Tables(m'.Keys) <= tab.Keys
      requires forall p | p != page :: Leaf(m', p) == Leaf(m, p)
      modifies this`words, this`m
      ensures Shape(T()) && m == m'
    {
      hide Tables, Shape, Up, Index, Leaf;
      ghost var before := T();
      ShapeFacts(before);
      IndexBound(page, 0);
      LeafEditKeepsShape(before, page, word, m');
      var row: seq<nat> := words[node];
      words := words[node := row[Index(page, 0) := word]];
      m := m';
      assert T() == WithLeaf(before, page, word, m);
    }

    /** Stores the leaf entry, or undoes the walk when the page is already mapped. */
    method StoreLeaf(page: nat, pte: nat, node: nat, edits: seq<Edge>) returns (status: Status)
      requires OnPath(page, 0, node, edits) && mappings == |m| && pte % 2 == 1
      modifies this`words, this`nodes, this`tab, this`m, this`mappings
      ensures status == if page in old(m) then Busy else Ok
      ensures m == if status == Ok then old(m)[page := pte] else old(m)
      ensures Exact() && mappings == |m|
    {
      hide Tables, Shape, Up, Index, Chain, PathTables, EditsMatch;
      ShapeFacts(T());
      IndexBound(page, 0);
      LeafWord(T(), page);
      if words[node][Index(page, 0)] != 0 {
        Rollback(edits, page, 0);
        return Busy;
      }
      PathCovered(T(), page, |edits|, pte);
      PutLeaf(page, pte, node, m[page := pte]);
      mappings := mappings + 1;
      return Ok;
    }

    /** Everything after the argument checks: a page that is mapped is busy, and running out of table
        pages leaves the tree as it was. */
    method Insert(page: nat, pte: nat) returns (status: Status)
      requires ready && Valid() && page < PAGES && pte % 2 == 1
      modifies this`words, this`nodes, this`tab, this`home, this`m, this`mappings
      ensures status == if page in old(m) then Busy
                        else if Missing(old(m).Keys, page) > |pool| - |Tables(old(m).Keys)| then NoSpace
                        else Ok
      ensures m == if status == Ok then old(m)[page := pte] else old(m)
      ensures Exact() && mappings == |m|
    {
      hide Tables, Shape, Up, Index, Chain, PathTables, EditsMatch, Guarded;
      MappedNeedsNothing(T(), page);
      var node, edits;
      status, node, edits := Descend(page);
      if status == NoSpace { return; }
      status := StoreLeaf(page, pte, node, edits);
    }

    method Map4K(caller: nat, va: nat, dma: nat, pat: nat, writable: bool) returns (status: Status)
      requires Valid()
      modifies this
      ensures Valid()
      ensures (status, View()) == old(View()).Map(caller, va, dma, pat, writable)
    {
      hide Tables, Shape, Up, Index, Chain, PathTables, EditsMatch, EncodePte4K, Guarded, Missing;
      if !ready || va % PAGE != 0 { return Invalid; }
      if caller != owner { return WrongOwner; }
      if sealed { return Busy; }
      var pte := EncodePte4K(dma, pat, writable);
      if VA_LIMIT <= va || pte.None? { return Invalid; }
      var inPool := FindDma(dma);
      if inPool != MAX_PAGES { return Invalid; }
      var page := va / PAGE;
      PtePresent(dma, pat, writable);
      GuardedAdd(m, Dmas(pool), page, dma, pat, writable);
      status := Insert(page, pte.value);
    }

    method Lookup(caller: nat, va: nat) returns (status: Status, pte: nat)
      requires Valid()
      ensures (status, pte) == View().Lookup(caller, va)
      ensures status == Ok ==> AddressOf(pte) !in View().poolDma
    {
      hide Tables, Shape, Up, Index, Chain;
      pte := 0;
      if !ready || va % PAGE != 0 { return Invalid, 0; }
      if caller != owner { return WrongOwner, 0; }
      if VA_LIMIT <= va { return Invalid, 0; }
      var page := va / PAGE;
      var node, level := 0, 3;
      PathStart(page);
      ShapeFacts(T());
      while level > 0
        invariant 0 <= level <= 3
        invariant KeyOf(page, level) in tab && tab[KeyOf(page, level)] == node
      {
        PathStep(page, level);
        var next;
        status, next := ChildOf(node, Index(page, level), KeyOf(page, level));
        if status != Ok {
          UnmappedBelow(T(), page, level - 1);
          return status, 0;
        }
        node := next;
        level := level - 1;
      }
      IndexBound(page, 0);
      LeafWord(T(), page);
      var entry := words[node][Index(page, 0)];
      if entry == 0 { return NotFound, 0; }
      if entry % 2 == 0 { status := Invalid; return; }
      return Ok, entry;
    }

    /** While pruning: the needed tables plus whatever is left of the path from `level` up. */
    ghost predicate Pruning(page: nat, level: nat, path: seq<nat>)
      reads this
    {
      && |pool| <= MAX_PAGES && Shape(T()) && level <= 3 && |path| == 4 && page < PAGES
      && tab.Keys == Tables(m.Keys) + Chain(page, level, 3)
      && (forall l | level <= l < 4 :: KeyOf(page, l) in tab && tab[KeyOf(page, l)] == path[l])
    }

    method IsEmpty(slot: nat) returns (empty: bool)
      requires slot < |words| && |words[slot]| == FAN
      ensures empty <==> forall i | 0 <= i < FAN :: words[slot][i] == 0
    {
      for i := 0 to FAN
        invariant forall j | 0 <= j < i :: words[slot][j] == 0
      {
        if words[slot][i] != 0 { return false; }
      }
      return true;
    }

    method Unlink(page: nat, level: nat, path: seq<nat>)
      requires level < 3 && Pruning(page, level, path) && Bare(T(), KeyOf(page, level))
      modifies this`words, this`nodes, this`tab
      ensures Pruning(page, level + 1, path)
    {
      hide Tables, Shape, Chain, Up, Index, EncodePde, Pde, Bare;
      ghost var before := T();
      ghost var k, i := KeyOf(page, level + 1), Index(page, level + 1);
      ShapeFacts(before);
      PathStep(page, level + 1);
      BareNotNeeded(before, KeyOf(page, level));
      ChainPop(page, level, 3);
      DetachKeepsShape(before, k, i, words[path[level]]);
      assert KeyOf(page, level).level != k.level;
      DifferentSlots(before, KeyOf(page, level), k);
      words := words[path[level + 1] := words[path[level + 1]][Index(page, level + 1) := 0]];
      nodes := nodes[path[level] := Node(false, 0)];
      tab := tab - {KeyOf(page, level)};
      assert T() == Detached(before, k, i, before.words[path[level]]);
    }

    method Prune(page: nat, path: seq<nat>)
      requires Pruning(page, 0, path)
      modifies this`words, this`nodes, this`tab
      ensures Exact()
    {
      hide Tables, Shape, Chain, Up;
      var level := 0;
      while level < 3
        invariant 0 <= level <= 3 && Pruning(page, level, path)
      {
        ShapeFacts(T());
        var empty := IsEmpty(path[level]);
        if !empty {
          StillNeeded(T(), page, level);
          return;
        }
        NoWordMeansBare(T(), KeyOf(page, level));
        Unlink(page, level, path);
        level := level + 1;
      }
      ChainEmpty(page, 3);
    }

    /** The slots on the path of a mapped page. */
    method Path(page: nat) returns (path: seq<nat>)
      requires ready && Valid() && page in m && page < PAGES
      ensures |path| == 4 && forall l | 0 <= l < 4 :: KeyOf(page, l) in tab && tab[KeyOf(page, l)] == path[l]
    {
      hide Tables, Shape, Up, Index;
      path := [0, 0, 0, 0];
      PathStart(page);
      ShapeFacts(T());
      var level := 3;
      while level > 0
        invariant 0 <= level <= 3 && |path| == 4
        invariant forall l | level <= l < 4 :: KeyOf(page, l) in tab && tab[KeyOf(page, l)] == path[l]
      {
        PathStep(page, level);
        TablesOfPage(m.Keys, page, level - 1);
        var found, next := ChildOf(path[level], Index(page, level), KeyOf(page, level));
        path := path[level - 1 := next];
        level := level - 1;
      }
    }

    /** Clears the leaf word and frees every table of the path that became empty. */
    method Remove(page: nat)
      requires ready && Valid() && page in m && page < PAGES
      modifies this`words, this`nodes, this`tab, this`m, this`mappings
      ensures Exact() && m == old(m) - {page} && mappings == |m|
    {
      hide Tables, Shape, Up, Index, Chain, PathTables;
      var path := Path(page);
      ShapeFacts(T());
      TablesShrink(m, page);
      PutLeaf(page, 0, path[0], m - {page});
      mappings := mappings - 1;
      Prune(page, path);
    }

    method Unmap4K(caller: nat, va: nat) returns (status: Status)
      requires Valid()
      modifies this
      ensures Valid()
      ensures (status, View()) == old(View()).Unmap(caller, va)
    {
      hide Tables, Shape, Up, Index, Chain, PathTables;
      if sealed { return Busy; }
      var ignored;
      status, ignored := Lookup(caller, va);
      if status != Ok { return; }
      Remove(va / PAGE);
    }

    method Seal(caller: nat) returns (status: Status, root: nat)
      requires Valid()
      modifies this`sealed
      ensures Valid() && (status, View()) == old(View()).Seal(caller)
      ensures status == Ok ==> root == pool[0].dma
    {
      hide Tables;
      root := 0;
      if !ready { return Invalid, 0; }
      if caller != owner { return WrongOwner, 0; }
      sealed := true;
      return Ok, pool[0].dma;
    }

    method Call(op: Op) returns (status: Status)
      requires Valid()
      modifies this
      ensures Valid() && (status, View()) == Step(old(View()), op)
    {
      hide Tables, Shape, EncodePte4K, Valid, View;
      match op {
        case MapOp(caller, va, dma, pat, writable) => status := Map4K(caller, va, dma, pat, writable);
        case UnmapOp(caller, va) => status := Unmap4K(caller, va);
        case SealOp(caller) => var root; status, root := Seal(caller);
      }
    }

    /** Any sequence of calls on the tree is the same run on the finite map. */
    method Execute(ops: seq<Op>) returns (statuses: seq<Status>)
      requires Valid()
      modifies this
      ensures Valid() && View() == Run(old(View()), ops)
      ensures View().Live? ==> Guarded(View().m, View().poolDma)
      ensures |statuses| == |ops|
      ensures forall i | 0 <= i < |ops| :: statuses[i] == Step(Run(old(View()), ops[..i]), ops[i]).0
    {
      hide Valid, View, Step;
      statuses := [];
      for n := 0 to |ops|
        invariant Valid() && View() == Run(old(View()), ops[..n])
        invariant |statuses| == n
        invariant forall i | 0 <= i < n :: statuses[i] == Step(Run(old(View()), ops[..i]), ops[i]).0
      {
        var status := Call(ops[n]);
        assert ops[..n + 1][..n] == ops[..n];
        statuses := statuses + [status];
      }
      assert ops[..|ops|] == ops;
      NothingExposed();
    }

    /** No page of the table is ever mapped as data. */
    lemma NothingExposed()
      requires Valid()
      ensures View().Live? ==> Guarded(View().m, View().poolDma)
    {
    }

    /** The number of used slots is the number of tables the mapped pages need. */
    method UsedPages() returns (count: nat)
      requires Valid()
      ensures count == View().UsedPages()
    {
      hide Tables, Shape;
      count := 0;
      if !ready { return; }
      ShapeFacts(T());
      for i := 0 to |pool|
        invariant count == |UsedSlots(nodes[..i])|
      {
        UsedGrow(nodes, i);
        if nodes[i].used { count := count + 1; }
      }
      assert nodes[..|pool|] == nodes;
      assert Sizes(T()) && Homes(T()) by { HomesOf(T()); }
      TableCount(T());
    }
  }

  lemma HomesOf(t: Tree)
    requires Shape(t)
    ensures Sizes(t) && Homes(t)
  {
    hide Tables;
  }

  lemma UsedGrow(nodes: seq<Node>, i: nat)
    requires i < |nodes|
    ensures |UsedSlots(nodes[..i + 1])| == |UsedSlots(nodes[..i])| + (if nodes[i].used then 1 else 0)
  {
    var grown := if nodes[i].used then UsedSlots(nodes[..i]) + {i} else UsedSlots(nodes[..i]);
    assert i !in UsedSlots(nodes[..i]);
    forall s: nat ensures s in UsedSlots(nodes[..i + 1]) <==> s in grown {
      if s < i { assert nodes[..i + 1][s] == nodes[..i][s]; }
    }
    assert UsedSlots(nodes[..i + 1]) == grown;
  }

  lemma IndexBound(page: nat, level: nat)
    ensures Index(page, level) < FAN
  {
  }

  /** The leaf word of a page whose leaf table exists is its entry in the map. */
  lemma LeafWord(t: Tree, page: nat)
    requires Shape(t) && KeyOf(page, 0) in t.tab
    ensures Sizes(t) && t.tab[KeyOf(page, 0)] < |t.words|
    ensures t.words[t.tab[KeyOf(page, 0)]][Index(page, 0)] == Leaf(t.m, page)
    ensures page in t.m ==> Leaf(t.m, page) % 2 == 1
  {
    hide Tables;
    UpStep(page, 0);
    assert PageOf(KeyOf(page, 0), Index(page, 0)) == page;
    assert t.words[t.tab[KeyOf(page, 0)]][Index(page, 0)] == Leaf(t.m, PageOf(KeyOf(page, 0), Index(page, 0)));
  }

  /** After the walk the tree holds exactly the tables of the enlarged map. */
  lemma PathCovered(t: Tree, page: nat, hi: nat, pte: nat)
    requires Shape(t) && page < PAGES && hi <= 3
    requires t.tab.Keys == Tables(t.m.Keys) + Chain(page, 0, hi)
    requires hi < 3 ==> KeyOf(page, hi) in Tables(t.m.Keys)
    ensures t.tab.Keys == Tables(t.m[page := pte].Keys)
  {
    hide Tables, Up;
    forall l | hi <= l < 3 ensures KeyOf(page, l) in Tables(t.m.Keys) { NeededUpwards(t.m.Keys, page, hi, l); }
    TablesGrow(t.m.Keys, page);
    assert t.m[page := pte].Keys == t.m.Keys + {page};
    assert t.tab.Keys == Tables(t.m.Keys + {page});
  }

  lemma MappedNeedsNothing(t: Tree, page: nat)
    requires Shape(t)
    ensures page in t.m ==> Missing(t.m.Keys, page) == 0
    ensures t.tab.Keys == Tables(t.m.Keys) ==> |Tables(t.m.Keys)| <= |t.pool|
  {
    hide Tables;
    if page in t.m {
      forall l | 0 <= l < 3 ensures KeyOf(page, l) in Tables(t.m.Keys) { TablesOfPage(t.m.Keys, page, l); }
      assert PathTables(page) - Tables(t.m.Keys) == {};
    }
    ShapeFacts(t);
  }

  lemma UnmappedBelow(t: Tree, page: nat, level: nat)
    requires Shape(t) && level < 3 && KeyOf(page, level) !in t.tab
    ensures page !in t.m
  {
    hide Tables;
    if page in t.m { TablesOfPage(t.m.Keys, page, level); }
  }

  lemma DifferentSlots(t: Tree, a: Key, b: Key)
    requires Shape(t) && a in t.tab && b in t.tab && a != b
    ensures t.tab[a] != t.tab[b]
  {
    hide Tables;
  }

  /** A table with nothing below it is not needed. */
  lemma BareNotNeeded(t: Tree, k: Key)
    requires Shape(t) && k.level < 3 && Bare(t, k)
    ensures k !in Tables(t.m.Keys)
  {
    hide Tables, Up;
    InTables(t.m.Keys, k);
    forall p | p in t.m.Keys
      ensures KeyOf(p, k.level) != k
    {
      IndexBound(p, k.level);
      if k.level == 0 {
        UpStep(p, 0);
        UpZero(p);
        assert PageOf(k, Index(p, 0)) !in t.m;
      } else {
        PathStep(p, k.level);
        TablesOfPage(t.m.Keys, p, k.level - 1);
        assert Child(k, Index(p, k.level)) !in t.tab;
      }
    }
  }

  lemma UpZero(page: nat)
    ensures Up(page, 0) == page
  {
  }

  /** A table left with a word in it is needed, and then so is the rest of the path. */
  lemma StillNeeded(t: Tree, page: nat, level: nat)
    requires Shape(t) && page < PAGES && level < 3 && KeyOf(page, level) in t.tab
    requires t.tab.Keys == Tables(t.m.Keys) + Chain(page, level, 3)
    requires !forall i | 0 <= i < FAN :: t.words[t.tab[KeyOf(page, level)]][i] == 0
    ensures t.tab.Keys == Tables(t.m.Keys)
  {
    hide Tables, Up;
    var i :| 0 <= i < FAN && t.words[t.tab[KeyOf(page, level)]][i] != 0;
    WordMeansNeeded(t, page, level, i);
    forall l | level <= l < 3 ensures KeyOf(page, l) in Tables(t.m.Keys) { NeededUpwards(t.m.Keys, page, level, l); }
  }

  lemma TablesShrink(m: map<nat, nat>, page: nat)
    requires page in m
    ensures Tables(m.Keys) == Tables((m - {page}).Keys) + Chain(page, 0, 3)
    ensures |m - {page}| == |m| - 1
  {
    hide Tables, Up;
    var rest := m - {page};
    assert rest.Keys == m.Keys - {page} && rest.Keys + {page} == m.Keys;
    TablesGrow(rest.Keys, page);
    assert PathTables(page) == Chain(page, 0, 3);
  }

  /** The undo entry links the path's tables of levels `level` and `level + 1`. */
  ghost predicate EditAt(tab: map<Key, nat>, edge: Edge, page: nat, level: nat) {
    && KeyOf(page, level) in tab && KeyOf(page, level + 1) in tab
    && edge == Edge(tab[KeyOf(page, level + 1)], tab[KeyOf(page, level)], Index(page, level + 1))
  }

  /** The undo list names, top down, the tables added below the needed ones. */
  ghost predicate EditsMatch(tab: map<Key, nat>, edits: seq<Edge>, count: nat, page: nat, lo: nat)
    requires count <= |edits|
  {
    forall j | 0 <= j < count :: EditAt(tab, edits[j], page, lo + count - 1 - j)
  }

  lemma NoEdits(tab: map<Key, nat>, page: nat, level: nat)
    ensures EditsMatch(tab, [], 0, page, level)
  {
  }

  lemma EditsGrow(tab: map<Key, nat>, edits: seq<Edge>, edge: Edge, page: nat, level: nat)
    requires 0 < level && EditsMatch(tab, edits, |edits|, page, level) && KeyOf(page, level - 1) !in tab
    requires EditAt(tab[KeyOf(page, level - 1) := edge.child], edge, page, level - 1)
    ensures EditsMatch(tab[KeyOf(page, level - 1) := edge.child], edits + [edge], |edits| + 1, page, level - 1)
  {
    var grown := edits + [edge];
    forall j | 0 <= j < |grown|
      ensures EditAt(tab[KeyOf(page, level - 1) := edge.child], grown[j], page, level - 1 + |grown| - 1 - j)
    {
      if j < |edits| { assert EditAt(tab, edits[j], page, level + |edits| - 1 - j); }
    }
  }

  lemma ChainEmpty(page: nat, l: nat)
    ensures Chain(page, l, l) == {}
  {
  }

  lemma {:induction false} ChainSize(page: nat, lo: nat, hi: nat)
    requires lo <= hi
    ensures |Chain(page, lo, hi)| == hi - lo
    decreases hi - lo
  {
    hide Chain;
    if lo < hi {
      ChainPop(page, lo, hi);
      ChainSize(page, lo + 1, hi);
    } else {
      ChainEmpty(page, lo);
    }
  }

  /** With the levels below `h` missing and level `h` present, exactly `h` tables are missing. */
  lemma MissingLevels(pages: set<nat>, page: nat, h: nat)
    requires h <= 3 && page < PAGES && (forall p <- pages :: p < PAGES)
    requires forall l | 0 <= l < h :: KeyOf(page, l) !in Tables(pages)
    requires h < 3 ==> KeyOf(page, h) in Tables(pages)
    ensures Missing(pages, page) == h
  {
    hide Tables, Up;
    forall l | h <= l < 3 ensures KeyOf(page, l) in Tables(pages) { NeededUpwards(pages, page, h, l); }
    assert PathTables(page) - Tables(pages) == Chain(page, 0, h);
    ChainSize(page, 0, h);
  }

  /** Below a missing table everything is missing. */
  lemma NotBelow(pages: set<nat>, page: nat, level: nat, hi: nat)
    requires level <= hi <= 3 && page < PAGES && (forall p <- pages :: p < PAGES)
    requires forall l | level <= l < hi :: KeyOf(page, l) !in Tables(pages)
    requires 0 < level && KeyOf(page, level - 1) !in Tables(pages)
    ensures forall l | 0 <= l < hi :: KeyOf(page, l) !in Tables(pages)
  {
    hide Tables, Up;
    forall l | 0 <= l < level - 1
      ensures KeyOf(page, l) !in Tables(pages)
    {
      if KeyOf(page, l) in Tables(pages) { NeededUpwards(pages, page, l, level - 1); }
    }
  }

  /** When no slot is free at level `level`, the path needs more tables than the pool has left. */
  lemma Exhausted(t: Tree, page: nat, level: nat, hi: nat)
    requires Shape(t) && page < PAGES && 0 < level <= hi <= 3
    requires t.tab.Keys == Tables(t.m.Keys) + Chain(page, level, hi)
    requires forall l | level <= l < hi :: KeyOf(page, l) !in Tables(t.m.Keys)
    requires hi < 3 ==> KeyOf(page, hi) in Tables(t.m.Keys)
    requires KeyOf(page, level - 1) !in t.tab && |t.tab.Keys| == |t.pool|
    ensures Missing(t.m.Keys, page) > |t.pool| - |Tables(t.m.Keys)|
  {
    hide Tables, Up, Chain, PathTables;
    NotBelow(t.m.Keys, page, level, hi);
    MissingLevels(t.m.Keys, page, hi);
    ExtraSize(t, page, level, hi);
  }

  /** When the walk succeeded, it added exactly the missing tables, and they fitted. */
  lemma Complete(t: Tree, page: nat, hi: nat)
    requires Shape(t) && page < PAGES && hi <= 3
    requires t.tab.Keys == Tables(t.m.Keys) + Chain(page, 0, hi)
    requires forall l | 0 <= l < hi :: KeyOf(page, l) !in Tables(t.m.Keys)
    requires hi < 3 ==> KeyOf(page, hi) in Tables(t.m.Keys)
    ensures Missing(t.m.Keys, page) == hi <= |t.pool| - |Tables(t.m.Keys)|
  {
    hide Tables, Up, Chain, PathTables;
    MissingLevels(t.m.Keys, page, hi);
    ExtraSize(t, page, 0, hi);
    ShapeFacts(t);
  }

  lemma ExtraSize(t: Tree, page: nat, lo: nat, hi: nat)
    requires lo <= hi && t.tab.Keys == Tables(t.m.Keys) + Chain(page, lo, hi)
    requires forall l | lo <= l < hi :: KeyOf(page, l) !in Tables(t.m.Keys)
    ensures |t.tab.Keys| == |Tables(t.m.Keys)| + (hi - lo)
  {
    hide Tables;
    ChainSize(page, lo, hi);
    assert Tables(t.m.Keys) !! Chain(page, lo, hi);
  }

  /** A directory entry that is present on the way down leads to a needed table, and then nothing was added above. */
  lemma ChildNeeded(t: Tree, page: nat, level: nat, hi: nat)
    requires Shape(t) && page < PAGES && 0 < level <= hi <= 3
    requires t.tab.Keys == Tables(t.m.Keys) + Chain(page, level, hi)
    requires forall l | level <= l < hi :: KeyOf(page, l) !in Tables(t.m.Keys)
    requires KeyOf(page, level - 1) in t.tab
    ensures KeyOf(page, level - 1) in Tables(t.m.Keys) && hi == level
  {
    hide Tables, Up;
    assert KeyOf(page, level - 1) !in Chain(page, level, hi);
    if level < hi { NeededUpwards(t.m.Keys, page, level - 1, level); }
  }

  /** What code needs to index the pool. */
  lemma ShapeFacts(t: Tree)
    requires Shape(t)
    ensures Sizes(t) && PoolOk(t.pool, t.pat) && Pages(t.m) && |t.pool| > 0 && ROOT in t.tab && t.tab[ROOT] == 0
    ensures forall k <- t.tab.Keys :: t.tab[k] < |t.words| && t.nodes[t.tab[k]].used
    ensures |t.tab.Keys| <= |t.nodes|
    ensures |t.tab.Keys| == |t.nodes| <==> forall s | 0 <= s < |t.nodes| :: t.nodes[s].used
  {
    hide Tables;
    TableCount(t);
  }

  lemma LinkedEntry(pool: seq<Page>, pat: nat, s: nat)
    requires PoolOk(pool, pat) && s < |pool|
    ensures EncodePde(pool[s].dma, pat).Some? && EncodePde(pool[s].dma, pat).value == Pde(pool, pat, s)
  {
  }

  /** A missing table has nothing below it yet. */
  lemma MissingIsBare(t: Tree, page: nat, level: nat, hi: nat)
    requires Shape(t) && page < PAGES && 0 < level <= hi <= 3
    requires t.tab.Keys == Tables(t.m.Keys) + Chain(page, level, hi)
    requires KeyOf(page, level - 1) !in t.tab
    ensures Bare(t, KeyOf(page, level - 1))
  {
    hide Tables, EncodePde, Up;
    var k := KeyOf(page, level - 1);
    forall i | 0 <= i < FAN
      ensures k.level == 0 ==> PageOf(k, i) !in t.m
      ensures 0 < k.level ==> Child(k, i) !in t.tab
    {
      if k.level == 0 && PageOf(k, i) in t.m {
        PageHome(k, i);
        TablesOfPage(t.m.Keys, PageOf(k, i), 0);
      }
      if 0 < k.level && Child(k, i) in t.tab {
        assert Child(k, i) !in Chain(page, level, hi);
        ParentNeeded(t.m.Keys, k, i);
      }
    }
  }

  lemma ChainPop(page: nat, lo: nat, hi: nat)
    requires lo < hi
    ensures Chain(page, lo, hi) == Chain(page, lo + 1, hi) + {KeyOf(page, lo)}
    ensures KeyOf(page, lo) !in Chain(page, lo + 1, hi)
  {
  }

  /** The tree right after initialize: one cleared root, whatever the other buffers hold. */
  function EmptyTree(pool: seq<Page>, pat: nat, buffers: seq<seq<nat>>): Tree
    requires |pool| == |buffers| > 0
  {
    Tree(pool, pat, buffers[0 := Zeros()], seq(|pool|, _ => Node(false, 0))[0 := Node(true, 3)],
         map[ROOT := 0], seq(|pool|, _ => ROOT), map[])
  }

  lemma EmptyTreeShape(pool: seq<Page>, pat: nat, buffers: seq<seq<nat>>)
    requires |pool| == |buffers| > 0 && PoolUsable(pool, pat) && forall b <- buffers :: |b| == FAN
    ensures var t := EmptyTree(pool, pat, buffers); Shape(t) && t.tab.Keys == Tables(t.m.Keys)
  {
    var t := EmptyTree(pool, pat, buffers);
    assert PoolOk(t.pool, t.pat) by {
      assert PoolEntryOk(t.pool, t.pat, 0);
      forall i, j | 0 <= i < j < |t.pool| ensures t.pool[i].dma != t.pool[j].dma { assert PoolPairOk(t.pool, j, i); }
      forall i | 0 <= i < |t.pool| ensures DmaPage(t.pool[i].dma) { assert PoolEntryOk(t.pool, t.pat, i); }
    }
  }
}
