/**
 The shape of the radix tree held in the page pool, as a value. `tab` says which pool slot
 holds the table of each prefix and `home` is its inverse; both exist only in proofs.
 */
module PageTableTree {
  import opened Arithmetic
  import opened PteFormat
  import opened PageTableSpec

  datatype Node = Node(used: bool, level: nat)
  datatype Page = Page(dma: nat, cpu: nat)

  datatype Tree = Tree(pool: seq<Page>, pat: nat, words: seq<seq<nat>>, nodes: seq<Node>,
                       tab: map<Key, nat>, home: seq<Key>, m: map<nat, nat>)

  function Zeros(): (r: seq<nat>)
    ensures |r| == FAN && forall i | 0 <= i < FAN :: r[i] == 0
  {
    seq(FAN, _ => 0)
  }

  ghost predicate Sizes(t: Tree) {
    && |t.words| == |t.nodes| == |t.home| == |t.pool|
    && (forall s | 0 <= s < |t.words| :: |t.words[s]| == FAN)
  }

  ghost predicate PoolOk(pool: seq<Page>, pat: nat) {
    && pat <= 3
    && (forall s | 0 <= s < |pool| :: DmaPage(pool[s].dma))
    && (forall i, j | 0 <= i < j < |pool| :: pool[i].dma != pool[j].dma)
  }

  /** Used slots and known tables are in bijection, and levels agree. */
  ghost predicate Homes(t: Tree)
    requires Sizes(t)
  {
    && (forall k <- t.tab.Keys ::
          t.tab[k] < |t.nodes| && t.nodes[t.tab[k]] == Node(true, k.level) && t.home[t.tab[k]] == k)
    && (forall s | 0 <= s < |t.nodes| && t.nodes[s].used :: t.home[s] in t.tab && t.tab[t.home[s]] == s)
  }

  function Pde(pool: seq<Page>, pat: nat, s: nat): (r: nat) {
    if s < |pool| && EncodePde(pool[s].dma, pat).Some? then EncodePde(pool[s].dma, pat).value else 0
  }

  function Link(t: Tree, k: Key): nat {
    if k in t.tab then Pde(t.pool, t.pat, t.tab[k]) else 0
  }

  function Leaf(m: map<nat, nat>, page: nat): nat {
    if page in m then m[page] else 0
  }

  ghost predicate Directories(t: Tree)
    requires Sizes(t) && Homes(t)
  {
    forall k, i | k in t.tab && 0 < k.level && 0 <= i < FAN :: t.words[t.tab[k]][i] == Link(t, Child(k, i))
  }

  ghost predicate Leaves(t: Tree)
    requires Sizes(t) && Homes(t)
  {
    forall k, i | k in t.tab && k.level == 0 && 0 <= i < FAN :: t.words[t.tab[k]][i] == Leaf(t.m, PageOf(k, i))
  }

  ghost predicate Pages(m: map<nat, nat>) {
    forall p <- m.Keys :: p < PAGES && m[p] % 2 == 1
  }

  /** A well-formed tree that holds at least the tables its pages need. */
  ghost predicate Shape(t: Tree) {
    && Sizes(t) && PoolOk(t.pool, t.pat) && Homes(t) && Directories(t) && Leaves(t) && Pages(t.m)
    && Tables(t.m.Keys) <= t.tab.Keys
    && ROOT in t.tab && t.tab[ROOT] == 0
  }

  /** Nothing hangs below table `k`. */
  ghost predicate Bare(t: Tree, k: Key) {
    if k.level == 0 then forall i | 0 <= i < FAN :: PageOf(k, i) !in t.m
    else forall i | 0 <= i < FAN :: Child(k, i) !in t.tab
  }

  // ------------------------------------------------------------ the four edits

  function Attached(t: Tree, k: Key, i: nat, s: nat): Tree
    requires Sizes(t) && k in t.tab && t.tab[k] < |t.words| && 0 < k.level && i < FAN && s < |t.words| && t.tab[k] != s
  {
    t.(words := t.words[s := Zeros()][t.tab[k] := t.words[t.tab[k]][i := Pde(t.pool, t.pat, s)]],
       nodes := t.nodes[s := Node(true, k.level - 1)],
       tab := t.tab[Child(k, i) := s],
       home := t.home[s := Child(k, i)])
  }

  lemma AttachKeepsShape(t: Tree, k: Key, i: nat, s: nat)
    requires Shape(t) && k in t.tab && 0 < k.level && i < FAN && s < |t.words| && !t.nodes[s].used
    requires Child(k, i) !in t.tab && Bare(t, Child(k, i))
    ensures t.tab[k] != s && Shape(Attached(t, k, i, s))
  {
    hide Tables, EncodePde, Pde;
    var c := Child(k, i);
    var u := Attached(t, k, i, s);
    assert Sizes(u) && Homes(u);
    forall q, j | q in u.tab && 0 < q.level && 0 <= j < FAN
      ensures u.words[u.tab[q]][j] == Link(u, Child(q, j))
    {
      if q == c {
        assert u.tab[q] == s && Child(q, j) != c;
      } else {
        assert t.words[t.tab[q]][j] == Link(t, Child(q, j));
        if Child(q, j) == c { ChildInjective(q, j, k, i); }
        if q == k && Child(q, j) != c { assert j != i; }
      }
    }
    forall q, j | q in u.tab && q.level == 0 && 0 <= j < FAN
      ensures u.words[u.tab[q]][j] == Leaf(u.m, PageOf(q, j))
    {
      if q != c { assert t.words[t.tab[q]][j] == Leaf(t.m, PageOf(q, j)); }
    }
  }

  /** The table `Child(k, i)` is unlinked; its own words become `row`, whatever that is. */
  function Detached(t: Tree, k: Key, i: nat, row: seq<nat>): Tree
    requires Sizes(t) && k in t.tab && t.tab[k] < |t.words| && 0 < k.level && i < FAN
    requires Child(k, i) in t.tab && t.tab[Child(k, i)] < |t.words|
  {
    var s := t.tab[Child(k, i)];
    t.(words := t.words[t.tab[k] := t.words[t.tab[k]][i := 0]][s := row],
       nodes := t.nodes[s := Node(false, 0)],
       tab := t.tab - {Child(k, i)})
  }

  lemma DetachKeepsShape(t: Tree, k: Key, i: nat, row: seq<nat>)
    requires Shape(t) && k in t.tab && 0 < k.level && i < FAN && |row| == FAN
    requires Child(k, i) in t.tab && Bare(t, Child(k, i)) && Child(k, i) !in Tables(t.m.Keys)
    ensures Shape(Detached(t, k, i, row))
  {
    hide Tables, EncodePde, Pde;
    var c := Child(k, i);
    var u := Detached(t, k, i, row);
    assert t.tab[c] != t.tab[k];
    assert c != ROOT by { assert ROOT in Tables(t.m.Keys) by { InTables(t.m.Keys, ROOT); } }
    assert Sizes(u) && Homes(u);
    forall q, j | q in u.tab && 0 < q.level && 0 <= j < FAN
      ensures u.words[u.tab[q]][j] == Link(u, Child(q, j))
    {
      assert t.words[t.tab[q]][j] == Link(t, Child(q, j));
      assert t.tab[q] != t.tab[c];
      if Child(q, j) == c { ChildInjective(q, j, k, i); }
    }
    forall q, j | q in u.tab && q.level == 0 && 0 <= j < FAN
      ensures u.words[u.tab[q]][j] == Leaf(u.m, PageOf(q, j))
    {
      assert t.words[t.tab[q]][j] == Leaf(t.m, PageOf(q, j));
      assert t.tab[q] != t.tab[c] && t.tab[q] != t.tab[k];
    }
  }

  function WithLeaf(t: Tree, page: nat, word: nat, m: map<nat, nat>): Tree
    requires Sizes(t) && KeyOf(page, 0) in t.tab && t.tab[KeyOf(page, 0)] < |t.words|
  {
    var s := t.tab[KeyOf(page, 0)];
    var row: seq<nat> := t.words[s];
    t.(words := t.words[s := row[Index(page, 0) := word]], m := m)
  }

  lemma LeafEditKeepsShape(t: Tree, page: nat, word: nat, m: map<nat, nat>)
    requires Shape(t) && KeyOf(page, 0) in t.tab
    requires Pages(m) && Leaf(m, page) == word && Tables(m.Keys) <= t.tab.Keys
    requires forall p | p != page :: Leaf(m, p) == Leaf(t.m, p)
    ensures Shape(WithLeaf(t, page, word, m))
  {
    hide Tables, EncodePde, Pde;
    var u := WithLeaf(t, page, word, m);
    var k := KeyOf(page, 0);
    UpStep(page, 0);
    assert Sizes(u) && Homes(u);
    forall q, j | q in u.tab && 0 < q.level && 0 <= j < FAN
      ensures u.words[u.tab[q]][j] == Link(u, Child(q, j))
    {
      assert t.words[t.tab[q]][j] == Link(t, Child(q, j));
      assert t.tab[q] != t.tab[k];
    }
    forall q, j | q in u.tab && q.level == 0 && 0 <= j < FAN
      ensures u.words[u.tab[q]][j] == Leaf(u.m, PageOf(q, j))
    {
      assert t.words[t.tab[q]][j] == Leaf(t.m, PageOf(q, j));
      if PageOf(q, j) == page {
        PageInjective(q, j, k, Index(page, 0));
      } else {
        assert q != k ==> t.tab[q] != t.tab[k];
      }
    }
  }

  /** The tables of one path from level `lo` up to, not including, level `hi`. */
  ghost function Chain(page: nat, lo: nat, hi: nat): set<Key> {
    set l | lo <= l < hi :: KeyOf(page, l)
  }

  /** The lowest of the extra tables on a path has nothing below it. */
  lemma ChainBottomIsBare(t: Tree, page: nat, lo: nat, hi: nat)
    requires Shape(t) && lo < hi <= 3
    requires t.tab.Keys == Tables(t.m.Keys) + Chain(page, lo, hi)
    requires KeyOf(page, lo) !in Tables(t.m.Keys)
    ensures Bare(t, KeyOf(page, lo))
  {
    hide Tables, EncodePde, Up;
    var k := KeyOf(page, lo);
    forall i | 0 <= i < FAN
      ensures lo == 0 ==> PageOf(k, i) !in t.m
      ensures 0 < lo ==> Child(k, i) !in t.tab
    {
      if lo == 0 && PageOf(k, i) in t.m {
        PageHome(k, i);
        TablesOfPage(t.m.Keys, PageOf(k, i), 0);
      }
      if 0 < lo && Child(k, i) in t.tab {
        assert Child(k, i) !in Chain(page, lo, hi);
        ParentNeeded(t.m.Keys, k, i);
      }
    }
  }

  /** An empty table that is not needed can go; a table with a word in it is needed. */
  lemma WordMeansNeeded(t: Tree, page: nat, level: nat, i: nat)
    requires Shape(t) && level < 3 && KeyOf(page, level) in t.tab && i < FAN
    requires t.tab.Keys == Tables(t.m.Keys) + Chain(page, level, 3)
    requires t.words[t.tab[KeyOf(page, level)]][i] != 0
    ensures KeyOf(page, level) in Tables(t.m.Keys)
  {
    hide Tables, EncodePde, Up;
    var k := KeyOf(page, level);
    if level == 0 {
      assert Leaf(t.m, PageOf(k, i)) != 0;
      PageHome(k, i);
      TablesOfPage(t.m.Keys, PageOf(k, i), 0);
    } else {
      assert Link(t, Child(k, i)) != 0;
      assert Child(k, i) in t.tab && Child(k, i) !in Chain(page, level, 3);
      ParentNeeded(t.m.Keys, k, i);
    }
  }

  lemma NoWordMeansBare(t: Tree, k: Key)
    requires Shape(t) && k in t.tab
    requires forall i | 0 <= i < FAN :: t.words[t.tab[k]][i] == 0
    ensures Bare(t, k)
  {
    hide Tables, EncodePde;
    forall i | 0 <= i < FAN
      ensures k.level == 0 ==> PageOf(k, i) !in t.m
      ensures 0 < k.level ==> Child(k, i) !in t.tab
    {
      assert t.words[t.tab[k]][i] == 0;
      if k.level == 0 {
        assert Leaf(t.m, PageOf(k, i)) == 0;
      } else {
        assert Link(t, Child(k, i)) == 0;
        LinkWord(t, Child(k, i));
      }
    }
  }

  /** A table that is needed needs the rest of its path upwards. */
  lemma NeededUpwards(pages: set<nat>, page: nat, level: nat, upper: nat)
    requires level <= upper < 3 && page < PAGES && KeyOf(page, level) in Tables(pages)
    requires forall p <- pages :: p < PAGES
    ensures KeyOf(page, upper) in Tables(pages)
    decreases upper - level
  {
    if level < upper {
      PathStep(page, level + 1);
      ParentNeeded(pages, KeyOf(page, level + 1), Index(page, level + 1));
      NeededUpwards(pages, page, level + 1, upper);
    }
  }

  lemma LinkWord(t: Tree, c: Key)
    requires Shape(t)
    ensures Link(t, c) == 0 <==> c !in t.tab
    ensures c in t.tab ==>
              t.tab[c] < |t.pool| && DmaPage(t.pool[t.tab[c]].dma) &&
              Some(Link(t, c)) == EncodePde(t.pool[t.tab[c]].dma, t.pat)
  {
    hide Tables;
  }

  // ---------------------------------------------------------------- counting

  ghost function UsedSlots(nodes: seq<Node>): set<nat> {
    set s: nat | s < |nodes| && nodes[s].used
  }

  lemma {:induction false} BijectionSize(tab: map<Key, nat>, slots: set<nat>)
    requires forall k <- tab.Keys :: tab[k] in slots
    requires forall k, l | k in tab && l in tab && tab[k] == tab[l] :: k == l
    requires forall s <- slots :: exists k :: k in tab && tab[k] == s
    ensures |tab.Keys| == |slots|
    decreases tab.Keys
  {
    if tab.Keys == {} {
      assert slots == {};
    } else {
      var k :| k in tab.Keys;
      var rest := tab - {k};
      assert rest.Keys == tab.Keys - {k};
      forall s <- slots - {tab[k]}
        ensures exists l :: l in rest && rest[l] == s
      {
        var l :| l in tab && tab[l] == s;
        assert l in rest;
      }
      BijectionSize(rest, slots - {tab[k]});
    }
  }

  function Slots(n: nat): set<nat> {
    if n == 0 then {} else Slots(n - 1) + {n - 1}
  }

  lemma {:induction false} SlotsSize(n: nat)
    ensures |Slots(n)| == n
    ensures forall s: nat :: s in Slots(n) <==> s < n
  {
    if n > 0 { SlotsSize(n - 1); }
  }

  lemma TableCount(t: Tree)
    requires Sizes(t) && Homes(t)
    ensures |t.tab.Keys| == |UsedSlots(t.nodes)| <= |t.nodes|
    ensures |t.tab.Keys| == |t.nodes| <==> forall s | 0 <= s < |t.nodes| :: t.nodes[s].used
  {
    forall s <- UsedSlots(t.nodes)
      ensures exists k :: k in t.tab && t.tab[k] == s
    {
      assert t.home[s] in t.tab;
    }
    BijectionSize(t.tab, UsedSlots(t.nodes));
    SlotsSize(|t.nodes|);
    SubsetCard(UsedSlots(t.nodes), Slots(|t.nodes|));
    if forall s | 0 <= s < |t.nodes| :: t.nodes[s].used { assert UsedSlots(t.nodes) == Slots(|t.nodes|); }
    if |t.tab.Keys| == |t.nodes| {
      forall s: nat | s < |t.nodes| ensures t.nodes[s].used { assert s in Slots(|t.nodes|); }
    }
  }
}
