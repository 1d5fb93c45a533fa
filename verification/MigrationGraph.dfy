/**
 The migration-graph checker: revisions, their parents, and the findings that say
 why they do not form one chain.
 */
module MigrationGraph {
  datatype Node = Node(revision: string, parents: seq<string>)

  /** Revisions that occur once, with the parents they name. */
  type Graph = map<string, seq<string>>

  datatype Finding =
    | DuplicateRevision(revision: string)
    | Merge(revision: string)
    | Orphan(revision: string, parent: string)
    | Fork(parent: string)
    | RootCount(count: nat)
    | HeadCount(count: nat)
    | Cycle(cycle: seq<string>)
    | Disconnected(revisions: set<string>)

  datatype Flags = Flags(forbidForks: bool, forbidMerges: bool, forbidOrphans: bool, strict: bool)

  predicate Distinct<T(==)>(s: seq<T>) {
    forall i, j :: 0 <= i < j < |s| ==> s[i] != s[j]
  }

  /** What the parser of migration files guarantees. */
  predicate Parsed(nodes: seq<Node>) {
    forall i :: 0 <= i < |nodes| ==> nodes[i].revision != "" && Distinct(nodes[i].parents)
  }

  predicate WellFormed(g: Graph) {
    forall r :: r in g ==> r != "" && Distinct(g[r])
  }

  // ----------------------------------------------------------- parent chains

  /** The chain runs from a root to a head through every revision. */
  predicate IsChain(g: Graph, chain: seq<string>) {
    && |chain| > 0
    && Distinct(chain)
    && (set r | r in chain) == g.Keys
    && g[chain[0]] == []
    && forall i :: 0 < i < |chain| ==> g[chain[i]] == [chain[i - 1]]
  }

  function Children(g: Graph, p: string): set<string> {
    set r | r in g && p in g[r]
  }

  function Roots(g: Graph): set<string> {
    set r | r in g && g[r] == []
  }

  function Heads(g: Graph): set<string> {
    set r | r in g && Children(g, r) == {}
  }

  // ----------------------------------------------------------------- cycles

  /** A cycle of single-parent revisions, each followed by its parent. */
  predicate IsCycle(g: Graph, c: seq<string>) {
    && |c| > 0
    && Distinct(c)
    && forall i :: 0 <= i < |c| ==> c[i] in g && g[c[i]] == [c[if i + 1 < |c| then i + 1 else 0]]
  }

  /** Following single parents does not leave `s`. */
  predicate ParentClosed(g: Graph, s: set<string>) {
    forall r :: r in s && r in g && |g[r]| == 1 && g[r][0] in g ==> g[r][0] in s
  }

  lemma {:induction false} CycleStaysFrom(g: Graph, c: seq<string>, s: set<string>, i: nat, steps: nat)
    requires IsCycle(g, c) && ParentClosed(g, s) && i < |c| && c[i] in s && steps < |c|
    ensures c[if i + steps < |c| then i + steps else i + steps - |c|] in s
    decreases steps
  {
    if steps > 0 {
      CycleStaysFrom(g, c, s, i, steps - 1);
      var k := if i + steps - 1 < |c| then i + steps - 1 else i + steps - 1 - |c|;
      assert g[c[k]] == [c[if k + 1 < |c| then k + 1 else 0]];
    }
  }

  /** A cycle that touches a closed set lies in it. */
  lemma CycleStays(g: Graph, c: seq<string>, s: set<string>, i: nat)
    requires IsCycle(g, c) && ParentClosed(g, s) && i < |c| && c[i] in s
    ensures forall k :: 0 <= k < |c| ==> c[k] in s
  {
    forall k | 0 <= k < |c| ensures c[k] in s {
      CycleStaysFrom(g, c, s, i, if k >= i then k - i else k + |c| - i);
    }
  }

  /** A walk along single parents. */
  predicate IsWalk(g: Graph, path: seq<string>) {
    && Distinct(path)
    && (forall i :: 0 <= i < |path| ==> path[i] in g)
    && forall i :: 0 < i < |path| ==> g[path[i - 1]] == [path[i]]
  }

  /** Where a walk leads next; "" when the last revision has not exactly one parent. */
  function Next(g: Graph, path: seq<string>, start: string): string
    requires forall i :: 0 <= i < |path| ==> path[i] in g
  {
    if path == [] then start
    else
      var parents := g[path[|path| - 1]];
      if |parents| == 1 then parents[0] else ""
  }

  lemma {:induction false} CycleFollowsWalk(g: Graph, path: seq<string>, c: seq<string>, i: nat, j: nat)
    requires IsWalk(g, path) && IsCycle(g, c) && i <= j < |path| && path[i] in c
    ensures path[j] in c
  {
    if i < j {
      CycleFollowsWalk(g, path, c, i, j - 1);
      var k :| 0 <= k < |c| && c[k] == path[j - 1];
      assert g[c[k]] == [path[j]] && g[c[k]] == [c[if k + 1 < |c| then k + 1 else 0]];
    }
  }

  /** A cycle through a walked revision goes on to where the walk leads. */
  lemma CycleReachesNext(g: Graph, path: seq<string>, c: seq<string>, i: nat)
    requires IsWalk(g, path) && IsCycle(g, c) && i < |path| && path[i] in c
    ensures |g[path[|path| - 1]]| == 1 && Next(g, path, "") in c && Next(g, path, "") in g
  {
    CycleFollowsWalk(g, path, c, i, |path| - 1);
    var k :| 0 <= k < |c| && c[k] == path[|path| - 1];
    assert g[c[k]] == [c[if k + 1 < |c| then k + 1 else 0]];
  }

  /** The reported cycles are cycles, do not overlap, and cover every cycle that
      touches a finished revision. */
  ghost predicate CyclesSoFar(g: Graph, finished: set<string>, cycles: seq<seq<string>>) {
    && (forall a :: 0 <= a < |cycles| ==>
          IsCycle(g, cycles[a]) && forall k :: 0 <= k < |cycles[a]| ==> cycles[a][k] in finished)
    && (forall a, b, k :: 0 <= a < b < |cycles| && 0 <= k < |cycles[a]| ==> cycles[a][k] !in cycles[b])
    && forall r :: r in finished && OnCycle(g, r) ==> Reported(cycles, r)
  }

  ghost predicate OnCycle(g: Graph, r: string) {
    exists c :: IsCycle(g, c) && r in c
  }

  ghost predicate Reported(cycles: seq<seq<string>>, r: string) {
    exists a :: 0 <= a < |cycles| && r in cycles[a]
  }

  /** Walks up from `start` until the walk ends, meets itself or meets finished ground. */
  method WalkUp(g: Graph, start: string, finished: set<string>) returns (path: seq<string>, next: string)
    requires WellFormed(g) && start in g && start !in finished
    ensures IsWalk(g, path) && |path| > 0 && path[0] == start && next == Next(g, path, start)
    ensures forall i :: 0 <= i < |path| ==> path[i] !in finished
    ensures next !in g || next in finished || next in path
  {
    path, next := [], start;
    var positions: map<string, nat> := map[];
    while next in g && next !in finished && next !in positions
      invariant IsWalk(g, path) && next == Next(g, path, start)
      invariant |path| > 0 ==> path[0] == start
      invariant forall i :: 0 <= i < |path| ==> path[i] !in finished
      invariant positions.Keys == set r | r in path
      decreases g.Keys - positions.Keys
    {
      ghost var unseen := g.Keys - positions.Keys;
      assert next in unseen;
      positions := positions[next := |path|];
      path := path + [next];
      var parents := g[next];
      if |parents| != 1 {
        next := "";
        break;
      }
      next := parents[0];
    }
  }

  /** The reported cycles: real, disjoint, and all there are. */
  ghost predicate AllCycles(g: Graph, cycles: seq<seq<string>>) {
    && (forall a :: 0 <= a < |cycles| ==> IsCycle(g, cycles[a]))
    && (forall a, b, k :: 0 <= a < b < |cycles| && 0 <= k < |cycles[a]| ==> cycles[a][k] !in cycles[b])
    && forall c, r :: IsCycle(g, c) && r in c ==> Reported(cycles, r)
  }

  /** All single-parent cycles, each exactly once. */
  method FindCycles(g: Graph) returns (cycles: seq<seq<string>>)
    requires WellFormed(g)
    ensures AllCycles(g, cycles)
  {
    cycles := [];
    var finished: set<string> := {};
    var starts := g.Keys;
    while starts != {}
      invariant starts <= g.Keys && finished <= g.Keys
      invariant g.Keys - starts <= finished
      invariant ParentClosed(g, finished)
      invariant CyclesSoFar(g, finished, cycles)
      decreases starts
    {
      var start :| start in starts;
      starts := starts - {start};
      if start !in finished {
        var path, next := WalkUp(g, start, finished);
        var walked := set r | r in path;
        if next in path {
          var p :| 0 <= p < |path| && path[p] == next;
          WalkMeetsItself(g, path, p, finished, cycles);
          cycles := cycles + [path[p..]];
        } else {
          WalkEnds(g, path, start, finished, cycles);
        }
        finished := finished + walked;
      }
    }
    forall c, r | IsCycle(g, c) && r in c ensures Reported(cycles, r) {
      assert r in g && OnCycle(g, r);
    }
  }

  lemma WalkEnds(g: Graph, path: seq<string>, start: string, finished: set<string>, cycles: seq<seq<string>>)
    requires IsWalk(g, path) && |path| > 0 && ParentClosed(g, finished) && CyclesSoFar(g, finished, cycles)
    requires forall i :: 0 <= i < |path| ==> path[i] !in finished
    requires var next := Next(g, path, start); next !in path && (next !in g || next in finished)
    ensures var all := finished + set r | r in path;
            ParentClosed(g, all) && CyclesSoFar(g, all, cycles)
  {
    var all := finished + set r | r in path;
    forall i | 0 <= i < |path| ensures !OnCycle(g, path[i]) {
      if c :| IsCycle(g, c) && path[i] in c {
        CycleReachesNext(g, path, c, i);
        var k :| 0 <= k < |c| && c[k] == Next(g, path, "");
        CycleStays(g, c, finished, k);
      }
    }
    WalkIsClosed(g, path, start, finished);
  }

  lemma WalkIsClosed(g: Graph, path: seq<string>, start: string, finished: set<string>)
    requires IsWalk(g, path) && |path| > 0 && ParentClosed(g, finished)
    requires var next := Next(g, path, start); next !in g || next in finished || next in path
    ensures ParentClosed(g, finished + set r | r in path)
  {
    var all := finished + set r | r in path;
    forall r | r in all && r in g && |g[r]| == 1 && g[r][0] in g ensures g[r][0] in all {
      if r !in finished {
        var i :| 0 <= i < |path| && path[i] == r;
        if i + 1 < |path| { assert g[path[i + 1 - 1]] == [path[i + 1]]; }
      }
    }
  }

  lemma WalkMeetsItself(g: Graph, path: seq<string>, p: nat, finished: set<string>, cycles: seq<seq<string>>)
    requires IsWalk(g, path) && p < |path| && ParentClosed(g, finished) && CyclesSoFar(g, finished, cycles)
    requires forall i :: 0 <= i < |path| ==> path[i] !in finished
    requires Next(g, path, "") == path[p] && "" !in g
    ensures var all := finished + set r | r in path;
            ParentClosed(g, all) && CyclesSoFar(g, all, cycles + [path[p..]])
  {
    var loop := path[p..];
    var all := finished + set r | r in path;
    var more := cycles + [loop];
    WalkIsClosed(g, path, "", finished);
    LoopIsCycle(g, path, p);
    forall r | r in all && OnCycle(g, r) ensures Reported(more, r) {
      if r in finished {
        var a :| 0 <= a < |cycles| && r in cycles[a];
        assert r in more[a];
      } else {
        var i :| 0 <= i < |path| && path[i] == r;
        CyclicTailIsLoop(g, path, p, i);
        assert r in more[|cycles|];
      }
    }
    forall a, b, k | 0 <= a < b < |more| && 0 <= k < |more[a]| ensures more[a][k] !in more[b] {
      if b == |cycles| { assert cycles[a][k] in finished; }
    }
  }

  lemma LoopIsCycle(g: Graph, path: seq<string>, p: nat)
    requires IsWalk(g, path) && p < |path| && Next(g, path, "") == path[p] && "" !in g
    ensures IsCycle(g, path[p..])
  {
    var loop := path[p..];
    forall i | 0 <= i < |loop| ensures loop[i] in g && g[loop[i]] == [loop[if i + 1 < |loop| then i + 1 else 0]] {
      if i + 1 < |loop| {
        assert g[path[p + i + 1 - 1]] == [path[p + i + 1]];
      } else {
        assert loop[i] == path[|path| - 1] && |g[path[|path| - 1]]| == 1;
      }
    }
  }

  /** A walked revision that lies on a cycle lies on the loop the walk ran into. */
  lemma CyclicTailIsLoop(g: Graph, path: seq<string>, p: nat, i: nat)
    requires IsWalk(g, path) && p < |path| && i < |path| && Next(g, path, "") == path[p]
    requires IsCycle(g, path[p..]) && OnCycle(g, path[i])
    ensures path[i] in path[p..]
  {
    var c :| IsCycle(g, c) && path[i] in c;
    CycleReachesNext(g, path, c, i);
    var k :| 0 <= k < |c| && c[k] == path[p];
    var loop := set r | r in path[p..];
    assert path[p..][0] == path[p];
    forall r | r in loop && r in g && |g[r]| == 1 ensures g[r][0] in loop {
      var m :| 0 <= m < |path[p..]| && path[p..][m] == r;
      assert g[path[p..][m]] == [path[p..][if m + 1 < |path[p..]| then m + 1 else 0]];
    }
    CycleStays(g, c, loop, k);
    var m :| 0 <= m < |c| && c[m] == path[i];
    assert c[m] in loop;
  }

  // ------------------------------------------------------------ reachability

  /** Each revision of the line names the one before it as a parent. */
  predicate IsLine(g: Graph, line: seq<string>) {
    && |line| > 0
    && (forall i :: 0 <= i < |line| ==> line[i] in g)
    && forall i :: 0 < i < |line| ==> line[i - 1] in g[line[i]]
  }

  ghost predicate Descends(g: Graph, root: string, r: string) {
    exists line :: IsLine(g, line) && line[0] == root && line[|line| - 1] == r
  }

  predicate ChildClosed(g: Graph, s: set<string>) {
    forall p, r :: p in s && r in g && p in g[r] ==> r in s
  }

  lemma {:induction false} LineStays(g: Graph, s: set<string>, line: seq<string>, k: nat)
    requires IsLine(g, line) && ChildClosed(g, s) && line[0] in s && k < |line|
    ensures line[k] in s
  {
    if k > 0 { LineStays(g, s, line, k - 1); }
  }

  lemma DescendantsStay(g: Graph, s: set<string>, root: string)
    requires ChildClosed(g, s) && root in s
    ensures forall r :: Descends(g, root, r) ==> r in s
  {
    forall r | Descends(g, root, r) ensures r in s {
      var line :| IsLine(g, line) && line[0] == root && line[|line| - 1] == r;
      LineStays(g, s, line, |line| - 1);
    }
  }

  lemma ChildDescends(g: Graph, root: string, p: string, r: string)
    requires Descends(g, root, p) && r in g && p in g[r]
    ensures Descends(g, root, r)
  {
    var line :| IsLine(g, line) && line[0] == root && line[|line| - 1] == p;
    var longer := line + [r];
    assert IsLine(g, longer) && longer[0] == root && longer[|longer| - 1] == r;
  }

  /** The descendants of the root, with a stack of pending revisions. */
  method Reachable(g: Graph, root: string) returns (reachable: set<string>)
    requires root in g
    ensures forall r :: r in reachable <==> Descends(g, root, r)
  {
    reachable := {};
    var pending := [root];
    assert IsLine(g, [root]);
    while pending != []
      invariant reachable <= g.Keys
      invariant forall i :: 0 <= i < |pending| ==> pending[i] in g && Descends(g, root, pending[i])
      invariant forall r :: r in reachable ==> Descends(g, root, r)
      invariant root in reachable || root in pending
      invariant forall p, r :: p in reachable && r in g && p in g[r] ==> r in reachable || r in pending
      decreases g.Keys - reachable, |pending|
    {
      var n := |pending| - 1;
      var revision := pending[n];
      assert pending == pending[..n] + [revision];
      pending := pending[..n];
      if revision !in reachable {
        ghost var left := g.Keys - reachable;
        assert revision in left;
        reachable := reachable + {revision};
        var children := Children(g, revision);
        while children != {}
          invariant children <= Children(g, revision)
          invariant forall i :: 0 <= i < |pending| ==> pending[i] in g && Descends(g, root, pending[i])
          invariant root in reachable || root in pending
          invariant forall p, r :: p in reachable && r in g && p in g[r] ==>
                      r in reachable || r in pending || (p == revision && r in children)
          decreases children
        {
          var child :| child in children;
          ChildDescends(g, root, revision, child);
          pending, children := pending + [child], children - {child};
        }
      }
    }
    DescendantsStay(g, reachable, root);
  }

  // ------------------------------------------------- what makes a graph clean

  ghost predicate Clean(g: Graph) {
    SingleKnownParents(g) && SingleChildren(g) && OneRootDown(g)
  }

  predicate SingleKnownParents(g: Graph) {
    (forall r :: r in g ==> |g[r]| <= 1) && (forall r, p :: r in g && p in g[r] ==> p in g)
  }

  ghost predicate SingleChildren(g: Graph) {
    forall p :: |Children(g, p)| <= 1
  }

  ghost predicate OneRootDown(g: Graph) {
    && |Roots(g)| == 1
    && |Heads(g)| == 1
    && Acyclic(g)
    && (forall root, r :: root in Roots(g) && r in g ==> Descends(g, root, r))
  }

  ghost predicate Acyclic(g: Graph) {
    forall c :: !IsCycle(g, c)
  }

  lemma AtMostOne<T>(s: set<T>)
    ensures |s| <= 1 <==> forall x, y :: x in s && y in s ==> x == y
  {
    if s != {} {
      var x :| x in s;
      assert |s - {x}| == |s| - 1;
      if |s| > 1 {
        var y :| y in s - {x};
        assert x in s && y in s && x != y;
      } else {
        assert s - {x} == {};
        assert forall y :: y in s ==> y == x || y in s - {x};
      }
    }
  }

  /** A clean graph is one chain. */
  lemma CleanIsChain(g: Graph) returns (chain: seq<string>)
    requires Clean(g)
    ensures IsChain(g, chain)
  {
    assert Roots(g) != {};
    var root :| root in Roots(g);
    chain := [root];
    while Children(g, chain[|chain| - 1]) != {}
      invariant |chain| > 0 && chain[0] == root && Distinct(chain)
      invariant forall i :: 0 <= i < |chain| ==> chain[i] in g
      invariant forall i :: 0 < i < |chain| ==> g[chain[i]] == [chain[i - 1]]
      decreases g.Keys - set r | r in chain
    {
      var last := chain[|chain| - 1];
      var c :| c in Children(g, last);
      assert g[c] == [last];
      ghost var unseen := g.Keys - set r | r in chain;
      forall i | 0 <= i < |chain| ensures chain[i] != c {
        assert g[chain[i]] == if i == 0 then [] else [chain[i - 1]];
      }
      assert c in unseen;
      chain := chain + [c];
    }
    ChainHoldsAll(g, chain);
  }

  lemma ChainHoldsAll(g: Graph, chain: seq<string>)
    requires Clean(g) && |chain| > 0 && chain[0] in Roots(g)
    requires forall i :: 0 <= i < |chain| ==> chain[i] in g
    requires forall i :: 0 < i < |chain| ==> g[chain[i]] == [chain[i - 1]]
    requires Children(g, chain[|chain| - 1]) == {}
    ensures (set r | r in chain) == g.Keys
  {
    var s := set r | r in chain;
    forall p, r | p in s && r in g && p in g[r] ensures r in s {
      var i :| 0 <= i < |chain| && chain[i] == p;
      assert r in Children(g, p);
      if i + 1 < |chain| {
        assert chain[i + 1] in Children(g, p);
        AtMostOne(Children(g, p));
      }
    }
    DescendantsStay(g, s, chain[0]);
  }

  lemma ChainIndex(g: Graph, chain: seq<string>, r: string) returns (i: nat)
    requires IsChain(g, chain) && r in g
    ensures i < |chain| && chain[i] == r
  {
    assert r in set x | x in chain;
    i :| 0 <= i < |chain| && chain[i] == r;
  }

  lemma ChainChildren(g: Graph, chain: seq<string>, p: string, r: string) returns (i: nat)
    requires IsChain(g, chain) && r in Children(g, p)
    ensures 0 < i < |chain| && chain[i] == r && chain[i - 1] == p
  {
    i := ChainIndex(g, chain, r);
  }

  lemma ChainHasNoCycle(g: Graph, chain: seq<string>, c: seq<string>)
    requires IsChain(g, chain)
    ensures !IsCycle(g, c)
  {
    if IsCycle(g, c) {
      var i := ChainIndex(g, chain, c[0]);
      var below := set r | r in chain[..i];
      var k := if 1 < |c| then 1 else 0;
      assert g[c[0]] == [c[k]] && i > 0;
      assert chain[..i][i - 1] == c[k];
      forall r | r in below && r in g && |g[r]| == 1 ensures g[r][0] in below {
        var m :| 0 <= m < i && chain[..i][m] == r;
        assert m > 0 && chain[..i][m - 1] == g[r][0];
      }
      CycleStays(g, c, below, k);
    }
  }

  lemma ChainDescends(g: Graph, chain: seq<string>, r: string)
    requires IsChain(g, chain) && r in g
    ensures Descends(g, chain[0], r)
  {
    var i := ChainIndex(g, chain, r);
    var line := chain[..i + 1];
    assert IsLine(g, line) && line[0] == chain[0] && line[|line| - 1] == r;
  }

  /** ... and a chain is a clean graph. */
  lemma ChainIsClean(g: Graph, chain: seq<string>)
    requires IsChain(g, chain)
    ensures Clean(g)
  {
    forall r | r in g ensures |g[r]| <= 1 && forall p :: p in g[r] ==> p in g {
      var i := ChainIndex(g, chain, r);
      if i > 0 { assert chain[i - 1] in set x | x in chain; }
    }
    forall p ensures |Children(g, p)| <= 1 {
      forall r, q | r in Children(g, p) && q in Children(g, p) ensures r == q {
        var i := ChainChildren(g, chain, p, r);
        var j := ChainChildren(g, chain, p, q);
      }
      AtMostOne(Children(g, p));
    }
    ChainEnds(g, chain);
    forall c ensures !IsCycle(g, c) { ChainHasNoCycle(g, chain, c); }
    forall root, r | root in Roots(g) && r in g ensures Descends(g, root, r) { ChainDescends(g, chain, r); }
  }

  lemma ChainEnds(g: Graph, chain: seq<string>)
    requires IsChain(g, chain)
    ensures Roots(g) == {chain[0]} && Heads(g) == {chain[|chain| - 1]}
  {
    forall r | r in g ensures r in Roots(g) <==> r == chain[0] { ChainRoot(g, chain, r); }
    forall r | r in g ensures r in Heads(g) <==> r == chain[|chain| - 1] { ChainHead(g, chain, r); }
    assert chain[0] in (set x | x in chain) && chain[|chain| - 1] in (set x | x in chain);
  }

  lemma ChainRoot(g: Graph, chain: seq<string>, r: string)
    requires IsChain(g, chain) && r in g
    ensures r in Roots(g) <==> r == chain[0]
  {
    var i := ChainIndex(g, chain, r);
    assert g[chain[i]] == if i == 0 then [] else [chain[i - 1]];
  }

  lemma ChainHead(g: Graph, chain: seq<string>, r: string)
    requires IsChain(g, chain) && r in g
    ensures r in Heads(g) <==> r == chain[|chain| - 1]
  {
    var i := ChainIndex(g, chain, r);
    if i + 1 < |chain| {
      assert chain[i + 1] in set x | x in chain;
      assert chain[i + 1] in Children(g, r);
    } else if c :| c in Children(g, r) {
      var j := ChainChildren(g, chain, r, c);
    }
  }

  // ---------------------------------------------------------------- findings

  function Occurrences(nodes: seq<Node>, r: string): set<nat> {
    set i: nat | i < |nodes| && nodes[i].revision == r
  }

  function Revisions(nodes: seq<Node>): set<string> {
    set i | 0 <= i < |nodes| :: nodes[i].revision
  }

  /** The graph of the revisions that occur exactly once. */
  ghost predicate IsUnique(nodes: seq<Node>, g: Graph) {
    && (forall r :: r in g <==> r in Revisions(nodes) && |Occurrences(nodes, r)| == 1)
    && forall i :: 0 <= i < |nodes| && nodes[i].revision in g ==> g[nodes[i].revision] == nodes[i].parents
  }

  /** Groups the nodes by revision. */
  method ByRevision(nodes: seq<Node>) returns (grouped: map<string, seq<nat>>)
    ensures grouped.Keys == Revisions(nodes)
    ensures forall r :: r in grouped ==>
              |grouped[r]| > 0 && Distinct(grouped[r]) && Elements(grouped[r]) == Occurrences(nodes, r)
  {
    grouped := map[];
    for k := 0 to |nodes|
      invariant grouped.Keys == set i | 0 <= i < k :: nodes[i].revision
      invariant forall r :: r in grouped ==>
                  && |grouped[r]| > 0 && Distinct(grouped[r])
                  && forall i :: i in grouped[r] <==> 0 <= i < k && nodes[i].revision == r
    {
      var r := nodes[k].revision;
      grouped := grouped[r := (if r in grouped then grouped[r] else []) + [k]];
    }
  }

  function Elements(s: seq<nat>): set<nat> {
    set i | i in s
  }

  lemma {:induction false} DistinctCount(s: seq<nat>)
    requires Distinct(s)
    ensures |Elements(s)| == |s|
  {
    if s != [] {
      var n := |s| - 1;
      DistinctCount(s[..n]);
      assert s[n] !in Elements(s[..n]);
      assert Elements(s) == Elements(s[..n]) + {s[n]};
    }
  }

  /** Duplicated revisions are reported and dropped. */
  method Unique(nodes: seq<Node>) returns (g: Graph, findings: seq<Finding>)
    requires Parsed(nodes)
    ensures WellFormed(g) && IsUnique(nodes, g)
    ensures forall f :: f in findings <==> f.DuplicateRevision? && |Occurrences(nodes, f.revision)| > 1
  {
    var grouped := ByRevision(nodes);
    g, findings := map[], [];
    var left := grouped.Keys;
    while left != {}
      invariant left <= grouped.Keys && WellFormed(g)
      invariant forall r :: r in g <==> r in grouped.Keys - left && |Occurrences(nodes, r)| == 1
      invariant forall r :: r in g ==> exists i :: 0 <= i < |nodes| && nodes[i] == Node(r, g[r])
      invariant forall f :: f in findings <==>
                  f.DuplicateRevision? && f.revision in grouped.Keys - left && |Occurrences(nodes, f.revision)| > 1
      decreases left
    {
      var r :| r in left;
      left := left - {r};
      DistinctCount(grouped[r]);
      if |grouped[r]| > 1 {
        findings := findings + [DuplicateRevision(r)];
      } else {
        var first := grouped[r][0];
        assert first in grouped[r];
        g := g[r := nodes[first].parents];
      }
    }
    forall i | 0 <= i < |nodes| && nodes[i].revision in g ensures g[nodes[i].revision] == nodes[i].parents {
      var r := nodes[i].revision;
      var j :| 0 <= j < |nodes| && nodes[j] == Node(r, g[r]);
      AtMostOne(Occurrences(nodes, r));
      assert i in Occurrences(nodes, r) && j in Occurrences(nodes, r);
    }
    forall f: Finding | f.DuplicateRevision? && |Occurrences(nodes, f.revision)| > 1
      ensures f.revision in grouped.Keys
    {
      var i :| i in Occurrences(nodes, f.revision);
    }
  }

  /** Merge and orphan findings, and how many children each named parent has. */
  method Edges(g: Graph, flags: Flags) returns (counts: map<string, nat>, findings: seq<Finding>)
    requires WellFormed(g)
    ensures CountsChildren(g, {}, counts)
    ensures FindsEdges(g, g.Keys, flags, findings)
  {
    counts, findings := map[], [];
    var left := g.Keys;
    while left != {}
      invariant left <= g.Keys
      invariant CountsChildren(g, left, counts)
      invariant FindsEdges(g, g.Keys - left, flags, findings)
      decreases left
    {
      var r :| r in left;
      ghost var was, had, before := counts, findings, left;
      left := left - {r};
      counts, findings := Parents(g, r, flags, counts, findings);
      CountOneMore(g, r, before, was, counts);
      FindOneMore(g, r, before, flags, had, findings);
    }
    assert g.Keys - {} == g.Keys;
  }

  ghost predicate CountsChildren(g: Graph, left: set<string>, counts: map<string, nat>) {
    forall p :: Counted(counts, p) == |Children(g, p) - left|
  }

  ghost predicate FindsEdges(g: Graph, revisions: set<string>, flags: Flags, findings: seq<Finding>) {
    forall f :: f in findings <==> EdgeFinding(g, revisions, flags, f)
  }

  lemma CountOneMore(g: Graph, r: string, left: set<string>, was: map<string, nat>, counts: map<string, nat>)
    requires r in left && r in g && CountsChildren(g, left, was)
    requires forall p :: Counted(counts, p) == Counted(was, p) + if p in g[r] then 1 else 0
    ensures CountsChildren(g, left - {r}, counts)
  {
    forall p ensures Counted(counts, p) == |Children(g, p) - (left - {r})| {
      assert Counted(was, p) == |Children(g, p) - left|;
      hide Counted;
      OneLessLeft(Children(g, p), left, r);
    }
  }

  lemma OneLessLeft(kids: set<string>, left: set<string>, r: string)
    requires r in left
    ensures |kids - (left - {r})| == |kids - left| + if r in kids then 1 else 0
  {
    assert kids - (left - {r}) == if r in kids then (kids - left) + {r} else kids - left;
  }

  lemma FindOneMore(g: Graph, r: string, left: set<string>, flags: Flags, had: seq<Finding>, findings: seq<Finding>)
    requires r in left && left <= g.Keys && FindsEdges(g, g.Keys - left, flags, had)
    requires forall f :: f in findings <==> f in had || EdgeFinding(g, {r}, flags, f)
    ensures FindsEdges(g, g.Keys - (left - {r}), flags, findings)
  {
  }

  function Counted(counts: map<string, nat>, p: string): nat {
    if p in counts then counts[p] else 0
  }

  ghost predicate EdgeFinding(g: Graph, revisions: set<string>, flags: Flags, f: Finding) {
    || (f.Merge? && flags.forbidMerges && f.revision in revisions && f.revision in g && |g[f.revision]| > 1)
    || (f.Orphan? && flags.forbidOrphans && f.revision in revisions && f.revision in g
        && f.parent in g[f.revision] && f.parent !in g)
  }

  /** The parents one revision names. */
  method Parents(g: Graph, r: string, flags: Flags, before: map<string, nat>, had: seq<Finding>)
    returns (counts: map<string, nat>, findings: seq<Finding>)
    requires r in g && Distinct(g[r])
    ensures forall p :: Counted(counts, p) == Counted(before, p) + if p in g[r] then 1 else 0
    ensures forall f :: f in findings <==> f in had || EdgeFinding(g, {r}, flags, f)
  {
    counts, findings := before, had;
    var parents := g[r];
    if flags.forbidMerges && |parents| > 1 { findings := findings + [Merge(r)]; }
    for k := 0 to |parents|
      invariant forall p :: Counted(counts, p) == Counted(before, p) + if p in parents[..k] then 1 else 0
      invariant forall f :: f in findings <==>
                  || f in had
                  || (f == Merge(r) && flags.forbidMerges && |parents| > 1)
                  || (f.Orphan? && flags.forbidOrphans && f.revision == r && f.parent in parents[..k] && f.parent !in g)
    {
      var parent := parents[k];
      assert parents[..k + 1] == parents[..k] + [parent] && parent !in parents[..k];
      counts := counts[parent := Counted(counts, parent) + 1];
      if parent !in g && flags.forbidOrphans { findings := findings + [Orphan(r, parent)]; }
    }
    assert parents[..|parents|] == parents;
  }

  /** Parents with more than one child. */
  method Forks(g: Graph, counts: map<string, nat>) returns (findings: seq<Finding>)
    requires CountsChildren(g, {}, counts)
    ensures forall f :: f in findings <==> f.Fork? && |Children(g, f.parent)| > 1
  {
    assert forall p :: Counted(counts, p) == |Children(g, p)| by {
      forall p ensures Counted(counts, p) == |Children(g, p)| {
        assert Children(g, p) - {} == Children(g, p);
      }
    }
    findings := [];
    var left := counts.Keys;
    while left != {}
      invariant left <= counts.Keys
      invariant forall f :: f in findings <==> f.Fork? && f.parent in counts.Keys - left && counts[f.parent] > 1
      decreases left
    {
      var p :| p in left;
      left := left - {p};
      if counts[p] > 1 { findings := findings + [Fork(p)]; }
    }
  }

  /** Revisions that are not below the one root. */
  ghost predicate IsDetached(g: Graph, detached: set<string>) {
    forall r ::
      r in detached <==> r in g && (|Roots(g)| != 1 || forall root :: root in Roots(g) ==> !Descends(g, root, r))
  }

  method CycleFindings(cycles: seq<seq<string>>) returns (findings: seq<Finding>)
    ensures forall f :: f in findings <==> f.Cycle? && f.cycle in cycles
  {
    findings := [];
    for k := 0 to |cycles|
      invariant forall f :: f in findings <==> f.Cycle? && f.cycle in cycles[..k]
    {
      findings := findings + [Cycle(cycles[k])];
    }
    assert cycles[..|cycles|] == cycles;
  }

  /** What the one root reaches; nothing when there is not exactly one. */
  method Detached(g: Graph) returns (detached: set<string>)
    ensures IsDetached(g, detached)
  {
    var roots := Roots(g);
    var reachable: set<string> := {};
    if |roots| == 1 {
      var root :| root in roots;
      reachable := Reachable(g, root);
      AtMostOne(roots);
    }
    detached := g.Keys - reachable;
  }

  method StrictFindings(g: Graph, cycles: seq<seq<string>>, detached: set<string>) returns (findings: seq<Finding>)
    ensures forall f :: f in findings <==> StrictFinding(g, cycles, detached, f)
  {
    findings := [];
    var roots, heads := Roots(g), Heads(g);
    if |roots| != 1 { findings := findings + [RootCount(|roots|)]; }
    if |heads| != 1 { findings := findings + [HeadCount(|heads|)]; }
    var found := CycleFindings(cycles);
    findings := findings + found;
    if detached != {} { findings := findings + [Disconnected(detached)]; }
  }

  /** The strict part: root and head counts, cycles, and revisions off the one root. */
  method Strict(g: Graph) returns (findings: seq<Finding>, cycles: seq<seq<string>>, detached: set<string>)
    requires WellFormed(g)
    ensures AllCycles(g, cycles) && IsDetached(g, detached)
    ensures forall f :: f in findings <==> StrictFinding(g, cycles, detached, f)
  {
    hide *;
    cycles := FindCycles(g);
    detached := Detached(g);
    findings := StrictFindings(g, cycles, detached);
  }

  ghost predicate StrictFinding(g: Graph, cycles: seq<seq<string>>, detached: set<string>, f: Finding) {
    match f
    case RootCount(n) => n == |Roots(g)| != 1
    case HeadCount(n) => n == |Heads(g)| != 1
    case Cycle(c) => c in cycles
    case Disconnected(s) => s == detached != {}
    case _ => false
  }

  predicate Structural(f: Finding) { f.RootCount? || f.HeadCount? || f.Cycle? || f.Disconnected? }

  /** The whole check.  With every flag on it finds nothing exactly when the
      migrations form one chain. */
  method GraphFindings(nodes: seq<Node>, flags: Flags)
    returns (findings: seq<Finding>, ghost g: Graph, ghost loops: seq<seq<string>>, ghost apart: set<string>)
    requires Parsed(nodes)
    ensures IsUnique(nodes, g)
    ensures forall f ::
              f in findings && f.DuplicateRevision? <==> f.DuplicateRevision? && |Occurrences(nodes, f.revision)| > 1
    ensures forall f :: f in findings && (f.Merge? || f.Orphan?) <==> EdgeFinding(g, g.Keys, flags, f)
    ensures forall f :: f in findings && f.Fork? <==> f.Fork? && flags.forbidForks && |Children(g, f.parent)| > 1
    ensures flags.strict ==> AllCycles(g, loops) && IsDetached(g, apart)
    ensures forall f :: f in findings && Structural(f) <==> flags.strict && StrictFinding(g, loops, apart, f)
    ensures flags == Flags(true, true, true, true) ==> (findings == [] <==> FormOneChain(nodes))
  {
    hide AllCycles, IsDetached, Clean, FormOneChain;
    var duplicates, edges, forks, strict: seq<Finding>;
    var graph;
    graph, duplicates := Unique(nodes);
    g := graph;
    var counts;
    counts, edges := Edges(graph, flags);
    forks := [];
    if flags.forbidForks { forks := Forks(graph, counts); }
    strict := [];
    var cycles, detached := [], {};
    if flags.strict { strict, cycles, detached := Strict(graph); }
    loops, apart := cycles, detached;
    findings := duplicates + edges + forks + strict;
    if flags == Flags(true, true, true, true) {
      EmptyIsClean(nodes, graph, flags, duplicates, edges, forks, strict, cycles, detached);
      CleanIsOneChain(nodes, graph);
    }
  }

  /** Read off the findings: nothing is found exactly when nothing is duplicated and
      the graph is clean. */
  lemma EmptyIsClean(nodes: seq<Node>, g: Graph, flags: Flags, duplicates: seq<Finding>, edges: seq<Finding>,
                     forks: seq<Finding>, strict: seq<Finding>, cycles: seq<seq<string>>, detached: set<string>)
    requires flags == Flags(true, true, true, true)
    requires forall f :: f in duplicates <==> f.DuplicateRevision? && |Occurrences(nodes, f.revision)| > 1
    requires FindsEdges(g, g.Keys, flags, edges)
    requires forall f :: f in forks <==> f.Fork? && |Children(g, f.parent)| > 1
    requires AllCycles(g, cycles) && IsDetached(g, detached)
    requires forall f :: f in strict <==> StrictFinding(g, cycles, detached, f)
    ensures duplicates + edges + forks + strict == [] <==>
            (forall r :: |Occurrences(nodes, r)| <= 1) && Clean(g)
  {
    hide SingleKnownParents, SingleChildren, OneRootDown, FindsEdges, AllCycles, IsDetached;
    DuplicatesEmpty(nodes, duplicates);
    EdgesEmpty(g, flags, edges);
    ForksEmpty(g, forks);
    StrictEmpty(g, strict, cycles, detached);
  }

  lemma DuplicatesEmpty(nodes: seq<Node>, duplicates: seq<Finding>)
    requires forall f :: f in duplicates <==> f.DuplicateRevision? && |Occurrences(nodes, f.revision)| > 1
    ensures duplicates == [] <==> forall r :: |Occurrences(nodes, r)| <= 1
  {
    EmptySeq(duplicates);
    forall r ensures DuplicateRevision(r) in duplicates <==> |Occurrences(nodes, r)| > 1 {}
  }

  lemma ForksEmpty(g: Graph, forks: seq<Finding>)
    requires forall f :: f in forks <==> f.Fork? && |Children(g, f.parent)| > 1
    ensures forks == [] <==> SingleChildren(g)
  {
    EmptySeq(forks);
    forall p ensures Fork(p) in forks <==> |Children(g, p)| > 1 {}
  }

  lemma EdgesEmpty(g: Graph, flags: Flags, edges: seq<Finding>)
    requires flags.forbidMerges && flags.forbidOrphans && FindsEdges(g, g.Keys, flags, edges)
    ensures edges == [] <==> SingleKnownParents(g)
  {
    EmptySeq(edges);
    forall r | r in g ensures Merge(r) in edges <==> |g[r]| > 1 {
      assert EdgeFinding(g, g.Keys, flags, Merge(r)) <==> |g[r]| > 1;
    }
    forall r, p | r in g && p in g[r] ensures Orphan(r, p) in edges <==> p !in g {
      assert EdgeFinding(g, g.Keys, flags, Orphan(r, p)) <==> p !in g;
    }
  }

  lemma StrictEmpty(g: Graph, strict: seq<Finding>, cycles: seq<seq<string>>, detached: set<string>)
    requires AllCycles(g, cycles) && IsDetached(g, detached)
    requires forall f :: f in strict <==> StrictFinding(g, cycles, detached, f)
    ensures strict == [] <==> OneRootDown(g)
  {
    StrictCategories(g, strict, cycles, detached);
    hide StrictFinding, AllCycles, IsDetached, Acyclic;
    NoCycles(g, cycles);
    NothingDetached(g, detached);
  }

  lemma StrictCategories(g: Graph, strict: seq<Finding>, cycles: seq<seq<string>>, detached: set<string>)
    requires forall f :: f in strict <==> StrictFinding(g, cycles, detached, f)
    ensures strict == [] <==> |Roots(g)| == 1 && |Heads(g)| == 1 && cycles == [] && detached == {}
  {
    EmptySeq(strict);
    assert RootCount(|Roots(g)|) in strict <==> |Roots(g)| != 1;
    assert HeadCount(|Heads(g)|) in strict <==> |Heads(g)| != 1;
    assert Disconnected(detached) in strict <==> detached != {};
    if cycles != [] { assert Cycle(cycles[0]) in strict; }
  }

  lemma NothingDetached(g: Graph, detached: set<string>)
    requires IsDetached(g, detached)
    ensures |Roots(g)| == 1 ==>
              (detached == {} <==> forall root, r :: root in Roots(g) && r in g ==> Descends(g, root, r))
  {
    AtMostOne(Roots(g));
  }

  lemma NoCycles(g: Graph, cycles: seq<seq<string>>)
    requires AllCycles(g, cycles)
    ensures cycles == [] <==> Acyclic(g)
  {
    if c :| IsCycle(g, c) {
      assert c[0] in c && Reported(cycles, c[0]);
    }
    if cycles != [] { assert IsCycle(g, cycles[0]); }
  }

  lemma EmptySeq<T>(s: seq<T>)
    ensures s == [] <==> forall x :: x !in s
  {
    if s != [] { assert s[0] in s; }
  }

  /** The migrations, in some order, are a root and then each one's only child. */
  ghost predicate FormOneChain(nodes: seq<Node>) {
    (forall r :: |Occurrences(nodes, r)| <= 1) && exists chain :: NodesFollow(nodes, chain)
  }

  ghost predicate NodesFollow(nodes: seq<Node>, chain: seq<string>) {
    && |chain| > 0
    && Distinct(chain)
    && (set r | r in chain) == Revisions(nodes)
    && forall i, k :: 0 <= i < |nodes| && 0 <= k < |chain| && nodes[i].revision == chain[k] ==>
         nodes[i].parents == if k == 0 then [] else [chain[k - 1]]
  }

  /** For distinct revisions the graph is clean exactly when the nodes form one chain. */
  lemma CleanIsOneChain(nodes: seq<Node>, g: Graph)
    requires IsUnique(nodes, g)
    ensures (forall r :: |Occurrences(nodes, r)| <= 1) && Clean(g) <==> FormOneChain(nodes)
  {
    if forall r :: |Occurrences(nodes, r)| <= 1 {
      AllUnique(nodes, g);
      if Clean(g) {
        var chain := CleanIsChain(g);
        ChainIsFollowed(nodes, g, chain);
      }
      if chain :| NodesFollow(nodes, chain) {
        FollowedIsChain(nodes, g, chain);
        ChainIsClean(g, chain);
      }
    }
  }

  lemma AllUnique(nodes: seq<Node>, g: Graph)
    requires IsUnique(nodes, g) && forall r :: |Occurrences(nodes, r)| <= 1
    ensures g.Keys == Revisions(nodes)
  {
    forall i: nat | i < |nodes| ensures |Occurrences(nodes, nodes[i].revision)| == 1 {
      assert i in Occurrences(nodes, nodes[i].revision);
    }
  }

  lemma ChainIsFollowed(nodes: seq<Node>, g: Graph, chain: seq<string>)
    requires IsUnique(nodes, g) && g.Keys == Revisions(nodes) && IsChain(g, chain)
    ensures NodesFollow(nodes, chain)
  {
  }

  lemma FollowedAt(nodes: seq<Node>, g: Graph, chain: seq<string>, k: nat)
    requires IsUnique(nodes, g) && g.Keys == Revisions(nodes) && NodesFollow(nodes, chain) && k < |chain|
    ensures chain[k] in g && g[chain[k]] == if k == 0 then [] else [chain[k - 1]]
  {
    assert chain[k] in set r | r in chain;
    assert chain[k] in Revisions(nodes);
    var i :| 0 <= i < |nodes| && nodes[i].revision == chain[k];
  }

  lemma FollowedIsChain(nodes: seq<Node>, g: Graph, chain: seq<string>)
    requires IsUnique(nodes, g) && g.Keys == Revisions(nodes) && NodesFollow(nodes, chain)
    ensures IsChain(g, chain)
  {
    hide IsUnique;
    FollowedAt(nodes, g, chain, 0);
    forall k | 0 < k < |chain| ensures g[chain[k]] == [chain[k - 1]] { FollowedAt(nodes, g, chain, k); }
  }
}
