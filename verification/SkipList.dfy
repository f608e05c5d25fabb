/** The skip-list priority queue, as the manager uses it: one caller at a time. */
module SkipList {
  import opened Basics
  import opened Sequences
  import opened PriorityOrder

  const MAX_LEVEL := 16

  class SkipNode<T(0)> {
    const entry: Entry<T>
    const level: nat
    var next: seq<SkipNode?<T>>

    constructor (entry: Entry<T>, level: nat)
      ensures this.entry == entry && this.level == level
      ensures next == seq(level, _ => null)
    {
      this.entry := entry;
      this.level := level;
      this.next := seq(level, _ => null);
    }
  }

  /** The first node at or behind position `k` that reaches level `i`. */
  function FirstTall<T(0)>(all: seq<SkipNode<T>>, k: nat, i: nat): SkipNode?<T>
    decreases |all| - k
  {
    if k >= |all| then null else if all[k].level > i then all[k] else FirstTall(all, k + 1, i)
  }

  /** The last node at or before position `k` that reaches level `i`; the first node always does. */
  function LastTall<T(0)>(all: seq<SkipNode<T>>, k: nat, i: nat): SkipNode<T>
    requires k < |all| && all[0].level > i
  {
    if all[k].level > i then all[k] else LastTall(all, k - 1, i)
  }

  lemma {:induction false} FirstTallAt<T(0)>(all: seq<SkipNode<T>>, k: nat, i: nat) returns (j: nat)
    requires k <= |all|
    ensures k <= j <= |all| && forall m :: k <= m < j ==> all[m].level <= i
    ensures if j == |all| then FirstTall(all, k, i) == null else FirstTall(all, k, i) == all[j] && all[j].level > i
    decreases |all| - k
  {
    if k == |all| || all[k].level > i {
      j := k;
    } else {
      j := FirstTallAt(all, k + 1, i);
    }
  }

  lemma {:induction false} FirstTallIs<T(0)>(all: seq<SkipNode<T>>, k: nat, i: nat, j: nat)
    requires k <= j < |all| && all[j].level > i && forall m :: k <= m < j ==> all[m].level <= i
    ensures FirstTall(all, k, i) == all[j]
    decreases j - k
  {
    if k < j {
      FirstTallIs(all, k + 1, i, j);
    }
  }

  lemma {:induction false} FirstTallSkip<T(0)>(all: seq<SkipNode<T>>, k: nat, i: nat, j: nat)
    requires k <= j <= |all| && forall m :: k <= m < j ==> all[m].level <= i
    ensures FirstTall(all, k, i) == FirstTall(all, j, i)
    decreases j - k
  {
    if k < j {
      FirstTallSkip(all, k + 1, i, j);
    }
  }

  lemma {:induction false} LastTallIs<T(0)>(all: seq<SkipNode<T>>, k: nat, i: nat, j: nat)
    requires j <= k < |all| && all[0].level > i && all[j].level > i && forall m :: j < m <= k ==> all[m].level <= i
    ensures LastTall(all, k, i) == all[j]
  {
    if j < k {
      LastTallIs(all, k - 1, i, j);
    }
  }

  lemma {:induction false} LastTallAt<T(0)>(all: seq<SkipNode<T>>, k: nat, i: nat) returns (j: nat)
    requires k < |all| && all[0].level > i
    ensures j <= k && LastTall(all, k, i) == all[j] && all[j].level > i && forall m :: j < m <= k ==> all[m].level <= i
  {
    if all[k].level > i {
      j := k;
    } else {
      j := LastTallAt(all, k - 1, i);
    }
  }

  lemma {:induction false} FirstTallShift<T(0)>(a: seq<SkipNode<T>>, k: nat, b: seq<SkipNode<T>>, l: nat, i: nat)
    requires k <= |a| && l <= |b| && a[k..] == b[l..]
    ensures FirstTall(a, k, i) == FirstTall(b, l, i)
    decreases |a| - k
  {
    assert |a| - k == |a[k..]| && |b| - l == |b[l..]|;
    if k < |a| {
      assert a[k] == a[k..][0] && b[l] == b[l..][0];
      assert a[k + 1..] == a[k..][1..] && b[l + 1..] == b[l..][1..];
      FirstTallShift(a, k + 1, b, l + 1, i);
    }
  }

  // ----- Inserting and removing a node, seen from one link

  function InsertNode<T(0)>(all: seq<SkipNode<T>>, pos: nat, n: SkipNode<T>): seq<SkipNode<T>>
    requires pos < |all|
  {
    all[..pos + 1] + [n] + all[pos + 1..]
  }

  /** Behind the new node nothing changes. */
  lemma LinkBehind<T(0)>(all: seq<SkipNode<T>>, pos: nat, n: SkipNode<T>, k: nat, i: nat)
    requires pos < |all| && pos < k <= |all|
    ensures FirstTall(InsertNode(all, pos, n), k + 1, i) == FirstTall(all, k, i)
  {
    var all' := InsertNode(all, pos, n);
    assert all'[k + 1..] == all[k..];
    FirstTallShift(all', k + 1, all, k, i);
  }

  /** Before the new node, the link of the last tall enough node leads to it and no other changes. */
  lemma LinkBefore<T(0)>(all: seq<SkipNode<T>>, pos: nat, n: SkipNode<T>, k: nat, i: nat)
    requires pos < |all| && k <= pos && all[0].level > i && all[k].level > i && NoDup(all)
    ensures FirstTall(InsertNode(all, pos, n), k + 1, i)
         == if i < n.level && all[k] == LastTall(all, pos, i) then n else FirstTall(all, k + 1, i)
  {
    var all' := InsertNode(all, pos, n);
    var j := FirstTallAt(all, k + 1, i);
    if j <= pos {
      FirstTallIs(all', k + 1, i, j);
      var l := LastTallAt(all, pos, i);
      assert l >= j;
    } else {
      LastTallIs(all, pos, i, k);
      if i < n.level {
        FirstTallIs(all', k + 1, i, pos + 1);
      } else {
        FirstTallSkip(all', k + 1, i, pos + 2);
        FirstTallSkip(all, k + 1, i, pos + 1);
        LinkBehind(all, pos, n, pos + 1, i);
      }
    }
  }

  /** At every level, each node that reaches it links to the next node that reaches it. */
  ghost predicate LinksFit<T(0)>(all: seq<SkipNode<T>>, links: seq<seq<SkipNode?<T>>>) {
    && |links| == |all|
    && (forall k :: 0 <= k < |all| ==> |links[k]| == all[k].level)
    && (forall k, i :: 0 <= k < |all| && 0 <= i < |links[k]| ==> links[k][i] == FirstTall(all, k + 1, i))
  }

  /** Splicing node `n` in behind the nodes of `update` has been done on the lowest `done` levels. */
  ghost predicate Spliced<T(0)>(all: seq<SkipNode<T>>, update: seq<SkipNode<T>>,
                                n: SkipNode<T>, newNext: seq<SkipNode?<T>>,
                                before: seq<seq<SkipNode?<T>>>, links: seq<seq<SkipNode?<T>>>, done: nat)
  {
    && |before| == |links| == |all| && |newNext| == n.level && done <= n.level <= |update|
    && (forall k :: 0 <= k < |all| ==> |links[k]| == |before[k]|)
    && (forall k, i :: 0 <= k < |all| && 0 <= i < |links[k]| ==>
          links[k][i] == if i < done && all[k] == update[i] then n else before[k][i])
    && (forall k, i :: 0 <= k < |all| && 0 <= i < done && i < |before[k]| && all[k] == update[i] ==>
          newNext[i] == before[k][i])
  }

  lemma SpliceStep<T(0)>(all: seq<SkipNode<T>>, update: seq<SkipNode<T>>, n: SkipNode<T>, newNext: seq<SkipNode?<T>>,
                         before: seq<seq<SkipNode?<T>>>, links: seq<seq<SkipNode?<T>>>, i: nat, l: nat)
    requires NoDup(all) && i < n.level && l < |all|
    requires Spliced(all, update, n, newNext, before, links, i) && update[i] == all[l] && i < |links[l]|
    ensures Spliced(all, update, n, newNext[i := links[l][i]], before, links[l := links[l][i := n]], i + 1)
  {
  }

  /** The nodes found by the search: at each level the last one up to position `pos`. */
  ghost predicate Found<T(0)>(all: seq<SkipNode<T>>, pos: nat, update: seq<SkipNode<T>>) {
    && pos < |all| && all[0].level == MAX_LEVEL == |update|
    && forall i :: 0 <= i < MAX_LEVEL ==> update[i] == LastTall(all, pos, i)
  }

  lemma SplicedLinks<T(0)>(all: seq<SkipNode<T>>, pos: nat, update: seq<SkipNode<T>>,
                           n: SkipNode<T>, newNext: seq<SkipNode?<T>>,
                           before: seq<seq<SkipNode?<T>>>, links: seq<seq<SkipNode?<T>>>)
    requires NoDup(all) && Found(all, pos, update) && n.level <= MAX_LEVEL
    requires forall k :: 0 <= k < |all| ==> all[k].level <= MAX_LEVEL
    requires LinksFit(all, before) && Spliced(all, update, n, newNext, before, links, n.level)
    ensures LinksFit(InsertNode(all, pos, n), links[..pos + 1] + [newNext] + links[pos + 1..])
  {
    var all' := InsertNode(all, pos, n);
    var links' := links[..pos + 1] + [newNext] + links[pos + 1..];
    hide FirstTall, LastTall;
    forall k, i | 0 <= k < |all'| && 0 <= i < |links'[k]| ensures links'[k][i] == FirstTall(all', k + 1, i) {
      if k <= pos {
        assert links'[k] == links[k] && all'[k] == all[k] && update[i] == LastTall(all, pos, i);
        LinkBefore(all, pos, n, k, i);
      } else if k == pos + 1 {
        assert links'[k] == newNext;
        NewLink(all, pos, update, n, newNext, before, links, i);
      } else {
        assert links'[k] == links[k - 1];
        var l := LastTallAt(all, pos, i);
        assert all[k - 1] != all[l];
        LinkBehind(all, pos, n, k, i);
      }
    }
  }

  /** The new node's own link. */
  lemma NewLink<T(0)>(all: seq<SkipNode<T>>, pos: nat, update: seq<SkipNode<T>>,
                      n: SkipNode<T>, newNext: seq<SkipNode?<T>>,
                      before: seq<seq<SkipNode?<T>>>, links: seq<seq<SkipNode?<T>>>, i: nat)
    requires Found(all, pos, update) && n.level <= MAX_LEVEL && i < n.level
    requires LinksFit(all, before) && Spliced(all, update, n, newNext, before, links, n.level)
    ensures newNext[i] == FirstTall(InsertNode(all, pos, n), pos + 2, i)
  {
    hide FirstTall, InsertNode;
    var l := LastTallAt(all, pos, i);
    assert newNext[i] == before[l][i];
    FirstTallSkip(all, l + 1, i, pos + 1);
    LinkBehind(all, pos, n, pos + 1, i);
  }

  ghost function Entries<T(0)>(nodes: seq<SkipNode<T>>): seq<Entry<T>> {
    seq(|nodes|, i requires 0 <= i < |nodes| => nodes[i].entry)
  }

  /** The nodes of higher priority are those up to the insertion position. */
  lemma HigherInFront<T(0)>(head: SkipNode<T>, nodes: seq<SkipNode<T>>, priority: int)
    requires Sorted(Entries(nodes))
    ensures var all, pos := [head] + nodes, Position(Entries(nodes), priority);
      pos <= |nodes| && forall m :: 1 <= m < |all| ==> (all[m].entry.priority > priority <==> m <= pos)
  {
    PositionSplits(Entries(nodes), priority);
    var all, pos := [head] + nodes, Position(Entries(nodes), priority);
    forall m | 1 <= m < |all| ensures all[m].entry.priority > priority <==> m <= pos {
      assert all[m].entry == Entries(nodes)[m - 1];
    }
  }

  lemma RestOf<T(0)>(head: SkipNode<T>, nodes: seq<SkipNode<T>>)
    requires nodes != [] && NoDup([head] + nodes) && Sorted(Entries(nodes))
    ensures [head] + ([head] + nodes)[2..] == [head] + nodes[1..] && NoDup([head] + nodes[1..])
    ensures Entries(nodes) != [] && Entries(nodes)[0] == nodes[0].entry
    ensures Entries(nodes[1..]) == Entries(nodes)[1..] && Sorted(Entries(nodes[1..]))
  {
    var all, rest := [head] + nodes, [head] + nodes[1..];
    forall i, j | 0 <= i < j < |rest| ensures rest[i] != rest[j] {
      assert rest[j] == all[j + 1] && rest[i] == all[if i == 0 then 0 else i + 1];
    }
  }

  lemma InsertedNodes<T(0)>(head: SkipNode<T>, nodes: seq<SkipNode<T>>, pos: nat, n: SkipNode<T>)
    requires pos == Position(Entries(nodes), n.entry.priority)
    requires NoDup([head] + nodes) && n !in nodes && n != head
    ensures var all := InsertNode([head] + nodes, pos, n);
      && [head] + all[1..] == all && NoDup(all) && |all| == |nodes| + 2
      && Entries(all[1..]) == Insert(Entries(nodes), n.entry)
      && (forall k :: 0 <= k < |all[1..]| ==> all[1..][k] == n || all[1..][k] in nodes)
  {
    var all := InsertNode([head] + nodes, pos, n);
    assert all[1..] == nodes[..pos] + [n] + nodes[pos..];
    forall i, j | 0 <= i < j < |all| ensures all[i] != all[j] {
      var a, b := if i <= pos then i else i - 1, if j <= pos then j else j - 1;
      assert i != pos + 1 ==> all[i] == ([head] + nodes)[a];
      assert j != pos + 1 ==> all[j] == ([head] + nodes)[b];
    }
  }

  class PriorityQueue<T(0)> {
    const head: SkipNode<T>
    var size: nat
    ghost var nodes: seq<SkipNode<T>>

    ghost function All(): seq<SkipNode<T>>
      reads this
    {
      [head] + nodes
    }

    ghost function Repr(): set<object>
      reads this
    {
      {this, head} + set n | n in nodes
    }

    ghost function Contents(): seq<Entry<T>>
      reads this
    {
      Entries(nodes)
    }

    ghost predicate WellFormed()
      reads this
    {
      && head.level == MAX_LEVEL && NoDup(All())
      && (forall k :: 0 <= k < |nodes| ==> 1 <= nodes[k].level <= MAX_LEVEL)
      && Sorted(Contents()) && size == |nodes|
    }

    static ghost function Links(all: seq<SkipNode<T>>): seq<seq<SkipNode?<T>>>
      reads all
    {
      seq(|all|, k requires 0 <= k < |all| reads all => all[k].next)
    }

    ghost predicate Valid()
      reads this, Repr()
    {
      WellFormed() && LinksFit(All(), Links(All()))
    }

    constructor ()
      ensures Valid() && fresh(Repr()) && Contents() == []
    {
      var none: T := *;
      head := new SkipNode<T>(Entry(none, INT_MIN), MAX_LEVEL);
      size := 0;
      nodes := [];
    }

    lemma FrontNode()
      requires Valid()
      ensures |head.next| == MAX_LEVEL && head.next[0] == if nodes == [] then null else nodes[0]
    {
      var all := All();
      assert all[0] == head;
      if nodes != [] {
        assert all[1] == nodes[0];
      }
    }

    method Empty() returns (r: bool)
      requires Valid()
      ensures r <==> Contents() == []
    {
      FrontNode();
      r := head.next[0] == null;
    }

    method Peek() returns (r: SkipNode?<T>)
      requires Valid()
      ensures r == null <==> Contents() == []
      ensures r != null ==> r.entry == Contents()[0]
    {
      FrontNode();
      r := head.next[0];
    }

    /** The search: at each level, the last node of strictly higher priority that reaches it. */
    method Search(priority: int) returns (update: seq<SkipNode<T>>)
      requires Valid()
      ensures Found(All(), Position(Contents(), priority), update)
    {
      ghost var all, pos := All(), Position(Contents(), priority);
      PositionSplits(Contents(), priority);
      update := seq(MAX_LEVEL, _ => head);
      var current := head;
      ghost var k := 0;
      var i := MAX_LEVEL;
      while i > 0
        invariant 0 <= i <= MAX_LEVEL && |update| == MAX_LEVEL
        invariant 0 <= k <= pos && current == all[k] && (i < MAX_LEVEL ==> current.level > i) && current.level >= i
        invariant forall j :: i <= j < MAX_LEVEL ==> update[j] == LastTall(all, pos, j)
      {
        i := i - 1;
        current, k := Advance(priority, i, current, k);
        LastTallIs(all, pos, i, k);
        update := update[i := current];
      }
    }

    /** The link of a node at one of its levels leads to the next node that reaches the level. */
    lemma NextLink(k: nat, i: nat) returns (j: nat)
      requires Valid() && k < |All()| && i < All()[k].level
      ensures |All()[k].next| == All()[k].level && k < j <= |All()|
      ensures forall m :: k < m < j ==> All()[m].level <= i
      ensures if j == |All()| then All()[k].next[i] == null else All()[k].next[i] == All()[j] && All()[j].level > i
    {
      var all := All();
      assert Links(all)[k] == all[k].next;
      j := FirstTallAt(all, k + 1, i);
    }

    /** The inner loop of the search at level `i`. */
    method Advance(priority: int, i: nat, start: SkipNode<T>, ghost k0: nat)
        returns (current: SkipNode<T>, ghost k: nat)
      requires Valid() && k0 <= Position(Contents(), priority) && start == All()[k0] && start.level > i
      ensures k <= Position(Contents(), priority) && current == All()[k] && current.level > i
      ensures forall m :: k < m <= Position(Contents(), priority) ==> All()[m].level <= i
    {
      ghost var all, pos := All(), Position(Contents(), priority);
      HigherInFront(head, nodes, priority);
      ghost var j := NextLink(k0, i);
      hide Position, Entries, Sorted, NoDup, LinksFit, FirstTall;
      current, k := start, k0;
      var next := current.next[i];
      while next != null && next.entry.priority > priority
        invariant 0 <= k <= pos && current == all[k] && current.level > i
        invariant next == current.next[i] && k < j <= |all| && (forall m :: k < m < j ==> all[m].level <= i)
        invariant if j == |all| then next == null else next == all[j] && all[j].level > i
        decreases |all| - k
      {
        current, k := next, j;
        j := NextLink(k, i);
        next := current.next[i];
      }
    }

    /** Whatever level is drawn, the entry goes behind the strictly higher priorities and before
        everything else. */
    method Enqueue(item: T, priority: int, randomLevel: nat)
      requires Valid() && 1 <= randomLevel <= MAX_LEVEL
      modifies Repr()
      ensures Valid() && fresh(Repr() - old(Repr()))
      ensures Contents() == Insert(old(Contents()), Entry(item, priority))
    {
      var update := Search(priority);
      var newNode := new SkipNode<T>(Entry(item, priority), randomLevel);
      hide Insert, Position, Sorted, NoDup, LinksFit, Found, Entries;
      Attach(newNode, update);
    }

    method Attach(newNode: SkipNode<T>, update: seq<SkipNode<T>>)
      requires Valid() && newNode !in All() && 1 <= newNode.level <= MAX_LEVEL && |newNode.next| == newNode.level
      requires Found(All(), Position(Contents(), newNode.entry.priority), update)
      modifies Repr(), newNode
      ensures Valid() && Contents() == Insert(old(Contents()), newNode.entry)
      ensures forall n :: n in nodes ==> n == newNode || n in old(nodes)
    {
      ghost var all, pos := All(), Position(Contents(), newNode.entry.priority);
      hide Insert, Position, Sorted, NoDup, LinksFit, Found, FirstTall, LastTall, InsertNode, Entries;
      InsertedNodes(head, nodes, pos, newNode);
      InsertSorted(Contents(), newNode.entry);
      Splice(newNode, update, all, pos);
      size := size + 1;
      nodes := InsertNode(all, pos, newNode)[1..];
    }

    /** The linking loop: at each of its levels the new node is put behind the node found there. */
    method Splice(newNode: SkipNode<T>, update: seq<SkipNode<T>>, ghost all: seq<SkipNode<T>>, ghost pos: nat)
      requires NoDup(all) && newNode !in all && LinksFit(all, Links(all)) && Found(all, pos, update)
      requires newNode.level <= MAX_LEVEL && |newNode.next| == newNode.level
      requires forall k :: 0 <= k < |all| ==> all[k].level <= MAX_LEVEL
      modifies newNode, all
      ensures LinksFit(InsertNode(all, pos, newNode), Links(InsertNode(all, pos, newNode)))
    {
      ghost var before := Links(all);
      var i := 0;
      while i < newNode.level
        invariant 0 <= i <= newNode.level
        invariant Spliced(all, update, newNode, newNode.next, before, Links(all), i)
      {
        ghost var l := LastTallAt(all, pos, i);
        label L:
        assert |Links(all)[l]| == |before[l]|;
        LinkAt(newNode, update[i], i, all, l);
        SpliceStep(all, update, newNode, old@L(newNode.next), before, old@L(Links(all)), i, l);
        i := i + 1;
      }
      SplicedLinks(all, pos, update, newNode, newNode.next, before, Links(all));
      ghost var all' := InsertNode(all, pos, newNode);
      assert Links(all') == Links(all)[..pos + 1] + [newNode.next] + Links(all)[pos + 1..];
    }

    method LinkAt(newNode: SkipNode<T>, prev: SkipNode<T>, i: nat, ghost all: seq<SkipNode<T>>, ghost l: nat)
      requires NoDup(all) && newNode !in all && l < |all| && all[l] == prev
      requires i < |prev.next| && i < |newNode.next|
      modifies newNode, prev
      ensures newNode.next == old(newNode.next)[i := old(prev.next)[i]]
      ensures Links(all) == old(Links(all))[l := old(prev.next)[i := newNode]]
    {
      newNode.next := newNode.next[i := prev.next[i]];
      prev.next := prev.next[i := newNode];
    }

    /** The first node is unlinked at all its levels, so its entry is what comes out. */
    method Dequeue() returns (r: SkipNode?<T>)
      requires Valid()
      modifies Repr()
      ensures Valid() && Repr() <= old(Repr())
      ensures old(Contents()) == [] ==> r == null && Contents() == []
      ensures old(Contents()) != [] ==> r != null && r.entry == old(Contents())[0] && Contents() == old(Contents())[1..]
    {
      FrontNode();
      var next := head.next[0];
      if next == null {
        return null;
      }
      ghost var all := All();
      RestOf(head, nodes);
      assert all[1] == next;
      hide Sorted, NoDup, LinksFit, FirstTall, Entries;
      Unlink(next, all);
      r := next;
      size := size - 1;
      nodes := nodes[1..];
    }

    /** The unlinking loop; every exchange finds the expected node behind the head. */
    method Unlink(next: SkipNode<T>, ghost all: seq<SkipNode<T>>)
      requires |all| >= 2 && all[0] == head && all[1] == next && NoDup(all)
      requires head.level == MAX_LEVEL && next.level <= MAX_LEVEL && LinksFit(all, Links(all))
      modifies head
      ensures LinksFit([head] + all[2..], Links([head] + all[2..]))
    {
      ghost var before := Links(all);
      assert before[0] == head.next && before[1] == next.next;
      var i := next.level;
      while i > 0
        invariant 0 <= i <= next.level && |head.next| == MAX_LEVEL
        invariant forall j :: 0 <= j < MAX_LEVEL ==>
          head.next[j] == if i <= j < next.level then next.next[j] else before[0][j]
      {
        i := i - 1;
        FirstTallIs(all, 1, i, 1);
        assert head.next[i] == next;
        head.next := head.next[i := next.next[i]];
      }
      UnlinkedFit(all, before, head.next);
      ghost var all' := [head] + all[2..];
      assert Links(all') == [head.next] + before[2..];
    }

    /** Dropping every node: the list is empty again. */
    method Clear()
      requires Valid()
      modifies Repr()
      ensures Valid() && Repr() <= old(Repr()) && Contents() == []
    {
      head.next := seq(MAX_LEVEL, _ => null);
      size := 0;
      nodes := [];
      assert All() == [head];
    }

    lemma LinkIsFirstTall(k: nat, i: nat)
      requires Valid() && k <= |nodes| && i < All()[k].level
      ensures |All()[k].next| > i && All()[k].next[i] == First(Tall(nodes[k..], i))
    {
      var all := All();
      assert Links(all)[k] == all[k].next;
      assert all[k + 1..] == nodes[k..];
      FirstTallIsHead(all, k + 1, i);
    }

    /** Following the links of one level from the head visits exactly the nodes that reach it, in order. */
    lemma LevelIsSublist(i: nat, j: nat)
      requires Valid() && i < MAX_LEVEL && j < |Tall(nodes, i)|
      ensures |head.next| > i && head.next[i] == Tall(nodes, i)[0]
      ensures |Tall(nodes, i)[j].next| > i && Tall(nodes, i)[j].next[i] == First(Tall(nodes, i)[j + 1..])
    {
      var all := All();
      assert all[0] == head && nodes[0..] == nodes;
      LinkIsFirstTall(0, i);
      var k := TallAt(nodes, i, j);
      assert all[k + 1] == nodes[k];
      LinkIsFirstTall(k + 1, i);
    }
  }

  function First<T(0)>(s: seq<SkipNode<T>>): SkipNode?<T> {
    if s == [] then null else s[0]
  }

  lemma {:induction false} TallAt<T(0)>(s: seq<SkipNode<T>>, i: nat, j: nat) returns (k: nat)
    requires j < |Tall(s, i)|
    ensures k < |s| && s[k] == Tall(s, i)[j] && s[k].level > i && Tall(s[k + 1..], i) == Tall(s, i)[j + 1..]
  {
    if s[0].level > i && j == 0 {
      k := 0;
    } else {
      var l := TallAt(s[1..], i, if s[0].level > i then j - 1 else j);
      k := l + 1;
      assert s[k + 1..] == s[1..][l + 1..];
    }
  }

  /** The nodes that reach level `i`, in order. */
  function Tall<T(0)>(s: seq<SkipNode<T>>, i: nat): seq<SkipNode<T>> {
    if s == [] then [] else (if s[0].level > i then [s[0]] else []) + Tall(s[1..], i)
  }

  lemma {:induction false} FirstTallIsHead<T(0)>(all: seq<SkipNode<T>>, k: nat, i: nat)
    requires k <= |all|
    ensures FirstTall(all, k, i) == First(Tall(all[k..], i))
    decreases |all| - k
  {
    if k < |all| {
      assert all[k..][1..] == all[k + 1..];
      FirstTallIsHead(all, k + 1, i);
    }
  }

  lemma UnlinkedFit<T(0)>(all: seq<SkipNode<T>>, before: seq<seq<SkipNode?<T>>>, headNext: seq<SkipNode?<T>>)
    requires |all| >= 2 && LinksFit(all, before) && all[1].level <= all[0].level == |headNext|
    requires forall j :: 0 <= j < |headNext| ==> headNext[j] == if j < all[1].level then before[1][j] else before[0][j]
    ensures LinksFit([all[0]] + all[2..], [headNext] + before[2..])
  {
    var all', links' := [all[0]] + all[2..], [headNext] + before[2..];
    forall k, i | 0 <= k < |all'| && 0 <= i < |links'[k]| ensures links'[k][i] == FirstTall(all', k + 1, i) {
      assert all'[k + 1..] == all[k + 2..];
      FirstTallShift(all', k + 1, all, k + 2, i);
      if k > 0 {
        assert links'[k] == before[k + 1];
      } else if i >= all[1].level {
        FirstTallSkip(all, 1, i, 2);
      }
    }
  }
}
