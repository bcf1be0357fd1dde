/** `artnet_join`: nodes sharing a socket form circular lists through their
    `peer` pointers, one master per list; and the walk of `artnet_read`. */
module PeerRing {

  class Node {
    var peer: Node?
    var master: bool
    var on: bool

    /** `artnet_new`. */
    constructor ()
      ensures peer == null && master && !on
    {
      peer, master, on := null, true, false;
    }
  }

  ghost predicate NoRepeats(r: seq<Node>) {
    forall i, j :: 0 <= i < j < |r| ==> r[i] != r[j]
  }

  ghost predicate Disjoint(a: seq<Node>, b: seq<Node>) {
    forall n :: n in a ==> n !in b
  }

  /** The nodes of `r` in the order of the pointers. A node that was never
      joined has no peer. */
  ghost predicate Ring(r: seq<Node>)
    reads r
  {
    && r != [] && NoRepeats(r)
    && (forall i :: 0 <= i < |r| - 1 ==> r[i].peer == r[i + 1])
    && (r[|r| - 1].peer == r[0] || (|r| == 1 && r[0].peer == null))
  }

  ghost predicate OnlyMaster(r: seq<Node>, i: nat)
    requires i < |r|
    reads r
  {
    r[i].master && forall j :: 0 <= j < |r| && j != i ==> !r[j].master
  }

  ghost predicate OneMaster(r: seq<Node>)
    reads r
  {
    exists i :: 0 <= i < |r| && OnlyMaster(r, i)
  }

  /** The same ring seen from its node number `k`. */
  ghost function Rotate(r: seq<Node>, k: nat): seq<Node>
    requires k < |r|
  {
    r[k..] + r[..k]
  }

  lemma RotateAt(r: seq<Node>, k: nat)
    requires k < |r|
    ensures var q := Rotate(r, k);
            && |q| == |r|
            && (forall i :: 0 <= i < |r| ==> q[i] == r[if i + k < |r| then i + k else i + k - |r|])
            && (forall n :: n in q <==> n in r)
  {
    assert r == r[..k] + r[k..];
  }

  lemma RotateRing(r: seq<Node>, k: nat)
    requires Ring(r) && k < |r|
    ensures Ring(Rotate(r, k)) && Rotate(r, k)[0] == r[k]
    ensures forall n :: n in Rotate(r, k) <==> n in r
  {
    hide Rotate;
    RotateAt(r, k);
  }

  lemma MasterAt(r: seq<Node>, i: nat)
    requires i < |r| && OnlyMaster(r, i)
    ensures OneMaster(r)
  {
  }

  /** The nodes that the first loop of `artnet_join` passes, starting at `n2`
      after `n1` was pointed at it. */
  ghost predicate Chain(c: seq<Node>)
    reads c
  {
    && c != [] && NoRepeats(c)
    && (forall i :: 0 <= i < |c| - 1 ==> c[i].peer == c[i + 1])
    && (c[|c| - 1].peer == c[0] || c[|c| - 1].peer == null)
  }

  /** The last node before the list ends or returns to its start. */
  method FindLast(n2: Node, ghost c: seq<Node>) returns (n: Node)
    requires Chain(c) && c[0] == n2
    ensures n == c[|c| - 1]
  {
    n := n2;
    ghost var k := 0;
    while n.peer != null && n.peer != n2
      invariant 0 <= k < |c| && n == c[k]
      invariant k < |c| - 1 ==> n.peer == c[k + 1] && c[k + 1] != n2
      decreases |c| - k
    {
      n := n.peer;
      k := k + 1;
    }
  }

  /** Two rings, or one ring seen from two of its nodes. */
  ghost predicate Joinable(r1: seq<Node>, r2: seq<Node>) {
    Disjoint(r1, r2) || exists k :: 0 <= k < |r1| && r2 == Rotate(r1, k)
  }

  /** The nodes from `n2` on that the search for the last one visits. */
  ghost function Visited(r1: seq<Node>, r2: seq<Node>): (c: seq<Node>)
    requires r1 != [] && r2 != [] && NoRepeats(r2)
  {
    if r1[0] in r2 then r2[..IndexOf(r2, r1[0]) + 1] else r2
  }

  lemma VisitedLinks(r1: seq<Node>, r2: seq<Node>)
    requires Ring(r1) && Ring(r2) && Joinable(r1, r2)
    ensures var c, n1 := Visited(r1, r2), r1[0];
            && c != [] && NoRepeats(c) && c[0] == r2[0]
            && (forall i :: 0 <= i < |c| - 1 ==> c[i].peer == c[i + 1] && c[i] != n1)
            && (if Disjoint(r1, r2) then
                  c == r2 && c[|c| - 1] != n1 && c[|c| - 1].peer in [null, c[0]]
                else c[|c| - 1] == n1)
    ensures r1[0].peer == r1[if |r1| == 1 then 0 else 1] || (|r1| == 1 && r1[0].peer == null)
  {
    hide Rotate, Joinable, Disjoint;
    FirstNode(r1, r2);
    var c := Visited(r1, r2);
    assert forall i :: 0 <= i < |c| ==> c[i] == r2[i];
  }

  lemma FirstNode(r1: seq<Node>, r2: seq<Node>)
    requires r1 != [] && Joinable(r1, r2)
    ensures r1[0] in r2 <==> !Disjoint(r1, r2)
    ensures Disjoint(r1, r2) ==> forall i :: 0 <= i < |r2| ==> r2[i] != r1[0]
  {
    hide Rotate;
    assert r1[0] in r1;
    assert forall i :: 0 <= i < |r2| ==> r2[i] in r2;
    if !Disjoint(r1, r2) {
      var k :| 0 <= k < |r1| && r2 == Rotate(r1, k);
      RotateAt(r1, k);
    }
  }

  /** The pointer updates of `artnet_join`. */
  method Splice(n1: Node, n2: Node, ghost r1: seq<Node>, ghost r2: seq<Node>)
    requires Ring(r1) && Ring(r2) && r1[0] == n1 && r2[0] == n2 && Joinable(r1, r2)
    modifies (set m: Node | m in r1 || m in r2)`peer
    ensures Ring(Spliced(r1, r2)) && n1.peer != null
  {
    hide Visited, Joinable;
    ghost var c := Visited(r1, r2);
    VisitedLinks(r1, r2);
    SplicedNodes(r1, r2);
    var tmp := if n1.peer == null then n1 else n1.peer;
    n1.peer := n2;
    var n := FindLast(n2, c);
    n.peer := tmp;
    if Disjoint(r1, r2) {
      SplicedRing(r1, r2);
    }
  }

  lemma SplicedRing(r1: seq<Node>, r2: seq<Node>)
    requires r1 != [] && r2 != [] && NoRepeats(r1) && NoRepeats(r2) && Disjoint(r1, r2)
    requires r1[0].peer == r2[0] && r2[|r2| - 1].peer == r1[if |r1| == 1 then 0 else 1]
    requires forall i :: 0 <= i < |r2| - 1 ==> r2[i].peer == r2[i + 1]
    requires forall i :: 1 <= i < |r1| - 1 ==> r1[i].peer == r1[i + 1]
    requires |r1| > 1 ==> r1[|r1| - 1].peer == r1[0]
    ensures Ring(Spliced(r1, r2))
  {
    SplicedNodes(r1, r2);
    var r := Spliced(r1, r2);
    forall i | 0 <= i < |r| - 1
      ensures r[i].peer == r[i + 1]
    {
      if 1 <= i < |r2| {
        assert r[i] == r2[i - 1] && r[i + 1] == r2[i];
      } else if i > |r2| {
        assert r[i] == r1[i - |r2|] && r[i + 1] == r1[i - |r2| + 1];
      }
    }
  }

  /** "make sure there is only 1 master" */
  method MakeMaster(n1: Node, ghost r: seq<Node>)
    requires Ring(r) && r[0] == n1 && n1.peer != null
    modifies (set m: Node | m in r)`master
    ensures Ring(r) && OnlyMaster(r, 0)
  {
    var n := n1.peer;
    ghost var k := 1;
    while n != n1
      invariant 1 <= k <= |r| && n == r[if k < |r| then k else 0]
      invariant forall i :: 1 <= i < k ==> !r[i].master
      decreases |r| - k
    {
      n.master := false;
      n := n.peer;
      k := k + 1;
    }
    n1.master := true;
  }

  /** `artnet_join` on the rings `r1` of `n1` and `r2` of `n2`. Joining two
      rings splices the second in after `n1`; joining nodes of one ring leaves
      the ring as it is. `n1` becomes the only master. */
  method Join(n1: Node, n2: Node, ghost r1: seq<Node>, ghost r2: seq<Node>) returns (joined: bool)
    requires Ring(r1) && Ring(r2) && r1[0] == n1 && r2[0] == n2 && Joinable(r1, r2)
    modifies (set m: Node | m in r1 || m in r2)`peer
    modifies (set m: Node | m in r1 || m in r2)`master
    ensures joined <==> !n1.on && !n2.on
    ensures !joined ==> forall n :: n in r1 || n in r2 ==> unchanged(n)
    ensures joined ==> Ring(Spliced(r1, r2)) && OnlyMaster(Spliced(r1, r2), 0)
  {
    hide Spliced;
    if n1.on || n2.on {
      return false;
    }
    Splice(n1, n2, r1, r2);
    SplicedNodes(r1, r2);
    MakeMaster(n1, Spliced(r1, r2));
    return true;
  }

  ghost function IndexOf(r: seq<Node>, n: Node): (k: nat)
    requires n in r
    ensures k < |r| && r[k] == n
  {
    var k :| 0 <= k < |r| && r[k] == n;
    k
  }

  /** The ring after joining, seen from the first node of `r1`. */
  ghost function Spliced(r1: seq<Node>, r2: seq<Node>): seq<Node>
    requires r1 != [] && r2 != []
  {
    if Disjoint(r1, r2) then [r1[0]] + r2 + r1[1..] else r1
  }

  lemma SplicedNodes(r1: seq<Node>, r2: seq<Node>)
    requires r1 != [] && r2 != [] && NoRepeats(r1) && NoRepeats(r2)
    requires Joinable(r1, r2)
    ensures NoRepeats(Spliced(r1, r2)) && Spliced(r1, r2) != [] && Spliced(r1, r2)[0] == r1[0]
    ensures forall n :: n in Spliced(r1, r2) <==> n in r1 || n in r2
  {
    if Disjoint(r1, r2) {
      assert r1 == [r1[0]] + r1[1..];
      assert forall i :: 0 <= i < |r1| ==> r1[i] in r1;
      assert forall i :: 0 <= i < |r2| ==> r2[i] in r2;
    }
  }

  // ------------------------------------------------------------- many joins

  ghost function NodesOf(r: seq<Node>): set<Node> {
    set n | n in r
  }

  ghost function AllNodes(rings: set<seq<Node>>): set<Node> {
    set r, n | r in rings && n in r :: n
  }

  /** Every node is in one ring, which is a cycle with one master. */
  ghost predicate World(rings: set<seq<Node>>)
    reads AllNodes(rings)
  {
    && (forall r :: r in rings ==> assert NodesOf(r) <= AllNodes(rings); Ring(r) && OneMaster(r))
    && Apart(rings)
  }

  ghost function RingOf(rings: set<seq<Node>>, n: Node): (r: seq<Node>)
    requires n in AllNodes(rings)
    ensures r in rings && n in r
  {
    var r :| r in rings && n in r;
    r
  }

  /** The partition of the nodes, without the order in the rings. */
  ghost function Blocks(rings: set<seq<Node>>): set<set<Node>> {
    set r | r in rings :: NodesOf(r)
  }

  /** The blocks of `a` and `b` become one. */
  ghost function Unite(blocks: set<set<Node>>, a: Node, b: Node): set<set<Node>> {
    (set block | block in blocks && a !in block && b !in block) +
    {set block, n | block in blocks && (a in block || b in block) && n in block :: n}
  }

  /** The joins in turn; one that has a node that is on does nothing. */
  ghost function UniteAll(blocks: set<set<Node>>, on: set<Node>, pairs: seq<(Node, Node)>): set<set<Node>>
    decreases |pairs|
  {
    if pairs == [] then blocks
    else
      var k := |pairs| - 1;
      var before := UniteAll(blocks, on, pairs[..k]);
      if pairs[k].0 in on || pairs[k].1 in on then before else Unite(before, pairs[k].0, pairs[k].1)
  }

  ghost function Running(nodes: set<Node>): set<Node>
    reads nodes
  {
    set n | n in nodes && n.on
  }

  /** Nodes that were never joined, each in a ring of its own. */
  ghost function Singles(nodes: set<Node>): set<seq<Node>> {
    set n | n in nodes :: [n]
  }

  /** New nodes are a world to begin with. */
  lemma NewNodesAreApart(nodes: set<Node>)
    requires forall n :: n in nodes ==> n.peer == null && n.master
    ensures AllNodes(Singles(nodes)) == nodes && World(Singles(nodes))
    ensures Blocks(Singles(nodes)) == set n | n in nodes :: {n}
  {
    var rings := Singles(nodes);
    forall n ensures n in AllNodes(rings) <==> n in nodes {
      if n in nodes { assert [n] in rings && n in [n]; }
    }
    forall n | n in nodes ensures NodesOf([n]) == {n} && Ring([n]) && OneMaster([n]) {
      assert OnlyMaster([n], 0);
    }
    forall block ensures block in Blocks(rings) <==> block in (set n | n in nodes :: {n}) {
      if n :| n in nodes && block == {n} { assert [n] in rings; }
    }
  }

  /** A ring seen from one of its nodes. */
  lemma SeenFrom(r: seq<Node>, n: Node)
    requires Ring(r) && n in r
    ensures var q := Rotate(r, IndexOf(r, n));
            Ring(q) && q[0] == n && NodesOf(q) == NodesOf(r) && forall m :: m in q <==> m in r
  {
    RotateRing(r, IndexOf(r, n));
  }

  lemma RotationOfRotation(r: seq<Node>, i: nat, j: nat)
    requires i < |r| && j < |r|
    ensures var k := if j >= i then j - i else j + |r| - i;
            Rotate(r, j) == Rotate(Rotate(r, i), k)
  {
    var k := if j >= i then j - i else j + |r| - i;
    RotateAt(r, i);
    RotateAt(r, j);
    hide Rotate;
    RotateAt(Rotate(r, i), k);
  }

  lemma RotationsJoinable(q1: seq<Node>, q2: seq<Node>, i: nat, j: nat)
    requires i < |q1| && j < |q2| && (q1 == q2 || Disjoint(q1, q2))
    ensures Joinable(Rotate(q1, i), Rotate(q2, j))
  {
    hide Rotate;
    RotateAt(q1, i);
    RotateAt(q2, j);
    if q1 == q2 {
      RotationOfRotation(q1, i, j);
    }
  }

  ghost predicate Apart(rings: set<seq<Node>>) {
    forall r, q :: r in rings && q in rings && r != q ==> Disjoint(r, q)
  }

  lemma OnlyRing(rings: set<seq<Node>>, r: seq<Node>, n: Node)
    requires Apart(rings) && r in rings && n in r
    ensures n in AllNodes(rings) && RingOf(rings, n) == r
  {
  }

  lemma UnitedBlock(rings: set<seq<Node>>, n1: Node, n2: Node)
    requires Apart(rings) && n1 in AllNodes(rings) && n2 in AllNodes(rings)
    ensures (set block, n | block in Blocks(rings) && (n1 in block || n2 in block) && n in block :: n) ==
            NodesOf(RingOf(rings, n1)) + NodesOf(RingOf(rings, n2))
  {
    var (q1, q2) := (RingOf(rings, n1), RingOf(rings, n2));
    var u := set block, n | block in Blocks(rings) && (n1 in block || n2 in block) && n in block :: n;
    assert NodesOf(q1) in Blocks(rings) && n1 in NodesOf(q1);
    assert NodesOf(q2) in Blocks(rings) && n2 in NodesOf(q2);
    forall n | n in u
      ensures n in q1 || n in q2
    {
      var block :| block in Blocks(rings) && (n1 in block || n2 in block) && n in block;
      var r :| r in rings && block == NodesOf(r);
      OnlyRing(rings, r, if n1 in block then n1 else n2);
    }
  }

  lemma UntouchedBlocks(rings: set<seq<Node>>, n1: Node, n2: Node)
    requires Apart(rings) && n1 in AllNodes(rings) && n2 in AllNodes(rings)
    ensures Blocks(rings - {RingOf(rings, n1), RingOf(rings, n2)}) ==
            set block | block in Blocks(rings) && n1 !in block && n2 !in block
  {
    var (q1, q2) := (RingOf(rings, n1), RingOf(rings, n2));
    forall r | r in rings
      ensures r in rings - {q1, q2} <==> n1 !in NodesOf(r) && n2 !in NodesOf(r)
    {
      if n1 in r {
        OnlyRing(rings, r, n1);
      } else if n2 in r {
        OnlyRing(rings, r, n2);
      }
    }
  }

  /** The union of the two blocks, and the rest. */
  lemma ReplacedBlocks(rings: set<seq<Node>>, n1: Node, n2: Node, s: seq<Node>)
    requires Apart(rings) && n1 in AllNodes(rings) && n2 in AllNodes(rings)
    requires NodesOf(s) == NodesOf(RingOf(rings, n1)) + NodesOf(RingOf(rings, n2))
    ensures var rest := rings - {RingOf(rings, n1), RingOf(rings, n2)};
            && Blocks(rest + {s}) == Unite(Blocks(rings), n1, n2)
            && AllNodes(rest + {s}) == AllNodes(rings)
            && Apart(rest + {s})
            && forall r :: r in rest ==> NodesOf(r) !! NodesOf(RingOf(rings, n1)) + NodesOf(RingOf(rings, n2))
  {
    var (q1, q2) := (RingOf(rings, n1), RingOf(rings, n2));
    var rest := rings - {q1, q2};
    UnitedBlock(rings, n1, n2);
    UntouchedBlocks(rings, n1, n2);
    assert Blocks(rest + {s}) == Blocks(rest) + {NodesOf(s)};
    forall n
      ensures n in s <==> n in q1 || n in q2
    {
      assert n in NodesOf(s) <==> n in NodesOf(q1) || n in NodesOf(q2);
    }
  }

  /** `n1`, `n2` and their rings, ready for Join. */
  lemma Seen(rings: set<seq<Node>>, n1: Node, n2: Node) returns (r1: seq<Node>, r2: seq<Node>)
    requires World(rings) && n1 in AllNodes(rings) && n2 in AllNodes(rings)
    ensures Ring(r1) && Ring(r2) && r1[0] == n1 && r2[0] == n2 && Joinable(r1, r2)
    ensures NodesOf(r1) == NodesOf(RingOf(rings, n1)) && NodesOf(r2) == NodesOf(RingOf(rings, n2))
    ensures NodesOf(Spliced(r1, r2)) == NodesOf(r1) + NodesOf(r2)
    ensures NodesOf(r1) <= AllNodes(rings) && NodesOf(r2) <= AllNodes(rings)
  {
    hide Rotate;
    var q1, q2 := RingOf(rings, n1), RingOf(rings, n2);
    SeenFrom(q1, n1);
    SeenFrom(q2, n2);
    r1, r2 := Rotate(q1, IndexOf(q1, n1)), Rotate(q2, IndexOf(q2, n2));
    RotationsJoinable(q1, q2, IndexOf(q1, n1), IndexOf(q2, n2));
    SplicedNodes(r1, r2);
  }

  /** One call of `artnet_join` among any number of rings. */
  method JoinNodes(n1: Node, n2: Node, ghost rings: set<seq<Node>>) returns (joined: bool, ghost rings': set<seq<Node>>)
    requires World(rings) && n1 in AllNodes(rings) && n2 in AllNodes(rings)
    modifies AllNodes(rings)`peer, AllNodes(rings)`master
    ensures World(rings') && AllNodes(rings') == AllNodes(rings)
    ensures joined <==> !n1.on && !n2.on
    ensures Blocks(rings') == if joined then Unite(Blocks(rings), n1, n2) else Blocks(rings)
  {
    hide Rotate, Joinable, Blocks, Unite, Spliced, OneMaster;
    ghost var r1, r2 := Seen(rings, n1, n2);
    ghost var rest := rings - {RingOf(rings, n1), RingOf(rings, n2)};
    ReplacedBlocks(rings, n1, n2, Spliced(r1, r2));
    label before:
    joined := Join(n1, n2, r1, r2);
    rings' := rings;
    if joined {
      forall r | r in rest
        ensures Ring(r) && OneMaster(r)
      {
        assert forall m :: m in r ==> m in NodesOf(r);
        assert forall m :: m in r1 || m in r2 ==> m in NodesOf(r1) + NodesOf(r2);
        assert old@before(Ring(r) && OneMaster(r));
      }
      rings' := rest + {Spliced(r1, r2)};
      MasterAt(Spliced(r1, r2), 0);
    }
  }

  /** Any sequence of joins: the rings stay cycles with exactly one master, and
      their members are the classes of the nodes joined while off. */
  method JoinAll(pairs: seq<(Node, Node)>, ghost rings: set<seq<Node>>) returns (ghost rings': set<seq<Node>>)
    requires World(rings)
    requires forall i :: 0 <= i < |pairs| ==> pairs[i].0 in AllNodes(rings) && pairs[i].1 in AllNodes(rings)
    modifies AllNodes(rings)`peer, AllNodes(rings)`master
    ensures World(rings') && AllNodes(rings') == AllNodes(rings)
    ensures Blocks(rings') == UniteAll(Blocks(rings), old(Running(AllNodes(rings))), pairs)
  {
    hide World, Blocks, Unite, AllNodes;
    rings' := rings;
    ghost var on := Running(AllNodes(rings));
    for k := 0 to |pairs|
      invariant World(rings') && AllNodes(rings') == AllNodes(rings)
      invariant Blocks(rings') == UniteAll(Blocks(rings), on, pairs[..k])
    {
      var joined;
      joined, rings' := JoinNodes(pairs[k].0, pairs[k].1, rings');
      assert pairs[..k + 1][..k] == pairs[..k];
    }
    assert pairs[..|pairs|] == pairs;
  }

  /** The walk over the peers of a node in `artnet_read`. */
  method Peers(n: Node, ghost r: seq<Node>) returns (visited: seq<Node>)
    requires Ring(r) && r[0] == n
    ensures visited == r[1..]
  {
    visited := [];
    var tmp := n.peer;
    assert |r| > 1 ==> r[0].peer == r[0 + 1];
    while tmp != null && tmp != n
      invariant |visited| < |r| && visited == r[1..|visited| + 1]
      invariant tmp == null ==> |r| == 1 && visited == []
      invariant tmp != null ==> tmp == r[if |visited| + 1 < |r| then |visited| + 1 else 0]
      decreases |r| - |visited|
    {
      ghost var k := |visited| + 1;
      assert k < |r| - 1 ==> r[k].peer == r[k + 1];
      visited := visited + [tmp];
      tmp := tmp.peer;
    }
  }
}
