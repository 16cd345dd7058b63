/** The foothold R-tree: insertion with splitting up to a new root, and the
    pruned search for the nearest foothold below a point. */
module RTree {
  import opened Common
  import opened Geometry
  import opened SplitChoice

  // ---------- what a parent knows of a child ----------

  datatype Summary = Summary(bound: Rectangle, height: nat, contents: multiset<Foothold>)

  ghost function Bound(kids: seq<Summary>): Rectangle
    requires |kids| > 0
  {
    if |kids| == 1 then kids[0].bound else Mbr(Bound(kids[..|kids| - 1]), kids[|kids| - 1].bound)
  }

  ghost function Total(kids: seq<Summary>): multiset<Foothold> {
    if kids == [] then multiset{} else Total(kids[..|kids| - 1]) + kids[|kids| - 1].contents
  }

  function LeafBound(fhs: seq<Foothold>): Rectangle
    requires |fhs| > 0
  {
    if |fhs| == 1 then FootholdMbr(fhs[0]) else Mbr(LeafBound(fhs[..|fhs| - 1]), FootholdMbr(fhs[|fhs| - 1]))
  }

  lemma {:induction false} LeafBoundIsTight(fhs: seq<Foothold>)
    requires |fhs| > 0
    ensures TightBox(LeafBound(fhs), multiset(fhs))
  {
    var front, last := fhs[..|fhs| - 1], fhs[|fhs| - 1];
    TightBoxOfOne(last);
    assert fhs == front + [last];
    if |fhs| == 1 {
      assert multiset(fhs) == multiset{last};
    } else {
      LeafBoundIsTight(front);
      TightBoxJoins(LeafBound(front), multiset(front), FootholdMbr(last), multiset{last});
    }
  }

  lemma TotalSplits(kids: seq<Summary>, p: Split)
    requires |kids| == 4 && ValidSplit(p)
    ensures Total(Kept(kids, p)) + Total(Given(kids, p)) == Total(kids)
  {
    hide Total, Pick;
    Total4(kids);
    var a, b, c, d := kids[0].contents, kids[1].contents, kids[2].contents, kids[3].contents;
    AnyOrder(a, b, c, d);
    if
    case p == One(0) => TotalOfPick3(kids, 1, 2, 3); TotalOfPick1(kids, 0);
    case p == One(1) => TotalOfPick3(kids, 0, 2, 3); TotalOfPick1(kids, 1);
    case p == One(2) => TotalOfPick3(kids, 0, 1, 3); TotalOfPick1(kids, 2);
    case p == One(3) => TotalOfPick3(kids, 0, 1, 2); TotalOfPick1(kids, 3);
    case p == Two(0, 1) => TotalOfPick2(kids, 0, 1); TotalOfPick2(kids, 2, 3);
    case p == Two(0, 2) => TotalOfPick2(kids, 0, 2); TotalOfPick2(kids, 1, 3);
    case p == Two(0, 3) => TotalOfPick2(kids, 0, 3); TotalOfPick2(kids, 1, 2);
    case p == Two(1, 2) => TotalOfPick2(kids, 1, 2); TotalOfPick2(kids, 0, 3);
    case p == Two(1, 3) => TotalOfPick2(kids, 1, 3); TotalOfPick2(kids, 0, 2);
    case p == Two(2, 3) => TotalOfPick2(kids, 2, 3); TotalOfPick2(kids, 0, 1);
  }

  lemma AnyOrder<T>(a: multiset<T>, b: multiset<T>, c: multiset<T>, d: multiset<T>)
    ensures var all := a + b + c + d;
            && (b + c + d) + a == all && (a + c + d) + b == all && (a + b + d) + c == all && (a + b + c) + d == all
            && (a + b) + (c + d) == all && (a + c) + (b + d) == all && (a + d) + (b + c) == all
            && (b + c) + (a + d) == all && (b + d) + (a + c) == all && (c + d) + (a + b) == all
  {
  }

  lemma TotalOfPick1(kids: seq<Summary>, a: nat)
    requires a < |kids|
    ensures Total(Pick(kids, [a])) == kids[a].contents
  {
    assert Pick(kids, [a])[..0] == [];
  }

  lemma TotalOfPick2(kids: seq<Summary>, a: nat, b: nat)
    requires a < |kids| && b < |kids|
    ensures Total(Pick(kids, [a, b])) == kids[a].contents + kids[b].contents
  {
    assert Pick(kids, [a, b])[..1] == Pick(kids, [a]);
    TotalOfPick1(kids, a);
  }

  lemma TotalOfPick3(kids: seq<Summary>, a: nat, b: nat, c: nat)
    requires a < |kids| && b < |kids| && c < |kids|
    ensures Total(Pick(kids, [a, b, c])) == kids[a].contents + kids[b].contents + kids[c].contents
  {
    assert Pick(kids, [a, b, c])[..2] == Pick(kids, [a, b]);
    TotalOfPick2(kids, a, b);
  }

  lemma Total4(kids: seq<Summary>)
    requires |kids| == 4
    ensures Total(kids) == kids[0].contents + kids[1].contents + kids[2].contents + kids[3].contents
  {
    assert kids[..3] == Pick(kids, [0, 1, 2]);
    TotalOfPick3(kids, 0, 1, 2);
  }

  /** A foothold seen as an entry of its leaf. */
  ghost function Entries(fhs: seq<Foothold>): seq<Summary> {
    seq(|fhs|, i requires 0 <= i < |fhs| => Summary(FootholdMbr(fhs[i]), 0, multiset{fhs[i]}))
  }

  lemma {:induction false} TotalOfEntries(fhs: seq<Foothold>)
    ensures Total(Entries(fhs)) == multiset(fhs)
  {
    if fhs != [] {
      var n := |fhs| - 1;
      TotalOfEntries(fhs[..n]);
      assert Entries(fhs)[..n] == Entries(fhs[..n]);
      assert fhs == fhs[..n] + [fhs[n]];
    }
  }

  lemma EntriesSplit(fhs: seq<Foothold>, p: Split)
    requires |fhs| == 4 && ValidSplit(p)
    ensures Entries(Kept(fhs, p)) == Kept(Entries(fhs), p)
    ensures Entries(Given(fhs, p)) == Given(Entries(fhs), p)
  {
  }

  lemma LeafSplits(fhs: seq<Foothold>, p: Split)
    requires |fhs| == 4 && ValidSplit(p)
    ensures multiset(Kept(fhs, p)) + multiset(Given(fhs, p)) == multiset(fhs)
  {
    TotalSplits(Entries(fhs), p);
    EntriesSplit(fhs, p);
    TotalOfEntries(Kept(fhs, p));
    TotalOfEntries(Given(fhs, p));
    TotalOfEntries(fhs);
  }

  lemma {:induction false} TotalUpdate(kids: seq<Summary>, k: nat, s: Summary)
    requires k < |kids|
    ensures kids[k].contents <= Total(kids)
    ensures Total(kids[k := s]) == Total(kids) - kids[k].contents + s.contents
    decreases |kids|
  {
    var n := |kids| - 1;
    if k == n {
      assert kids[k := s][..n] == kids[..n];
      Exchange(Total(kids[..n]), kids[n].contents, s.contents);
    } else {
      TotalUpdate(kids[..n], k, s);
      assert kids[k := s][..n] == kids[..n][k := s];
      ExchangeBefore(Total(kids[..n]), kids[k].contents, s.contents, kids[n].contents);
    }
  }

  lemma Exchange<T>(a: multiset<T>, x: multiset<T>, y: multiset<T>)
    ensures x <= a + x && a + y == (a + x) - x + y
  {
  }

  lemma ExchangeBefore<T>(a: multiset<T>, x: multiset<T>, y: multiset<T>, b: multiset<T>)
    requires x <= a
    ensures x <= a + b && (a - x + y) + b == (a + b) - x + y
  {
  }

  lemma {:induction false} BoundExtends(kids: seq<Summary>, k: nat, r: Rectangle, s: Summary)
    requires k < |kids| && s.bound == Mbr(kids[k].bound, r)
    ensures Mbr(kids[k].bound, Bound(kids)) == Bound(kids)
    ensures Bound(kids[k := s]) == Mbr(Bound(kids), r)
    decreases |kids|
  {
    var n := |kids| - 1;
    if k == n {
      assert kids[k := s][..n] == kids[..n];
    } else {
      BoundExtends(kids[..n], k, r, s);
      assert kids[k := s][..n] == kids[..n][k := s];
    }
  }

  // ---------- nodes ----------

  class Node {
    var parent: Node?
    var bound: Rectangle
    var isLeaf: bool
    var footholds: seq<Foothold>  // the entries in use of a leaf
    var children: seq<Node>       // the entries in use of an inner node
    ghost var slot: nat           // the index of this node among its parent's children
    ghost var height: nat
    ghost var contents: multiset<Foothold>
    ghost var kids: seq<Summary>

    constructor Leaf(fhs: seq<Foothold>)
      requires 1 <= |fhs| <= 3
      ensures parent == null && isLeaf && footholds == fhs && children == [] && kids == []
      ensures Sum() == Summary(LeafBound(fhs), 0, multiset(fhs))
    {
      parent, bound, isLeaf, footholds, children := null, LeafBound(fhs), true, fhs, [];
      slot, height, contents, kids := 0, 0, multiset(fhs), [];
    }

    constructor Inner(cs: seq<Node>, r: Rectangle, ghost ks: seq<Summary>, ghost s: Summary)
      requires r == s.bound
      ensures parent == null && !isLeaf && footholds == [] && children == cs && kids == ks && Sum() == s
    {
      parent, bound, isLeaf, footholds, children := null, r, false, [], cs;
      slot, height, contents, kids := 0, s.height, s.contents, ks;
    }

    ghost function Sum(): Summary
      reads this`bound, this`height, this`contents
    {
      Summary(bound, height, contents)
    }

    /** One to three entries; bound, height and contents agree with what is known of the entries. */
    ghost predicate Own()
      reads this`bound, this`isLeaf, this`footholds, this`children, this`height, this`contents, this`kids
    {
      && |kids| == |children|
      && if isLeaf then
           children == [] && height == 0 && LeafOk(footholds, Sum())
         else
           footholds == [] && height > 0 && SameHeight(kids, height - 1) && InnerOk(kids, Sum())
    }

    /** Parent and children are nodes of the tree, and each points at the other. */
    ghost predicate Linked(S: set<Node>)
      reads this`parent, this`children, this`slot, S`parent, S`children, S`slot
    {
      && this in S
      && (parent != null ==> parent in S && slot < |parent.children| && parent.children[slot] == this)
      && forall i :: 0 <= i < |children| ==> children[i] in S && children[i].parent == this && children[i].slot == i
    }

    /** Every summary is up to date, except that the one of `stale` is still `was`. */
    ghost predicate Knows(stale: Node?, was: Summary)
      reads this`children, this`kids, children`bound, children`height, children`contents
    {
      && |kids| == |children|
      && forall i :: 0 <= i < |children| ==> kids[i] == if children[i] == stale then was else children[i].Sum()
    }
  }

  ghost predicate LeafOk(fhs: seq<Foothold>, s: Summary) {
    1 <= |fhs| <= 3 && s.bound == LeafBound(fhs) && s.contents == multiset(fhs)
  }

  ghost predicate InnerOk(kids: seq<Summary>, s: Summary) {
    1 <= |kids| <= 3 && s.bound == Bound(kids) && s.contents == Total(kids)
  }

  ghost predicate SameHeight(kids: seq<Summary>, h: nat) {
    forall i :: 0 <= i < |kids| ==> kids[i].height == h
  }

  ghost const NONE := Summary(Rectangle(Point(0, 0), Point(0, 0)), 0, multiset{})

  ghost predicate Wired(S: set<Node>)
    reads S`parent, S`children, S`slot
  {
    forall n {:trigger n.Linked(S)} :: n in S ==> n.Linked(S)
  }

  ghost predicate Sound(S: set<Node>, stale: Node?, was: Summary)
    requires Wired(S)
    reads S
  {
    forall n {:trigger n.Own()} {:trigger n.Knows(stale, was)} :: n in S ==>
      n.Linked(S) && n.Own() && n.Knows(stale, was)
  }

  ghost predicate Rooted(S: set<Node>, root: Node, spare: Node?)
    reads S`parent, S`height
  {
    && root in S && root.parent == null && root != spare
    && forall n :: n in S && n != spare ==> n.height <= root.height && (n.parent == null ==> n == root)
  }

  // ---------- bottom-up repair ----------

  /** Every node but `p` is sound and knows its children as they are. */
  ghost predicate SoundBut(S: set<Node>, p: Node)
    requires Wired(S)
    reads S
  {
    forall n {:trigger n.Own()} {:trigger n.Knows(null, NONE)} :: n in S && n != p ==>
      n.Linked(S) && n.Own() && n.Knows(null, NONE)
  }

  lemma OnlyParentIsStale(S: set<Node>, cur: Node, was: Summary, p: Node)
    requires Wired(S) && Sound(S, cur, was) && cur in S && cur.parent == p
    ensures p in S && p.Linked(S) && cur.Linked(S) && p.Own() && p.Knows(cur, was) && p.kids[cur.slot] == was
    ensures SoundBut(S, p)
  {
    hide LeafOk, InnerOk;
    assert cur.Linked(S);
    assert p.Own();
    forall n | n in S && n != p
      ensures n.Linked(S) && n.Own() && n.Knows(null, NONE)
    {
      assert n.Linked(S) && n.Own() && n.Knows(cur, was);
      assert forall i :: 0 <= i < |n.children| ==> n.children[i].parent == n;
    }
  }

  /** Gives `p` its new summary; `p` becomes the outdated child of its own parent. */
  method SetSummary(p: Node, r: Rectangle, ghost kids: seq<Summary>, ghost s: Summary, ghost S: set<Node>)
    requires Wired(S) && p in S && SoundBut(S, p)
    requires !p.isLeaf && p.footholds == [] && p.height > 0
    requires |kids| == |p.children| && forall i :: 0 <= i < |kids| ==> kids[i] == p.children[i].Sum()
    requires SameHeight(kids, p.height - 1) && InnerOk(kids, s) && r == s.bound && s.height == p.height
    modifies p`bound, p`contents, p`kids
    ensures Wired(S) && Sound(S, p, old(p.Sum()))
    ensures p.kids == kids && p.Sum() == s
  {
    hide LeafOk, InnerOk;
    p.bound := r;
    p.kids := kids;
    p.contents := s.contents;
    forall n | n in S
      ensures n.Linked(S) && n.Own() && n.Knows(p, old(p.Sum()))
    {
      assert n.Linked(S);
      if n == p {
        assert forall i :: 0 <= i < |n.children| ==> n.children[i].height + 1 == p.height;
      } else {
        assert old(n.Own()) && old(n.Knows(null, NONE));
      }
    }
  }

  /** The box around all children, folded from the first to the last. */
  method ChildrenBound(children: seq<Node>, ghost kids: seq<Summary>) returns (r: Rectangle)
    requires 0 < |children| == |kids|
    requires forall i :: 0 <= i < |kids| ==> kids[i].bound == children[i].bound
    ensures r == Bound(kids)
  {
    r := children[0].bound;
    assert kids[..1] == [kids[0]];
    for i := 1 to |children|
      invariant r == Bound(kids[..i])
    {
      assert kids[..i + 1][..i] == kids[..i];
      r := Mbr(r, children[i].bound);
    }
    assert kids[..|kids|] == kids;
  }

  ghost predicate Gained(now: Summary, was: Summary, fh: Foothold) {
    now.height == was.height && now.contents == was.contents + multiset{fh}
  }

  /** Widens the bounds on the way to the root after a leaf took one more foothold. */
  method ExtendUpward(leaf: Node, fh: Foothold, ghost was0: Summary, ghost total: multiset<Foothold>,
                      ghost root: Node, ghost S: set<Node>)
    requires Wired(S) && Sound(S, leaf, was0) && Rooted(S, root, null) && leaf in S
    requires Gained(leaf.Sum(), was0, fh) && leaf.bound == Mbr(was0.bound, FootholdMbr(fh))
    requires total == if leaf == root then was0.contents else root.contents
    modifies S`bound, S`contents, S`kids
    ensures Wired(S) && Sound(S, null, NONE) && Rooted(S, root, null) && root.contents == total + multiset{fh}
  {
    hide InnerOk, LeafOk, Bound, Total;
    var cur := leaf;
    ghost var was := was0;
    var parent := cur.parent;
    while parent != null
      invariant cur in S && parent == cur.parent
      invariant Wired(S) && Sound(S, cur, was) && Rooted(S, root, null)
      invariant Gained(cur.Sum(), was, fh) && cur.bound == Mbr(was.bound, FootholdMbr(fh))
      invariant total == if cur == root then was.contents else root.contents
      decreases root.height - cur.height
    {
      OnlyParentIsStale(S, cur, was, parent);
      var r := Mbr(parent.bound, cur.bound);
      ghost var kids := parent.kids[cur.slot := cur.Sum()];
      ghost var s := Summary(r, parent.height, parent.contents + multiset{fh});
      KidExtended(parent.kids, cur.slot, cur.Sum(), parent.Sum(), s, fh);
      was := parent.Sum();
      SetSummary(parent, r, kids, s, S);
      cur := parent;
      parent := parent.parent;
    }
    NothingStale(S, cur, was);
  }

  lemma KidExtended(kids: seq<Summary>, k: nat, s: Summary, p: Summary, p': Summary, fh: Foothold)
    requires k < |kids| && InnerOk(kids, p) && Gained(s, kids[k], fh)
    requires s.bound == Mbr(kids[k].bound, FootholdMbr(fh))
    requires p'.bound == Mbr(p.bound, s.bound) && p'.contents == p.contents + multiset{fh}
    ensures InnerOk(kids[k := s], p') && p'.bound == Mbr(p.bound, FootholdMbr(fh))
  {
    TotalUpdate(kids, k, s);
    BoundExtends(kids, k, FootholdMbr(fh), s);
  }

  /** A node without a parent is nobody's outdated child. */
  lemma NothingStale(S: set<Node>, cur: Node, was: Summary)
    requires Wired(S) && Sound(S, cur, was) && cur in S && cur.parent == null
    ensures Sound(S, null, NONE)
  {
    hide InnerOk, LeafOk;
    forall n | n in S
      ensures n.Linked(S) && n.Own() && n.Knows(null, NONE)
    {
      assert n.Linked(S) && n.Own() && n.Knows(cur, was);
      assert forall i :: 0 <= i < |n.children| ==> n.children[i].parent == n;
    }
  }

  method RecomputeParent(parent: Node, cur: Node, fh: Foothold, ghost was: Summary, ghost S: set<Node>)
    requires Wired(S) && Sound(S, cur, was) && cur in S && cur.parent == parent && Gained(cur.Sum(), was, fh)
    modifies parent`bound, parent`contents, parent`kids
    ensures Wired(S) && Sound(S, parent, old(parent.Sum())) && Gained(parent.Sum(), old(parent.Sum()), fh)
    ensures parent.height > cur.height
  {
    hide InnerOk, LeafOk, Bound, Total;
    OnlyParentIsStale(S, cur, was, parent);
    ghost var kids := parent.kids[cur.slot := cur.Sum()];
    var r := ChildrenBound(parent.children, kids);
    ghost var s := Summary(r, parent.height, parent.contents + multiset{fh});
    KidRecomputed(parent.kids, cur.slot, cur.Sum(), parent.Sum(), s, fh);
    SetSummary(parent, r, kids, s, S);
  }

  /** Recomputes the bounds of all ancestors from their children. */
  method RecomputeUpward(start: Node, fh: Foothold, ghost was0: Summary, ghost total: multiset<Foothold>,
                         ghost root: Node, ghost S: set<Node>)
    requires Wired(S) && Sound(S, start, was0) && Rooted(S, root, null) && start in S
    requires Gained(start.Sum(), was0, fh)
    requires total == if start == root then was0.contents else root.contents
    modifies S`bound, S`contents, S`kids
    ensures Wired(S) && Sound(S, null, NONE) && Rooted(S, root, null) && root.contents == total + multiset{fh}
  {
    hide InnerOk, LeafOk, Bound, Total, Sound;
    var cur := start;
    ghost var was := was0;
    while cur.parent != null
      invariant cur in S
      invariant Wired(S) && Sound(S, cur, was) && Rooted(S, root, null)
      invariant Gained(cur.Sum(), was, fh)
      invariant total == if cur == root then was.contents else root.contents
      decreases root.height - cur.height
    {
      var parent := cur.parent;
      assert cur.Linked(S);
      ghost var was' := parent.Sum();
      RecomputeParent(parent, cur, fh, was, S);
      was := was';
      cur := parent;
    }
    NothingStale(S, cur, was);
  }

  lemma KidRecomputed(kids: seq<Summary>, k: nat, s: Summary, p: Summary, p': Summary, fh: Foothold)
    requires k < |kids| && InnerOk(kids, p) && Gained(s, kids[k], fh)
    requires p'.bound == Bound(kids[k := s]) && p'.contents == p.contents + multiset{fh}
    ensures InnerOk(kids[k := s], p')
  {
    TotalUpdate(kids, k, s);
  }

  // ---------- upward splitting ----------

  /** The state between two steps of an upward split: `node` has shrunk, `nw` holds what it gave away
      and has no parent yet, and only the parent of `node` does not know. */
  ghost predicate Splitting(S: set<Node>, node: Node, nw: Node, was: Summary, fh: Foothold)
    reads S
  {
    && Wired(S) && Sound(S, node, was)
    && node in S && nw in S && nw.parent == null && nw != node
    && node.height == nw.height == was.height
    && node.contents + nw.contents == was.contents + multiset{fh}
  }

  method Attach(p: Node, nw: Node, ghost S: set<Node>)
    requires Wired(S) && p in S && nw in S && nw.parent == null && nw != p
    modifies p`children, nw`parent, nw`slot
    ensures Wired(S) && p.children == old(p.children) + [nw] && nw.parent == p
  {
    p.children := p.children + [nw];
    nw.parent := p;
    nw.slot := |p.children| - 1;
    forall n | n in S
      ensures n.Linked(S)
    {
      assert old(n.Linked(S) && p.Linked(S) && nw.Linked(S));
    }
  }

  /** A parent with room takes the new node in. */
  method Adopt(p: Node, node: Node, nw: Node, fh: Foothold, ghost was: Summary, ghost S: set<Node>)
    requires Splitting(S, node, nw, was, fh) && node.parent == p && nw != p
    requires |p.children| < 3
    modifies p`bound, p`contents, p`kids, p`children, nw`parent, nw`slot
    ensures Wired(S) && Sound(S, p, old(p.Sum())) && Gained(p.Sum(), old(p.Sum()), fh)
    ensures nw.parent == p
  {
    hide InnerOk, LeafOk, Bound, Total;
    OnlyParentIsStale(S, node, was, p);
    ghost var k := node.slot;
    ghost var kids := p.kids[k := node.Sum()] + [nw.Sum()];
    Attach(p, nw, S);
    var r := ChildrenBound(p.children, kids);
    ghost var s := Summary(r, p.height, p.contents + multiset{fh});
    KidAdopted(p.kids, k, node.Sum(), nw.Sum(), p.Sum(), s, fh);
    SetSummary(p, r, kids, s, S);
  }

  lemma KidAdopted(kids: seq<Summary>, k: nat, s: Summary, t: Summary, p: Summary, p': Summary, fh: Foothold)
    requires k < |kids| < 3 && InnerOk(kids, p)
    requires s.contents + t.contents == kids[k].contents + multiset{fh}
    requires p'.bound == Bound(kids[k := s] + [t]) && p'.contents == p.contents + multiset{fh}
    ensures InnerOk(kids[k := s] + [t], p')
  {
    TotalOfReplaced(kids, k, s, t, fh);
  }

  lemma TotalOfReplaced(kids: seq<Summary>, k: nat, s: Summary, t: Summary, fh: Foothold)
    requires k < |kids|
    requires s.contents + t.contents == kids[k].contents + multiset{fh}
    ensures Total(kids[k := s] + [t]) == Total(kids) + multiset{fh}
  {
    hide Total;
    TotalUpdate(kids, k, s);
    TotalAppend(kids[k := s], t);
    var rest := Total(kids) - kids[k].contents;
    calc {
      Total(kids[k := s] + [t]);
      (rest + s.contents) + t.contents;
      rest + (s.contents + t.contents);
      (rest + kids[k].contents) + multiset{fh};
      Total(kids) + multiset{fh};
    }
  }

  lemma TotalAppend(kids: seq<Summary>, t: Summary)
    ensures Total(kids + [t]) == Total(kids) + t.contents
  {
    assert (kids + [t])[..|kids|] == kids;
  }

  method Reparent(cs: seq<Node>, p: Node)
    requires Distinct(cs)
    modifies cs`parent, cs`slot
    ensures forall i :: 0 <= i < |cs| ==> cs[i].parent == p && cs[i].slot == i
  {
    for i := 0 to |cs|
      invariant forall j :: 0 <= j < i ==> cs[j].parent == p && cs[j].slot == j
    {
      cs[i].parent := p;
      cs[i].slot := i;
    }
  }

  /** Divides the children of `p` and the new node between `p` and the fresh node `q`. */
  method Divide(p: Node, q: Node, nw: Node, keep: seq<Node>, ghost plan: Split, ghost S: set<Node>)
    requires Wired(S) && p in S && nw in S && nw.parent == null && nw != p && q !in S && q.parent == null
    requires |p.children| == 3 && ValidSplit(plan) && p !in p.children
    requires keep == Kept(p.children + [nw], plan) && q.children == Given(p.children + [nw], plan)
    modifies p`children, S`parent, S`slot
    ensures Wired(S + {q})
    ensures p.children == keep && p.parent == old(p.parent)
    ensures forall n :: n in S && n != p ==> (n.parent == null <==> old(n.parent) == null && n != nw)
  {
    hide Kept, Given;
    ghost var all := p.children + [nw];
    assert p.Linked(S) && nw.Linked(S);
    assert forall c :: c in all ==> c in S && (c.parent == p || c == nw);
    var give := q.children;
    SplitPartitions(all, plan);
    Reparent(keep, p);
    Reparent(give, q);
    p.children := keep;
    forall n | n in S
      ensures n != p ==> (n.parent == null <==> old(n.parent) == null && n != nw)
      ensures n.parent != null ==>
                n.parent in S + {q} && n.slot < |n.parent.children| && n.parent.children[n.slot] == n
    {
      assert old(n.Linked(S));
      if n in all {
        assert n in keep || n in give;
      } else {
        assert n.parent == old(n.parent) != p;
      }
    }
    forall n, i | n in S + {q} && 0 <= i < |n.children|
      ensures n.children[i] in S && n.children[i].parent == n && n.children[i].slot == i
    {
      if n == p {
        assert keep[i] in all;
      } else if n == q {
        assert give[i] in all;
      } else {
        assert old(n.Linked(S));
        assert n.children[i] !in all;
      }
    }
  }

  method DivideSound(p: Node, q: Node, nw: Node, keep: seq<Node>, ghost plan: Split, ghost S: set<Node>)
    requires Wired(S) && p in S && nw in S && nw.parent == null && nw != p && q !in S && q.parent == null
    requires |p.children| == 3 && ValidSplit(plan) && p !in p.children
    requires keep == Kept(p.children + [nw], plan) && q.children == Given(p.children + [nw], plan)
    requires SoundBut(S, p) && q.Own() && q.Knows(null, NONE)
    modifies p`children, S`parent, S`slot
    ensures Wired(S + {q}) && SoundBut(S + {q}, p)
    ensures p.children == keep && p.parent == old(p.parent)
    ensures forall n :: n in S && n != p ==> (n.parent == null <==> old(n.parent) == null && n != nw)
  {
    hide InnerOk, LeafOk, Kept, Given;
    Divide(p, q, nw, keep, plan, S);
    forall n | n in S && n != p
      ensures n.Own() && n.Knows(null, NONE)
    {
      assert old(n.Own() && n.Knows(null, NONE));
    }
    SoundWithFresh(S, p, q);
  }

  /** What is known of divided children is divided in the same way. */
  lemma SumsDivide(all: seq<Node>, ks: seq<Summary>, plan: Split, h: nat)
    requires |all| == |ks| == 4 && ValidSplit(plan) && SameHeight(ks, h)
    requires forall i :: 0 <= i < 4 ==> ks[i] == all[i].Sum()
    ensures 1 <= |Given(ks, plan)| == |Given(all, plan)| <= 2 && 2 <= |Kept(ks, plan)| == |Kept(all, plan)| <= 3
    ensures forall i :: 0 <= i < |Given(ks, plan)| ==> Given(ks, plan)[i] == Given(all, plan)[i].Sum()
    ensures forall i :: 0 <= i < |Kept(ks, plan)| ==> Kept(ks, plan)[i] == Kept(all, plan)[i].Sum()
    ensures SameHeight(Given(ks, plan), h) && SameHeight(Kept(ks, plan), h)
  {
    hide KeptIndices, GivenIndices;
  }

  /** Builds the node that takes over a part of the children of the full node `p`. */
  method DivideOff(p: Node, nw: Node, plan: Split, ghost ks: seq<Summary>, ghost S: set<Node>) returns (q: Node)
    requires Wired(S) && SoundBut(S, p) && p in S && nw in S && nw.parent == null && nw != p
    requires |p.children| == 3 && ValidSplit(plan) && p !in p.children && p.height > 0
    requires |ks| == 4 && forall i :: 0 <= i < 4 ==> ks[i] == (p.children + [nw])[i].Sum()
    requires SameHeight(ks, p.height - 1)
    modifies p`children, S`parent, S`slot
    ensures fresh(q) && Wired(S + {q}) && SoundBut(S + {q}, p)
    ensures q.parent == null && q.height == p.height && q.contents == Total(Given(ks, plan))
    ensures p.children == Kept(old(p.children) + [nw], plan) && p.parent == old(p.parent)
    ensures forall n :: n in S && n != p ==> (n.parent == null <==> old(n.parent) == null && n != nw)
  {
    hide InnerOk, LeafOk, Bound, Total, Kept, Given;
    ghost var all, giveKs := p.children + [nw], Given(ks, plan);
    var keep, give := DivideEntries(p.children, nw, plan);
    SumsDivide(all, ks, plan, p.height - 1);
    var r := ChildrenBound(give, giveKs);
    q := new Node.Inner(give, r, giveKs, Summary(r, p.height, Total(giveKs)));
    InnerOkFrom(giveKs, q.Sum());
    DivideSound(p, q, nw, keep, plan, S);
  }

  /** A full parent divides its children and the new node between itself and a further new node. */
  method SplitInner(p: Node, node: Node, nw: Node, plan: Split, fh: Foothold, ghost was: Summary, ghost S: set<Node>)
    returns (q: Node)
    requires Splitting(S, node, nw, was, fh) && node.parent == p
    requires |p.children| == 3 && ValidSplit(plan)
    modifies p`bound, p`contents, p`kids, p`children, S`parent, S`slot
    ensures fresh(q) && Splitting(S + {q}, p, q, old(p.Sum()), fh)
    ensures p.parent == old(p.parent) && p.height > node.height
    ensures forall n :: n in S && n != p ==> (n.parent == null <==> old(n.parent) == null && n != nw)
  {
    hide InnerOk, LeafOk, Bound, Total, KeptIndices, GivenIndices;
    OnlyParentIsStale(S, node, was, p);
    HeightsBelow(p, node, was);
    ghost var ks := p.kids[node.slot := node.Sum()] + [nw.Sum()];
    TotalsDivide(p.kids, node.slot, node.Sum(), nw.Sum(), p.Sum(), plan, fh);
    q := DivideOff(p, nw, plan, ks, S);
    ghost var keepKs := Kept(ks, plan);
    var r := ChildrenBound(p.children, keepKs);
    ghost var s := Summary(r, p.height, Total(keepKs));
    InnerOkFrom(keepKs, s);
    SetSummary(p, r, keepKs, s, S + {q});
  }

  lemma HeightsBelow(p: Node, node: Node, was: Summary)
    requires p.Own() && p.Knows(node, was) && node in p.children && node.height == was.height
    ensures p.height == node.height + 1
    ensures forall i :: 0 <= i < |p.children| ==> p.children[i].height + 1 == p.height
  {
    hide InnerOk, LeafOk;
  }

  lemma InnerOkFrom(kids: seq<Summary>, p: Summary)
    requires 1 <= |kids| <= 3 && p.bound == Bound(kids) && p.contents == Total(kids)
    ensures InnerOk(kids, p)
  {
  }

  lemma TotalsDivide(kids: seq<Summary>, k: nat, s: Summary, t: Summary, p: Summary, plan: Split, fh: Foothold)
    requires k < |kids| == 3 && InnerOk(kids, p) && ValidSplit(plan)
    requires s.contents + t.contents == kids[k].contents + multiset{fh}
    ensures var ks := kids[k := s] + [t];
            Total(Kept(ks, plan)) + Total(Given(ks, plan)) == p.contents + multiset{fh}
  {
    hide Total, Kept, Given;
    TotalOfReplaced(kids, k, s, t, fh);
    TotalSplits(kids[k := s] + [t], plan);
  }

  lemma SoundWithFresh(S: set<Node>, p: Node, q: Node)
    requires Wired(S + {q})
    requires forall n :: n in S && n != p ==> n.Own() && n.Knows(null, NONE)
    requires q.Own() && q.Knows(null, NONE)
    ensures SoundBut(S + {q}, p)
  {
    hide InnerOk, LeafOk;
    forall n | n in S + {q} && n != p
      ensures n.Linked(S + {q}) && n.Own() && n.Knows(null, NONE)
    {
    }
  }

  /** Changing what one leaf holds leaves only its parent outdated. */
  method SetLeaf(leaf: Node, fhs: seq<Foothold>, r: Rectangle, ghost S: set<Node>)
    requires Wired(S) && Sound(S, null, NONE) && leaf in S && leaf.isLeaf
    requires 1 <= |fhs| <= 3 && r == LeafBound(fhs)
    modifies leaf`footholds, leaf`bound, leaf`contents
    ensures Wired(S) && Sound(S, leaf, old(leaf.Sum()))
    ensures leaf.footholds == fhs && leaf.Sum() == Summary(r, old(leaf.height), multiset(fhs))
  {
    hide InnerOk, LeafBound;
    leaf.footholds := fhs;
    leaf.bound := r;
    leaf.contents := multiset(fhs);
    forall n | n in S
      ensures n.Linked(S) && n.Own() && n.Knows(leaf, old(leaf.Sum()))
    {
      assert n.Linked(S);
      assert old(n.Own()) && old(n.Knows(null, NONE));
    }
  }

  /** A leaf with room takes the foothold. */
  method AppendToLeaf(leaf: Node, fh: Foothold, ghost S: set<Node>)
    requires Wired(S) && Sound(S, null, NONE) && leaf in S && leaf.isLeaf && |leaf.footholds| < 3
    modifies leaf`footholds, leaf`bound, leaf`contents
    ensures Wired(S) && Sound(S, leaf, old(leaf.Sum())) && Gained(leaf.Sum(), old(leaf.Sum()), fh)
    ensures leaf.bound == Mbr(old(leaf.bound), FootholdMbr(fh))
  {
    hide InnerOk, LeafBound;
    assert leaf.Own();
    LeafBoundAppend(leaf.footholds, fh);
    SetLeaf(leaf, leaf.footholds + [fh], Mbr(leaf.bound, FootholdMbr(fh)), S);
  }

  lemma LeafBoundAppend(fhs: seq<Foothold>, fh: Foothold)
    requires |fhs| > 0
    ensures LeafBound(fhs + [fh]) == Mbr(LeafBound(fhs), FootholdMbr(fh))
  {
    assert (fhs + [fh])[..|fhs|] == fhs;
  }

  /** A full leaf and the new foothold are divided over the leaf and a new one. */
  method SplitLeaf(leaf: Node, fh: Foothold, plan: Split, ghost S: set<Node>) returns (nw: Node)
    requires Wired(S) && Sound(S, null, NONE) && leaf in S && leaf.isLeaf && |leaf.footholds| == 3
    requires ValidSplit(plan)
    modifies leaf`footholds, leaf`bound, leaf`contents
    ensures fresh(nw) && Splitting(S + {nw}, leaf, nw, old(leaf.Sum()), fh)
  {
    hide InnerOk, LeafBound, KeptIndices, GivenIndices;
    assert leaf.Own();
    var fhs := leaf.footholds;
    LeafSplits(fhs + [fh], plan);
    var kept, given := DivideEntries(fhs, fh, plan);
    nw := new Node.Leaf(given);
    SetLeaf(leaf, kept, LeafBound(kept), S);
    FreshLeaf(S, nw, leaf, old(leaf.Sum()));
  }

  lemma FreshLeaf(S: set<Node>, nw: Node, stale: Node, was: Summary)
    requires Wired(S) && Sound(S, stale, was) && nw !in S
    requires nw.isLeaf && nw.parent == null && nw.children == [] && nw.kids == [] && nw.Own()
    ensures Wired(S + {nw}) && Sound(S + {nw}, stale, was)
  {
    hide InnerOk, LeafOk;
    forall n | n in S + {nw}
      ensures n.Linked(S + {nw}) && n.Own() && n.Knows(stale, was)
    {
      if n != nw {
        assert n.Linked(S) && n.Own() && n.Knows(stale, was);
      }
    }
  }

  /** When the root itself was split, a new root holds the two halves. */
  method GrowRoot(node: Node, nw: Node, fh: Foothold, ghost was: Summary, ghost S: set<Node>) returns (root: Node)
    requires Splitting(S, node, nw, was, fh) && Rooted(S, node, nw)
    modifies node`parent, node`slot, nw`parent, nw`slot
    ensures fresh(root) && Wired(S + {root}) && Sound(S + {root}, null, NONE) && Rooted(S + {root}, root, null)
    ensures root.contents == was.contents + multiset{fh}
  {
    hide InnerOk, LeafOk, Bound, Total, Mbr;
    ghost var kids := [node.Sum(), nw.Sum()];
    BoundOfTwo(node.Sum(), nw.Sum());
    var r := Mbr(node.bound, nw.bound);
    ghost var s := Summary(r, node.height + 1, Total(kids));
    InnerOkFrom(kids, s);
    NothingStale(S, node, was);
    root := new Node.Inner([node, nw], r, kids, s);
    Crown(root, node, nw, S);
    forall n | n in S
      ensures n.Own() && n.Knows(null, NONE) && n.height < root.height && n.parent != null
    {
      assert old(n.Own() && n.Knows(null, NONE));
    }
    SoundWithRoot(S, root);
  }

  method Crown(root: Node, node: Node, nw: Node, ghost S: set<Node>)
    requires Wired(S) && node in S && nw in S && node != nw && node.parent == null && nw.parent == null
    requires root !in S && root.parent == null && root.children == [node, nw]
    modifies node`parent, node`slot, nw`parent, nw`slot
    ensures Wired(S + {root}) && node.parent == root && nw.parent == root
  {
    Reparent([node, nw], root);
    assert [node, nw][0] == node && [node, nw][1] == nw;
    forall n | n in S + {root}
      ensures n.Linked(S + {root})
    {
      if n != root {
        assert old(n.Linked(S));
      }
    }
  }

  lemma SoundWithRoot(S: set<Node>, root: Node)
    requires Wired(S + {root})
    requires forall n :: n in S ==> n.Own() && n.Knows(null, NONE)
    requires root.Own() && root.Knows(null, NONE)
    ensures Sound(S + {root}, null, NONE)
  {
    hide InnerOk, LeafOk;
    forall n | n in S + {root}
      ensures n.Linked(S + {root}) && n.Own() && n.Knows(null, NONE)
    {
    }
  }

  lemma BoundOfTwo(a: Summary, b: Summary)
    ensures Bound([a, b]) == Mbr(a.bound, b.bound) && Total([a, b]) == a.contents + b.contents
  {
    assert [a, b][..1] == [a];
    assert [a][..0] == [];
    assert Bound([a]) == a.bound && Total([a]) == a.contents;
  }

  // ---------- insertion ----------

  method BoundsOf(cs: seq<Node>) returns (rs: seq<Rectangle>)
    ensures |rs| == |cs| && forall i :: 0 <= i < |cs| ==> rs[i] == cs[i].bound
  {
    rs := [];
    for i := 0 to |cs|
      invariant |rs| == i && forall j :: 0 <= j < i ==> rs[j] == cs[j].bound
    {
      rs := rs + [cs[i].bound];
    }
  }

  method ChooseLeaf(root: Node, r: Rectangle, ghost S: set<Node>) returns (leaf: Node)
    requires Wired(S) && Sound(S, null, NONE) && root in S
    ensures leaf in S && leaf.isLeaf
  {
    hide InnerOk, LeafOk, Bound, Total;
    leaf := root;
    assert leaf.Own();
    while !leaf.isLeaf
      invariant leaf in S && leaf.Own()
      decreases leaf.height
    {
      assert leaf.Linked(S) && leaf.Knows(null, NONE);
      InnerHasKids(leaf);
      var bounds := BoundsOf(leaf.children);
      var k := ChooseChild(bounds, r);
      assert leaf.children[k].height + 1 == leaf.height;
      assert leaf.children[k].Own();
      leaf := leaf.children[k];
    }
  }

  lemma InnerHasKids(n: Node)
    requires n.Own()
    ensures if n.isLeaf then 1 <= |n.footholds| <= 3 else 1 <= |n.children| <= 3
  {
  }

  method SplitFull(p: Node, node: Node, nw: Node, fh: Foothold, ghost was: Summary, ghost top: Node, ghost S: set<Node>)
    returns (q: Node)
    requires Splitting(S, node, nw, was, fh) && Rooted(S, top, nw) && node.parent == p && |p.children| == 3
    modifies p`bound, p`contents, p`kids, p`children, S`parent, S`slot
    ensures fresh(q) && Splitting(S + {q}, p, q, old(p.Sum()), fh) && Rooted(S + {q}, top, q)
  {
    hide InnerOk, LeafOk, Bound, Total, Mbr, Sound;
    var bounds := BoundsOf(p.children);
    var plan := ChooseInnerSplit(bounds + [nw.bound]);
    ParentOfSplit(S, node, nw, was, fh);
    q := SplitInner(p, node, nw, plan, fh, was, S);
    forall n | n in S
      ensures n.height <= top.height && (n.parent == null ==> n == top)
    {
    }
  }

  /** Carries a split upward until some ancestor has room or the root itself is split. */
  method PropagateSplit(top: Node, start: Node, nw0: Node, fh: Foothold,
                        ghost was0: Summary, ghost total: multiset<Foothold>, ghost S0: set<Node>)
    returns (root: Node, ghost S: set<Node>)
    requires Splitting(S0, start, nw0, was0, fh) && Rooted(S0, top, nw0)
    requires total == if start == top then was0.contents else top.contents
    modifies S0
    ensures Wired(S) && Sound(S, null, NONE) && Rooted(S, root, null)
    ensures S0 <= S && fresh(S - S0) && root.contents == total + multiset{fh}
  {
    hide InnerOk, LeafOk, Bound, Total, Mbr, Sound, Splitting;
    var node: Node, nw: Node := start, nw0;
    ghost var was := was0;
    S := S0;
    while node.parent != null
      invariant S0 <= S && fresh(S - S0)
      invariant Splitting(S, node, nw, was, fh) && Rooted(S, top, nw)
      invariant total == if node == top then was.contents else top.contents
      decreases top.height - node.height
    {
      var p := node.parent;
      ParentOfSplit(S, node, nw, was, fh);
      SplitNodes(S, node, nw, was, fh);
      ghost var was' := p.Sum();
      if |p.children| < 3 {
        Adopt(p, node, nw, fh, was, S);
        RecomputeUpward(p, fh, was', total, top, S);
        root := top;
        return;
      }
      var q := SplitFull(p, node, nw, fh, was, top, S);
      S := S + {q};
      node, nw, was := p, q, was';
    }
    SplitNodes(S, node, nw, was, fh);
    root := GrowRoot(node, nw, fh, was, S);
    S := S + {root};
  }

  lemma SplitNodes(S: set<Node>, node: Node, nw: Node, was: Summary, fh: Foothold)
    requires Splitting(S, node, nw, was, fh)
    ensures node in S && nw in S && nw != node && nw.parent == null && nw.height == node.height
  {
  }

  method InsertInto(root: Node, fh: Foothold, ghost S0: set<Node>) returns (top: Node, ghost S: set<Node>)
    requires Wired(S0) && Sound(S0, null, NONE) && Rooted(S0, root, null)
    modifies S0
    ensures Wired(S) && Sound(S, null, NONE) && Rooted(S, top, null)
    ensures S0 <= S && fresh(S - S0) && top.contents == old(root.contents) + multiset{fh}
  {
    hide InnerOk, LeafOk, Bound, Total, Mbr, LeafBound;
    var leaf := ChooseLeaf(root, FootholdMbr(fh), S0);
    assert leaf.Own();
    InnerHasKids(leaf);
    ghost var total, was := root.contents, leaf.Sum();
    if |leaf.footholds| < 3 {
      AppendToLeaf(leaf, fh, S0);
      ExtendUpward(leaf, fh, was, total, root, S0);
      top, S := root, S0;
    } else {
      var fhs := leaf.footholds;
      var plan := ChooseLeafSplit([FootholdMbr(fhs[0]), FootholdMbr(fhs[1]), FootholdMbr(fhs[2]), FootholdMbr(fh)]);
      var nw := SplitLeaf(leaf, fh, plan, S0);
      top, S := PropagateSplit(root, leaf, nw, fh, was, total, S0 + {nw});
    }
  }

  // ---------- search ----------

  /** `r` is an eligible foothold of `m` at the smallest distance, or nothing if none is eligible. */
  ghost predicate Nearest(r: Option<Foothold>, m: multiset<Foothold>, p: Point) {
    match r
    case None => forall f <- m :: !Eligible(f, p)
    case Some(f) => f in m && Eligible(f, p)
                    && forall g <- m :: Eligible(g, p) ==> DistanceBelow(f, p) <= DistanceBelow(g, p)
  }

  function Distance(r: Option<Foothold>, p: Point): Int16 {
    if r.None? then INT16_MAX else DistanceBelow(r.value, p)
  }

  method FindBelowLeaf(fhs: seq<Foothold>, p: Point) returns (min: Option<Foothold>)
    ensures Nearest(min, multiset(fhs), p)
  {
    hide Skipped, DistanceBelow;
    min := None;
    var minDist := INT16_MAX;
    for i := 0 to |fhs|
      invariant Nearest(min, multiset(fhs[..i]), p) && minDist == Distance(min, p)
    {
      assert fhs[..i + 1] == fhs[..i] + [fhs[i]];
      if Skipped(fhs[i], p) {
        continue;
      }
      var dist := DistanceBelow(fhs[i], p);
      if dist < minDist {
        min, minDist := Some(fhs[i]), dist;
      }
    }
    assert fhs[..|fhs|] == fhs;
  }

  method FindBelowNode(node: Node, p: Point, ghost S: set<Node>) returns (min: Option<Foothold>)
    requires Wired(S) && Sound(S, null, NONE) && node in S
    ensures Nearest(min, node.contents, p)
    decreases node.height
  {
    hide DistanceBelow, Skipped, Bound, Eligible, Mbr, LeafBound, Nearest, Total;
    assert node.Own() && node.Linked(S) && node.Knows(null, NONE);
    if node.bound.sw.x > p.x || node.bound.sw.y < p.y {
      PrunedIsEmpty(node, p, S);
      return None;
    }
    if node.isLeaf {
      min := FindBelowLeaf(node.footholds, p);
      return;
    }
    min := None;
    var minDist := INT16_MAX;
    NothingIsNearest(p);
    for i := 0 to |node.children|
      invariant Nearest(min, Total(node.kids[..i]), p) && minDist == Distance(min, p)
    {
      var current := FindBelowNode(node.children[i], p, S);
      TotalOfPrefix(node.kids, i);
      NearestJoins(min, Total(node.kids[..i]), current, node.children[i].contents, p);
      if current.Some? {
        var dist := DistanceBelow(current.value, p);
        if dist < minDist {
          min, minDist := current, dist;
        }
      }
    }
    assert node.kids[..|node.kids|] == node.kids;
  }

  lemma PrunedIsEmpty(node: Node, p: Point, S: set<Node>)
    requires Wired(S) && Sound(S, null, NONE) && node in S
    requires node.bound.sw.x > p.x || node.bound.sw.y < p.y
    ensures Nearest(None, node.contents, p)
  {
    hide Eligible, Wired, Sound;
    BoundIsTight(node, S);
    forall f | f in node.contents
      ensures !Eligible(f, p)
    {
      PruningIsSound(node.bound, f, p);
    }
  }

  lemma NothingIsNearest(p: Point)
    ensures Nearest(None, Total([]), p)
  {
  }

  lemma TotalOfPrefix(kids: seq<Summary>, i: nat)
    requires i < |kids|
    ensures Total(kids[..i + 1]) == Total(kids[..i]) + kids[i].contents
  {
    assert kids[..i + 1][..i] == kids[..i];
  }

  /** Of the nearest footholds of two parts, the nearer one is nearest in both together. */
  lemma NearestJoins(a: Option<Foothold>, m1: multiset<Foothold>, b: Option<Foothold>, m2: multiset<Foothold>, p: Point)
    requires Nearest(a, m1, p) && Nearest(b, m2, p)
    ensures Nearest(if b.Some? && DistanceBelow(b.value, p) < Distance(a, p) then b else a, m1 + m2, p)
  {
    hide DistanceBelow, Skipped;
  }

  // ---------- what a valid tree looks like, told from its real fields only ----------

  /** Every bound is the exact bounding box of all footholds stored below it. */
  lemma {:induction false} BoundIsTight(n: Node, S: set<Node>)
    requires Wired(S) && Sound(S, null, NONE) && n in S
    ensures TightBox(n.bound, n.contents)
    decreases n.height
  {
    hide TightBox, LeafBound, Bound, Total;
    assert n.Own() && n.Linked(S) && n.Knows(null, NONE);
    if n.isLeaf {
      LeafBoundIsTight(n.footholds);
    } else {
      forall i | 0 <= i < |n.kids|
        ensures TightBox(n.kids[i].bound, n.kids[i].contents)
      {
        BoundIsTight(n.children[i], S);
      }
      KidsBoundIsTight(n.kids);
    }
  }

  lemma {:induction false} KidsBoundIsTight(kids: seq<Summary>)
    requires |kids| > 0 && forall i :: 0 <= i < |kids| ==> TightBox(kids[i].bound, kids[i].contents)
    ensures TightBox(Bound(kids), Total(kids))
  {
    hide TightBox;
    var n := |kids| - 1;
    if n == 0 {
      assert Total(kids[..0]) == multiset{};
      assert Total(kids) == kids[0].contents;
    } else {
      KidsBoundIsTight(kids[..n]);
      TightBoxJoins(Bound(kids[..n]), Total(kids[..n]), kids[n].bound, kids[n].contents);
    }
  }

  /** All leaves lie exactly `d` levels below `n`. */
  ghost predicate LeavesAtDepth(n: Node, d: nat, S: set<Node>)
    reads S
    decreases d
  {
    && n in S
    && if n.isLeaf then d == 0
       else d > 0 && forall i :: 0 <= i < |n.children| ==> LeavesAtDepth(n.children[i], d - 1, S)
  }

  lemma {:induction false} LeavesAtEqualDepth(n: Node, S: set<Node>)
    requires Wired(S) && Sound(S, null, NONE) && n in S
    ensures LeavesAtDepth(n, n.height, S)
    decreases n.height
  {
    hide InnerOk, LeafOk;
    assert n.Own() && n.Linked(S) && n.Knows(null, NONE);
    forall i | 0 <= i < |n.children|
      ensures n.height > 0 && LeavesAtDepth(n.children[i], n.height - 1, S)
    {
      LeavesAtEqualDepth(n.children[i], S);
    }
  }

  /** The footholds found by walking the leaves under the first `k` children of `n`. */
  ghost function CollectFirst(n: Node, k: nat, S: set<Node>): multiset<Foothold>
    requires Wired(S) && Sound(S, null, NONE) && n in S && k <= |n.children|
    reads S
    decreases n.height, k
  {
    if k == 0 then multiset{}
    else
      assert n.Own() && n.Linked(S) && n.Knows(null, NONE);
      CollectFirst(n, k - 1, S) + Collect(n.children[k - 1], S)
  }

  ghost function Collect(n: Node, S: set<Node>): multiset<Foothold>
    requires Wired(S) && Sound(S, null, NONE) && n in S
    reads S
    decreases n.height, |n.children| + 1
  {
    if n.isLeaf then multiset(n.footholds) else CollectFirst(n, |n.children|, S)
  }

  lemma {:induction false} CollectFindsContents(n: Node, S: set<Node>)
    requires Wired(S) && Sound(S, null, NONE) && n in S
    ensures Collect(n, S) == n.contents
    decreases n.height, |n.children| + 1
  {
    hide Bound, LeafBound;
    assert n.Own() && n.Linked(S) && n.Knows(null, NONE);
    if !n.isLeaf {
      CollectFirstFindsKids(n, |n.children|, S);
      assert n.kids[..|n.kids|] == n.kids;
    }
  }

  lemma {:induction false} CollectFirstFindsKids(n: Node, k: nat, S: set<Node>)
    requires Wired(S) && Sound(S, null, NONE) && n in S && k <= |n.children|
    requires n.Own() && n.Linked(S) && n.Knows(null, NONE)
    ensures CollectFirst(n, k, S) == Total(n.kids[..k])
    decreases n.height, k
  {
    hide InnerOk, LeafOk;
    if k > 0 {
      CollectFirstFindsKids(n, k - 1, S);
      CollectFindsContents(n.children[k - 1], S);
      assert n.kids[..k][..k - 1] == n.kids[..k - 1];
    }
  }

  class FootholdTree {
    var root: Node?
    ghost var nodes: set<Node>

    constructor ()
      ensures Valid() && nodes == {} && Contents() == multiset{}
    {
      root, nodes := null, {};
    }

    ghost predicate Valid()
      reads this, nodes
    {
      if root == null then nodes == {}
      else Wired(nodes) && Sound(nodes, null, NONE) && Rooted(nodes, root, null)
    }

    ghost function Contents(): multiset<Foothold>
      reads this, root
    {
      if root == null then multiset{} else root.contents
    }

    method Insert(fh: Foothold)
      requires Valid()
      modifies this, nodes
      ensures Valid() && fresh(nodes - old(nodes))
      ensures root != null && Contents() == old(Contents()) + multiset{fh}
    {
      if root == null {
        root := new Node.Leaf([fh]);
        nodes := {root};
        FirstLeaf(root, fh);
      } else {
        var top: Node;
        top, nodes := InsertInto(root, fh, nodes);
        root := top;
      }
    }

    /** The nearest foothold straight below `p`; only a tree that holds a foothold may be asked. */
    method FindBelow(p: Point) returns (r: Option<Foothold>)
      requires Valid() && root != null
      ensures Nearest(r, Contents(), p)
    {
      r := FindBelowNode(root, p, nodes);
    }
  }

  lemma ParentOfSplit(S: set<Node>, node: Node, nw: Node, was: Summary, fh: Foothold)
    requires Splitting(S, node, nw, was, fh) && node.parent != null
    ensures node.parent in S && node.parent != nw && node.parent.height == node.height + 1
    ensures 1 <= |node.parent.children| <= 3
  {
    hide InnerOk, LeafOk;
    OnlyParentIsStale(S, node, was, node.parent);
    HeightsBelow(node.parent, node, was);
    InnerHasKids(node.parent);
  }

  lemma FirstLeaf(root: Node, fh: Foothold)
    requires root.parent == null && root.isLeaf && root.footholds == [fh] && root.children == [] && root.kids == []
    requires root.Sum() == Summary(LeafBound([fh]), 0, multiset([fh]))
    ensures Wired({root}) && Sound({root}, null, NONE) && Rooted({root}, root, null)
    ensures root.contents == multiset{fh}
  {
    assert root.Linked({root}) && root.Own() && root.Knows(null, NONE);
  }

  // ---------- main results ----------

  /** One to three entries, a bound that is the exact box of everything below, children that
      point back, and a parent for every node but the root. */
  ghost predicate NodeWellFormed(n: Node, root: Node, S: set<Node>)
    requires Wired(S) && Sound(S, null, NONE) && n in S
    reads S
  {
    && 1 <= (if n.isLeaf then |n.footholds| else |n.children|) <= 3
    && TightBox(n.bound, Collect(n, S))
    && (forall i :: 0 <= i < |n.children| ==> n.children[i] in S && n.children[i].parent == n)
    && (n.parent == null <==> n == root)
    && (n.parent != null ==> n.parent in S && n in n.parent.children)
  }

  lemma ValidTreeIsWellFormed(t: FootholdTree)
    requires t.Valid() && t.root != null
    ensures Collect(t.root, t.nodes) == t.Contents()
    ensures LeavesAtDepth(t.root, t.root.height, t.nodes)
    ensures forall n :: n in t.nodes ==> NodeWellFormed(n, t.root, t.nodes)
  {
    hide InnerOk, LeafOk, TightBox;
    CollectFindsContents(t.root, t.nodes);
    LeavesAtEqualDepth(t.root, t.nodes);
    forall n | n in t.nodes
      ensures NodeWellFormed(n, t.root, t.nodes)
    {
      assert n.Own() && n.Linked(t.nodes);
      InnerHasKids(n);
      CollectFindsContents(n, t.nodes);
      BoundIsTight(n, t.nodes);
    }
  }

  /** A foothold from (0, 0) to (10, 10), alone in its tree, has these corners as its bound. */
  method BoundOfOne() returns (t: FootholdTree)
    ensures fresh(t) && t.Valid() && t.root != null && t.root.bound == Rectangle(Point(0, 10), Point(10, 0))
  {
    var fh := Foothold(1, Point(0, 0), Point(10, 10));
    t := new FootholdTree();
    t.Insert(fh);
    BoundIsTight(t.root, t.nodes);
    assert fh in multiset{fh};
    TightBoxIsUnique(t.root.bound, Rectangle(Point(0, 10), Point(10, 0)), multiset{fh});
  }

  /** The reference: look at the footholds one by one and keep the first nearest one. */
  function Scan(fhs: seq<Foothold>, p: Point): Option<Foothold> {
    if fhs == [] then None
    else
      var min, f := Scan(fhs[..|fhs| - 1], p), fhs[|fhs| - 1];
      if Eligible(f, p) && DistanceBelow(f, p) < Distance(min, p) then Some(f) else min
  }

  lemma {:induction false} ScanFindsNearest(fhs: seq<Foothold>, p: Point)
    ensures Nearest(Scan(fhs, p), multiset(fhs), p)
  {
    hide Skipped, DistanceBelow;
    if fhs != [] {
      var n := |fhs| - 1;
      ScanFindsNearest(fhs[..n], p);
      assert fhs == fhs[..n] + [fhs[n]];
    }
  }

  lemma NearestAgree(a: Option<Foothold>, b: Option<Foothold>, m: multiset<Foothold>, p: Point)
    requires Nearest(a, m, p) && Nearest(b, m, p)
    ensures a.None? <==> b.None?
    ensures Distance(a, p) == Distance(b, p)
  {
    hide Skipped, DistanceBelow;
  }

  ghost predicate AllSmall(fhs: seq<Foothold>) {
    forall f :: f in fhs ==> Small(f.p1) && Small(f.p2)
  }

  /** `r` spans the point at the least distance at or below it, and there is none only if no foothold does. */
  ghost predicate TrulyNearest(r: Option<Foothold>, fhs: seq<Foothold>, p: Point) {
    match r
    case None => forall f :: f in fhs ==> !(Spans(f, p) && TrueDistance(f, p) >= 0)
    case Some(f) => f in fhs && Spans(f, p) && TrueDistance(f, p) >= 0
                    && forall g :: g in fhs && Spans(g, p) && TrueDistance(g, p) >= 0 ==>
                         TrueDistance(f, p) <= TrueDistance(g, p)
  }

  /** With small coordinates, what the search calls nearest is nearest. */
  lemma NearestIsTrue(r: Option<Foothold>, fhs: seq<Foothold>, p: Point)
    requires Small(p) && AllSmall(fhs) && Nearest(r, multiset(fhs), p)
    ensures TrulyNearest(r, fhs, p)
  {
    hide Eligible, DistanceBelow, TrueDistance;
    forall f | f in fhs
      ensures f in multiset(fhs)
      ensures Eligible(f, p) <==> Spans(f, p) && TrueDistance(f, p) >= 0
      ensures Spans(f, p) ==> DistanceBelow(f, p) == TrueDistance(f, p)
    {
      SmallCoordinatesDoNotWrap(f, p);
    }
  }

  /** Inserting any footholds in any order and then searching agrees with the scan of all of them. */
  method LoadAndFind(fhs: seq<Foothold>, p: Point) returns (r: Option<Foothold>)
    requires fhs != []
    ensures Nearest(r, multiset(fhs), p)
    ensures r.None? <==> Scan(fhs, p).None?
    ensures Distance(r, p) == Distance(Scan(fhs, p), p)
    ensures Small(p) && AllSmall(fhs) ==> TrulyNearest(r, fhs, p)
  {
    hide Scan, Nearest, Distance, TrulyNearest;
    var t := new FootholdTree();
    for i := 0 to |fhs|
      invariant t.Valid() && fresh(t) && fresh(t.nodes) && t.Contents() == multiset(fhs[..i])
      invariant i > 0 ==> t.root != null
    {
      assert fhs[..i + 1] == fhs[..i] + [fhs[i]];
      t.Insert(fhs[i]);
    }
    assert fhs[..|fhs|] == fhs;
    r := t.FindBelow(p);
    ScanFindsNearest(fhs, p);
    NearestAgree(r, Scan(fhs, p), multiset(fhs), p);
    if Small(p) && AllSmall(fhs) {
      NearestIsTrue(r, fhs, p);
    }
  }
}
