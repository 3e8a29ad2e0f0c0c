/**
 The iterative tree walk (src/lib/xml/XmlCore.h:196-217): an explicit stack of pending nodes, refilled in reverse. It
 visits exactly the elements that are reached through elements, each once, in document order, however deep or wide the
 tree is. A node is known by its path: the positions of the children to follow from the root.
 */
module XmlWalk {
  import opened ByteStrings

  datatype Node = Node(element: bool, children: seq<Node>)

  type Path = seq<nat>

  /** A reference to a node. */
  datatype Ref = Ref(path: Path, node: Node)

  // ---- The recursive order ----------------------------------------------------------------------

  /** The element children from the k-th child on. */
  function Kids(r: Ref, k: nat): (s: seq<Ref>)
    requires k <= |r.node.children|
    decreases |r.node.children| - k
  {
    if k == |r.node.children| then []
    else if r.node.children[k].element then [Ref(r.path + [k], r.node.children[k])] + Kids(r, k + 1)
    else Kids(r, k + 1)
  }

  /** Document order: a node before its children, and the children in turn; only elements are entered and reported. */
  function Pre(r: Ref): (s: seq<Path>)
    decreases r.node, |r.node.children| + 1
  {
    (if r.node.element then [r.path] else []) + PreFrom(r, 0)
  }

  function PreFrom(r: Ref, k: nat): (s: seq<Path>)
    requires k <= |r.node.children|
    decreases r.node, |r.node.children| - k
  {
    if k == |r.node.children| then []
    else if r.node.children[k].element then Pre(Ref(r.path + [k], r.node.children[k])) + PreFrom(r, k + 1)
    else PreFrom(r, k + 1)
  }

  // ---- The stack --------------------------------------------------------------------------------

  /** What is still to be visited: the top of the stack, which is its last entry, first. */
  function Pending(stack: seq<Ref>): (s: seq<Path>) {
    if stack == [] then [] else Pre(stack[|stack| - 1]) + Pending(stack[..|stack| - 1])
  }

  function Reversed(s: seq<Ref>): (r: seq<Ref>)
    ensures |r| == |s|
  {
    if s == [] then [] else Reversed(s[1..]) + [s[0]]
  }

  function Listed(s: seq<Ref>): (r: seq<Path>) { if s == [] then [] else Pre(s[0]) + Listed(s[1..]) }

  lemma {:induction false} PendingReversed(stack: seq<Ref>, s: seq<Ref>)
    ensures Pending(stack + Reversed(s)) == Listed(s) + Pending(stack)
    decreases |s|
  {
    hide Pre;
    if s == [] {
      assert stack + [] == stack;
    } else {
      var t := stack + Reversed(s);
      assert t == (stack + Reversed(s[1..])) + [s[0]];
      assert t[..|t| - 1] == stack + Reversed(s[1..]);
      PendingReversed(stack, s[1..]);
    }
  }

  lemma {:induction false} KidsListed(r: Ref, k: nat)
    requires k <= |r.node.children|
    ensures Listed(Kids(r, k)) == PreFrom(r, k)
    decreases |r.node.children| - k
  {
    hide Pre;
    if k < |r.node.children| {
      KidsListed(r, k + 1);
      if r.node.children[k].element {
        var kid := Ref(r.path + [k], r.node.children[k]);
        assert Kids(r, k)[0] == kid && Kids(r, k)[1..] == Kids(r, k + 1);
      }
    }
  }

  /** The nodes of a subtree, which bound the work that is left. */
  function Size(n: Node): (k: nat)
    ensures k >= 1
    decreases n, |n.children| + 1
  {
    1 + SizeFrom(n, 0)
  }

  function SizeFrom(n: Node, k: nat): (r: nat)
    requires k <= |n.children|
    decreases n, |n.children| - k
  {
    if k == |n.children| then 0 else Size(n.children[k]) + SizeFrom(n, k + 1)
  }

  function Work(stack: seq<Ref>): (k: nat) {
    if stack == [] then 0 else Work(stack[..|stack| - 1]) + Size(stack[|stack| - 1].node)
  }

  function KidWork(s: seq<Ref>): (k: nat) { if s == [] then 0 else Size(s[0].node) + KidWork(s[1..]) }

  lemma {:induction false} WorkReversed(stack: seq<Ref>, s: seq<Ref>)
    ensures Work(stack + Reversed(s)) == Work(stack) + KidWork(s)
    decreases |s|
  {
    hide Size;
    if s == [] {
      assert stack + [] == stack;
    } else {
      var t := stack + Reversed(s);
      assert t == (stack + Reversed(s[1..])) + [s[0]];
      assert t[..|t| - 1] == stack + Reversed(s[1..]);
      WorkReversed(stack, s[1..]);
    }
  }

  lemma {:induction false} KidsAreSmaller(r: Ref, k: nat)
    requires k <= |r.node.children|
    ensures KidWork(Kids(r, k)) <= SizeFrom(r.node, k)
    decreases |r.node.children| - k
  {
    hide Size;
    if k < |r.node.children| {
      KidsAreSmaller(r, k + 1);
      if r.node.children[k].element { assert Kids(r, k)[1..] == Kids(r, k + 1); }
    }
  }

  method PushChildren(stack: seq<Ref>, r: Ref) returns (out: seq<Ref>)
    ensures out == stack + Kids(r, 0)
  {
    out := stack;
    var k := 0;
    while k < |r.node.children|
      invariant 0 <= k <= |r.node.children| && out + Kids(r, k) == stack + Kids(r, 0)
    {
      if r.node.children[k].element { out := out + [Ref(r.path + [k], r.node.children[k])]; }
      k := k + 1;
    }
    assert out + [] == out;
  }

  /** The stack after a turn of the loop. */
  function Next(stack: seq<Ref>): (r: seq<Ref>)
    requires stack != []
  {
    stack[..|stack| - 1] + Reversed(Kids(stack[|stack| - 1], 0))
  }

  lemma TopOf(stack: seq<Ref>)
    requires stack != []
    ensures Pending(stack) == Pre(stack[|stack| - 1]) + Pending(stack[..|stack| - 1])
    ensures Work(stack) == Work(stack[..|stack| - 1]) + Size(stack[|stack| - 1].node)
  {
  }

  /** A turn visits the node on top and leaves the rest of the order. */
  lemma TurnOrder(stack: seq<Ref>)
    requires stack != []
    ensures var r := stack[|stack| - 1];
      Pending(stack) == (if r.node.element then [r.path] else []) + Pending(Next(stack))
  {
    hide Pre, Kids, PreFrom, Listed, Reversed, Pending;
    var r, rest := stack[|stack| - 1], stack[..|stack| - 1];
    TopOf(stack);
    PendingReversed(rest, Kids(r, 0));
    KidsListed(r, 0);
    NodeUnfolds(r);
    Regroup(if r.node.element then [r.path] else [], PreFrom(r, 0), Pending(rest));
  }

  lemma Regroup(a: seq<Path>, b: seq<Path>, c: seq<Path>)
    ensures a + b + c == a + (b + c)
  {
  }

  /** It leaves less work. */
  lemma TurnWork(stack: seq<Ref>)
    requires stack != []
    ensures Work(Next(stack)) < Work(stack)
  {
    hide Size, Kids, SizeFrom, KidWork, Reversed, Work;
    var r, rest := stack[|stack| - 1], stack[..|stack| - 1];
    TopOf(stack);
    WorkReversed(rest, Kids(r, 0));
    KidsAreSmaller(r, 0);
    NodeUnfolds(r);
  }

  /** The visits, in order. */
  method ForEachElement(root: Option<Node>) returns (visited: seq<Path>)
    ensures visited == if root.None? then [] else Pre(Ref([], root.value))
  {
    visited := [];
    if root.None? { return; }
    var start := Ref([], root.value);
    var pending := [start];
    JustOne(start);
    hide Pre, Kids, Pending, Work;
    while pending != []
      invariant visited + Pending(pending) == Pre(start)
      decreases Work(pending)
    {
      var r, rest := pending[|pending| - 1], pending[..|pending| - 1];
      TurnOrder(pending);
      TurnWork(pending);
      if r.node.element { visited := visited + [r.path]; }
      var filled := PushChildren(rest, r);
      assert filled[..|rest|] == rest && filled[|rest|..] == Kids(r, 0);
      pending := filled[..|rest|] + Reversed(filled[|rest|..]);
    }
    NoneLeft();
    assert visited + [] == visited;
  }

  lemma JustOne(r: Ref)
    ensures Pending([r]) == Pre(r)
  {
    hide Pre;
    assert [r][..0] == [] && Pre(r) + [] == Pre(r);
  }

  lemma NoneLeft()
    ensures Pending([]) == []
  {
  }

  lemma NodeUnfolds(r: Ref)
    ensures Pre(r) == (if r.node.element then [r.path] else []) + PreFrom(r, 0)
    ensures Size(r.node) == 1 + SizeFrom(r.node, 0)
  {
  }

  // ---- What that order is -----------------------------------------------------------------------

  /** The path leads to an element, and through elements only, whatever the root is. */
  predicate Reaches(n: Node, p: Path)
    decreases |p|
  {
    if p == [] then n.element
    else p[0] < |n.children| && n.children[p[0]].element && Reaches(n.children[p[0]], p[1..])
  }

  /** Document order of paths: ancestors first, then by the first position that differs. */
  predicate Before(p: Path, q: Path)
    decreases |p|
  {
    q != [] && (p == [] || p[0] < q[0] || (p[0] == q[0] && Before(p[1..], q[1..])))
  }

  predicate Ordered(s: seq<Path>) { forall i, j :: 0 <= i < j < |s| ==> Before(s[i], s[j]) }

  /** A path below a node: the node's own path and the rest of the way. */
  predicate Under(at: Path, p: Path) { |at| <= |p| && p[..|at|] == at }

  lemma {:induction false} PreIsReached(r: Ref, p: Path)
    ensures p in Pre(r) <==> Under(r.path, p) && Reaches(r.node, p[|r.path|..])
    decreases r.node, |r.node.children| + 1
  {
    hide Pre;
    NodeUnfolds(r);
    PreFromIsReached(r, 0, p);
    if Under(r.path, p) {
      var q := p[|r.path|..];
      if q == [] { assert p == r.path; }
    }
  }

  /** The part that lies under the children from the k-th on. */
  predicate ReachesFrom(n: Node, k: nat, q: Path) { q != [] && q[0] >= k && Reaches(n, q) }

  lemma {:induction false} PreFromIsReached(r: Ref, k: nat, p: Path)
    requires k <= |r.node.children|
    ensures p in PreFrom(r, k) <==> Under(r.path, p) && ReachesFrom(r.node, k, p[|r.path|..])
    decreases r.node, |r.node.children| - k
  {
    hide Pre;
    if k < |r.node.children| {
      PreFromIsReached(r, k + 1, p);
      if r.node.children[k].element {
        var kid := Ref(r.path + [k], r.node.children[k]);
        PreIsReached(kid, p);
        UnderKid(r.path, k, p);
      }
    }
  }

  lemma UnderKid(at: Path, k: nat, p: Path)
    ensures Under(at + [k], p) <==> Under(at, p) && |p| > |at| && p[|at|] == k
    ensures Under(at + [k], p) ==> p[|at|..][0] == k && p[|at|..][1..] == p[|at + [k]|..]
  {
    if Under(at, p) && |p| > |at| && p[|at|] == k {
      assert p[..|at| + 1] == p[..|at|] + [p[|at|]];
    }
    if Under(at + [k], p) {
      assert p[..|at|] == p[..|at| + 1][..|at|] == at;
      assert p[|at|] == p[..|at| + 1][|at|] == k;
    }
  }

  lemma UnderStep(at: Path, p: Path)
    requires Under(at, p) && at != []
    ensures p != [] && p[0] == at[0] && Under(at[1..], p[1..]) && p[1..][|at[1..]|..] == p[|at|..]
  {
    assert p[0] == p[..|at|][0];
    assert p[1..][..|at| - 1] == p[..|at|][1..];
  }

  lemma {:induction false} BeforeBelow(at: Path, p: Path, q: Path)
    requires Under(at, p) && Under(at, q) && Before(p[|at|..], q[|at|..])
    ensures Before(p, q)
    decreases |at|
  {
    if at != [] {
      UnderStep(at, p);
      UnderStep(at, q);
      hide Under;
      BeforeBelow(at[1..], p[1..], q[1..]);
    } else {
      assert p[0..] == p && q[0..] == q;
    }
  }

  lemma OrderedJoin(a: seq<Path>, b: seq<Path>)
    requires Ordered(a) && Ordered(b) && forall p, q :: p in a && q in b ==> Before(p, q)
    ensures Ordered(a + b)
  {
    var c := a + b;
    forall i, j | 0 <= i < j < |c| ensures Before(c[i], c[j]) {
      if j < |a| {
        assert Before(a[i], a[j]);
      } else if i >= |a| {
        assert Before(b[i - |a|], b[j - |a|]);
      } else {
        assert c[i] in a && c[j] in b;
      }
    }
  }

  lemma {:induction false} PreIsOrdered(r: Ref)
    ensures Ordered(Pre(r))
    decreases r.node, |r.node.children| + 1
  {
    hide Pre, PreFrom, Ordered, Before;
    PreFromIsOrdered(r, 0);
    NodeUnfolds(r);
    var own := if r.node.element then [r.path] else [];
    OneIsOrdered(own);
    forall p, q | p in own && q in PreFrom(r, 0) ensures Before(p, q) {
      PreFromIsReached(r, 0, q);
      OwnBefore(r.path, q);
    }
    OrderedJoin(own, PreFrom(r, 0));
  }

  lemma OneIsOrdered(s: seq<Path>)
    requires |s| <= 1
    ensures Ordered(s)
  {
  }

  lemma OwnBefore(at: Path, q: Path)
    requires Under(at, q) && q[|at|..] != []
    ensures Before(at, q)
  {
    assert at[..|at|] == at && at[|at|..] == [];
    BeforeBelow(at, at, q);
  }

  lemma KidBefore(at: Path, k: nat, p: Path, q: Path)
    requires Under(at + [k], p) && Under(at, q) && q[|at|..] != [] && q[|at|..][0] >= k + 1
    ensures Before(p, q)
  {
    UnderKid(at, k, p);
    BeforeBelow(at, p, q);
  }

  lemma {:induction false} PreFromIsOrdered(r: Ref, k: nat)
    requires k <= |r.node.children|
    ensures Ordered(PreFrom(r, k))
    decreases r.node, |r.node.children| - k
  {
    hide Pre, Ordered, Before;
    if k == |r.node.children| {
      OneIsOrdered([]);
    } else {
      PreFromIsOrdered(r, k + 1);
      if r.node.children[k].element {
        var kid := Ref(r.path + [k], r.node.children[k]);
        PreIsOrdered(kid);
        forall p, q | p in Pre(kid) && q in PreFrom(r, k + 1) ensures Before(p, q) {
          PreIsReached(kid, p);
          PreFromIsReached(r, k + 1, q);
          KidBefore(r.path, k, p, q);
        }
        OrderedJoin(Pre(kid), PreFrom(r, k + 1));
      }
    }
  }

  lemma {:induction false} BeforeIsStrict(p: Path)
    ensures !Before(p, p)
  {
    if p != [] { BeforeIsStrict(p[1..]); }
  }

  /** The walk visits the elements that can be reached, all of them, in document order, and none twice. */
  lemma WalkIsDocumentOrder(root: Node)
    ensures forall p :: p in Pre(Ref([], root)) <==> Reaches(root, p)
    ensures Ordered(Pre(Ref([], root)))
    ensures var s := Pre(Ref([], root)); forall i, j :: 0 <= i < j < |s| ==> s[i] != s[j]
  {
    hide Pre, Before;
    var r := Ref([], root);
    forall p ensures p in Pre(r) <==> Reaches(root, p) {
      PreIsReached(r, p);
      assert p[0..] == p;
    }
    PreIsOrdered(r);
    var s := Pre(r);
    forall i, j | 0 <= i < j < |s| ensures s[i] != s[j] { BeforeIsStrict(s[i]); }
  }
}
