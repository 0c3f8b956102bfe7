/**
 * `flatten(nestedArray, childProp, flatArray)`: pushes every node of a forest
 * onto an accumulator in pre-order. The nodes pushed are the node objects
 * themselves, children included. A missing child array and an empty one behave
 * the same (`?.length` is falsy for both), so both are an empty `children`.
 */
module Flatten {

  datatype Node<T> = Node(item: T, children: seq<Node<T>>)

  /** Total number of nodes in a forest. */
  function Count<T>(forest: seq<Node<T>>): nat
    decreases forest
  {
    if forest == [] then 0 else 1 + Count(forest[0].children) + Count(forest[1..])
  }

  /** Reference pre-order: a node, then its descendants, then its later siblings. */
  function Preorder<T>(forest: seq<Node<T>>): seq<Node<T>>
    decreases forest
  {
    if forest == [] then [] else [forest[0]] + Preorder(forest[0].children) + Preorder(forest[1..])
  }

  /** The recursive accumulator-passing definition, as the source writes it. */
  function Flatten<T>(forest: seq<Node<T>>, acc: seq<Node<T>>): (r: seq<Node<T>>)
    ensures r == acc + Preorder(forest)
    decreases forest
  {
    if |forest| == 0 then acc
    else
      var first := forest[0];
      var afterFirst := acc + [first];
      var afterChildren := if |first.children| > 0 then Flatten(first.children, afterFirst) else afterFirst;
      Flatten(forest[1..], afterChildren)
  }

  /** An empty forest leaves the accumulator as it was. */
  lemma EmptyForest<T>(acc: seq<Node<T>>)
    ensures Flatten([], acc) == acc
  {
  }

  /** The prior accumulator is a prefix of the result, and the length grows by the node count. */
  lemma {:induction false} PrefixAndLength<T>(forest: seq<Node<T>>, acc: seq<Node<T>>)
    ensures acc <= Flatten(forest, acc)
    ensures |Flatten(forest, acc)| == |acc| + Count(forest)
  {
    PreorderLength(forest);
  }

  lemma {:induction false} PreorderLength<T>(forest: seq<Node<T>>)
    ensures |Preorder(forest)| == Count(forest)
    decreases forest
  {
    if forest != [] {
      PreorderLength(forest[0].children);
      PreorderLength(forest[1..]);
    }
  }

  /** A leaf contributes itself only, right before its later siblings. */
  lemma Leaf<T>(leaf: Node<T>, rest: seq<Node<T>>, acc: seq<Node<T>>)
    requires leaf.children == []
    ensures Flatten([leaf] + rest, acc) == Flatten(rest, acc + [leaf])
  {
    assert ([leaf] + rest)[1..] == rest;
  }

  lemma SliceLeft<T>(a: seq<T>, b: seq<T>, lo: nat, hi: nat)
    requires lo <= hi <= |a|
    ensures (a + b)[lo..hi] == a[lo..hi]
  {
  }

  lemma SliceRight<T>(a: seq<T>, b: seq<T>, lo: nat, hi: nat)
    requires |a| <= lo <= hi <= |a| + |b|
    ensures (a + b)[lo..hi] == b[lo - |a|..hi - |a|]
  {
  }

  /** The descendants of the node at `i` of `p` follow it immediately. */
  ghost predicate SubtreeAt<T>(p: seq<Node<T>>, i: nat)
    requires i < |p|
  {
    && i + 1 + |Preorder(p[i].children)| <= |p|
    && p[i + 1..i + 1 + |Preorder(p[i].children)|] == Preorder(p[i].children)
  }

  lemma SubtreeInFront<T>(head: seq<Node<T>>, later: seq<Node<T>>, i: nat)
    requires i < |head| && SubtreeAt(head, i)
    ensures SubtreeAt(head + later, i)
  {
    var n := |Preorder(head[i].children)|;
    SliceLeft(head, later, i + 1, i + 1 + n);
  }

  lemma SubtreeBehind<T>(front: seq<Node<T>>, p: seq<Node<T>>, j: nat)
    requires j < |p| && SubtreeAt(p, j)
    ensures SubtreeAt(front + p, |front| + j)
  {
    var n := |Preorder(p[j].children)|;
    SliceRight(front, p, |front| + j + 1, |front| + j + 1 + n);
  }

  lemma PreorderCons<T>(forest: seq<Node<T>>)
    requires forest != []
    ensures Preorder(forest) == ([forest[0]] + Preorder(forest[0].children)) + Preorder(forest[1..])
  {
  }

  /** Within `[first] + Preorder(first.children)`, the subtree of the node at `i` follows it. */
  lemma HeadSubtree<T>(first: Node<T>, i: nat)
    requires i < 1 + |Preorder(first.children)|
    requires i > 0 ==> SubtreeAt(Preorder(first.children), i - 1)
    ensures SubtreeAt([first] + Preorder(first.children), i)
  {
    var kids := Preorder(first.children);
    if i == 0 {
      assert ([first] + kids)[1..1 + |kids|] == kids;
    } else {
      SubtreeBehind([first], kids, i - 1);
    }
  }

  /**
   * Pre-order, for every node: the nodes right after position `i` are exactly
   * the descendants of the node at `i`, in pre-order. So a node precedes its
   * descendants, and they all precede its later siblings.
   */
  lemma {:induction false} PreorderSubtrees<T>(forest: seq<Node<T>>, i: nat)
    requires i < |Preorder(forest)|
    ensures SubtreeAt(Preorder(forest), i)
    decreases forest
  {
    PreorderCons(forest);
    var head := [forest[0]] + Preorder(forest[0].children);
    var later := Preorder(forest[1..]);
    if i < |head| {
      if i > 0 {
        PreorderSubtrees(forest[0].children, i - 1);
      }
      HeadSubtree(forest[0], i);
      SubtreeInFront(head, later, i);
    } else {
      PreorderSubtrees(forest[1..], i - |head|);
      SubtreeBehind(head, later, i - |head|);
    }
  }

  /** The same ordering, read off the accumulator-passing definition. */
  lemma FlattenSubtrees<T>(forest: seq<Node<T>>, acc: seq<Node<T>>, i: nat)
    requires |acc| <= i < |Flatten(forest, acc)|
    ensures SubtreeAt(Flatten(forest, acc), i)
  {
    var p := Preorder(forest);
    assert Flatten(forest, acc) == acc + p;
    PreorderSubtrees(forest, i - |acc|);
    SubtreeBehind(acc, p, i - |acc|);
  }
}
