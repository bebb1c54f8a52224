/**
 * The part of a scene that the auto-assign button searches: a GameObject, the
 * GameObjects of its child transforms in sibling order, and the components
 * attached to them.
 */
module Hierarchy {

  /** A GameObject with its instance id, its name and its children in transform order. */
  datatype GameObject = GameObject(instanceId: int, name: string, children: seq<GameObject>)

  /** A component; only the GameObject it is attached to matters to the matcher. */
  datatype Component = Component(instanceId: int, typeName: string, gameObject: GameObject)

  /** `t` followed by everything below it, depth-first: each child, then that child's subtree. */
  function PreOrder(t: GameObject): (r: seq<GameObject>)
    decreases t
  {
    [t] + PreOrderAll(t.children)
  }

  /** The pre-order walks of the sibling subtrees `ts`, one after the other. */
  function PreOrderAll(ts: seq<GameObject>): (r: seq<GameObject>)
    decreases ts
  {
    if ts == [] then [] else PreOrder(ts[0]) + PreOrderAll(ts[1..])
  }

  /** The number of GameObjects in the subtree rooted at `t`, itself included. */
  function Size(t: GameObject): (n: nat)
    decreases t
  {
    1 + SizeAll(t.children)
  }

  function SizeAll(ts: seq<GameObject>): (n: nat)
    decreases ts
  {
    if ts == [] then 0 else Size(ts[0]) + SizeAll(ts[1..])
  }

  /** `d` is a child of `t`, or lies below one of them. */
  predicate IsDescendant(d: GameObject, t: GameObject)
    decreases t
  {
    exists i :: 0 <= i < |t.children| && (t.children[i] == d || IsDescendant(d, t.children[i]))
  }

  /** The walk of two runs of siblings is the walk of the first followed by that of the second. */
  lemma {:induction false} PreOrderAllAppend(xs: seq<GameObject>, ys: seq<GameObject>)
    ensures PreOrderAll(xs + ys) == PreOrderAll(xs) + PreOrderAll(ys)
  {
    if xs == [] {
      assert xs + ys == ys;
    } else {
      assert (xs + ys)[0] == xs[0];
      assert (xs + ys)[1..] == xs[1..] + ys;
      PreOrderAllAppend(xs[1..], ys);
    }
  }

  /** Walking one more sibling appends that sibling and then its own subtree. */
  lemma {:induction false} PreOrderAllSnoc(ts: seq<GameObject>, t: GameObject)
    ensures PreOrderAll(ts + [t]) == PreOrderAll(ts) + [t] + PreOrderAll(t.children)
  {
    PreOrderAllAppend(ts, [t]);
    assert [t][1..] == [];
    assert PreOrderAll([t]) == PreOrder(t);
  }

  /**
   * Child `i`'s subtree is one contiguous block of the walk, preceded by the
   * subtrees of the earlier siblings and followed by those of the later ones.
   */
  lemma {:induction false} ChildBlock(ts: seq<GameObject>, i: nat)
    requires i < |ts|
    ensures PreOrderAll(ts) == PreOrderAll(ts[..i]) + PreOrder(ts[i]) + PreOrderAll(ts[i + 1..])
  {
    var rest := [ts[i]] + ts[i + 1..];
    assert ts == ts[..i] + rest;
    PreOrderAllAppend(ts[..i], rest);
    assert rest[0] == ts[i] && rest[1..] == ts[i + 1..];
    assert PreOrderAll(rest) == PreOrder(ts[i]) + PreOrderAll(ts[i + 1..]);
  }

  /** The walk lists every GameObject of the subtree exactly once in length: 1 + the number of descendants. */
  lemma {:induction false} PreOrderLength(t: GameObject)
    ensures |PreOrder(t)| == Size(t)
    decreases t
  {
    PreOrderAllLength(t.children);
  }

  lemma {:induction false} PreOrderAllLength(ts: seq<GameObject>)
    ensures |PreOrderAll(ts)| == SizeAll(ts)
    decreases ts
  {
    if ts != [] {
      PreOrderLength(ts[0]);
      PreOrderAllLength(ts[1..]);
    }
  }

  /** What the walk from `t` lists is exactly `t` and its descendants. */
  lemma {:induction false} PreOrderMembers(x: GameObject, t: GameObject)
    ensures x in PreOrder(t) <==> x == t || IsDescendant(x, t)
    decreases t
  {
    PreOrderAllMembers(x, t.children);
  }

  lemma {:induction false} PreOrderAllMembers(x: GameObject, ts: seq<GameObject>)
    ensures x in PreOrderAll(ts) <==> exists i :: 0 <= i < |ts| && (ts[i] == x || IsDescendant(x, ts[i]))
    decreases ts
  {
    if ts != [] {
      PreOrderMembers(x, ts[0]);
      PreOrderAllMembers(x, ts[1..]);
      if x in PreOrderAll(ts[1..]) {
        var i :| 0 <= i < |ts[1..]| && (ts[1..][i] == x || IsDescendant(x, ts[1..][i]));
        assert ts[i + 1] == ts[1..][i];
      }
      if exists i :: 0 <= i < |ts| && (ts[i] == x || IsDescendant(x, ts[i])) {
        var i :| 0 <= i < |ts| && (ts[i] == x || IsDescendant(x, ts[i]));
        if i > 0 {
          assert ts[1..][i - 1] == ts[i];
        }
      }
    }
  }
}
