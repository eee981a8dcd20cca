/** The radix tree of `radix_tree.c`, which refines a finite map from indices to leaves. */
module Radix {
  import opened RadixModel

  datatype Status = Ok | Alloc | Exist

  const MAX_HEIGHT := 5   // covers the indices below 2^30

  class RadixTree {
    var height: int
    var root: int
    var nodes: map<int, Node>
    /** The addresses the node allocator will hand out. */
    var spare: seq<int>
    ghost var info: Info

    ghost function T(): Tree
      reads this
    {
      Tree(height, root, nodes)
    }

    ghost predicate Valid()
      reads this
    {
      && Wf(T(), info) && height <= MAX_HEIGHT
      && (forall i :: 0 <= i < |spare| ==> spare[i] != 0 && spare[i] !in nodes)
      && (forall i, j :: 0 <= i < j < |spare| ==> spare[i] != spare[j])
    }

    /** Both trees stand for the same map. */
    ghost predicate Same(t: Tree)
      reads this
    {
      forall w :: Get(T(), w) == Get(t, w)
    }

    constructor (supply: seq<int>)
      requires (forall i :: 0 <= i < |supply| ==> supply[i] != 0)
      requires (forall i, j :: 0 <= i < j < |supply| ==> supply[i] != supply[j])
      ensures Valid() && spare == supply && forall w :: Get(T(), w) == 0
    {
      height, root, nodes, spare, info := 0, 0, map[], supply, map[];
    }

    /** radix_tree_max_index. */
    function MaxIndex(): (m: int)
      requires 0 <= height <= MAX_HEIGHT
      reads this
      ensures m == if height == 0 then -1 else Cap(height) - 1
    {
      if height == 0 then -1
      else (if height == 1 then 0x40 else if height == 2 then 0x1000 else if height == 3 then 0x4_0000
            else if height == 4 then 0x100_0000 else 0x4000_0000) - 1
    }

    /** radix_tree_add_level. */
    method AddLevel() returns (ok: bool)
      requires Valid() && height < MAX_HEIGHT
      modifies this
      ensures Valid() && Same(old(T())) && height == old(height) + (if ok then 1 else 0)
      ensures !ok ==> spare == []
    {
      if spare == [] {
        return false;
      }
      var c := spare[0];
      ghost var t := T();
      RootWf(t, info, c);
      forall w ensures Get(WithRoot(t, c), w) == Get(t, w) { RootGet(t, info, c, w); }
      spare := spare[1..];
      if root != 0 {
        nodes := nodes[root := nodes[root].(parent := c)][c := Node(1, 0, Empty()[0 := root])];
      } else {
        nodes := nodes[c := Node(0, 0, Empty())];
      }
      info := info[c := Place(height, 0)];
      root := c;
      height := height + 1;
      ok := true;
    }

    /** A new node in an empty slot, or none if the allocator has none. */
    method AddNode(m: int, i: int) returns (c: int)
      requires Valid() && m in nodes && info[m].level > 0 && 0 <= i < WIDTH && |nodes[m].slots| == WIDTH
      requires nodes[m].slots[i] == 0
      modifies this`nodes, this`spare, this`info
      ensures Valid() && Same(old(T()))
      ensures c == 0 ==> spare == []
      ensures c != 0 ==> c in nodes && info == ChildInfo(old(info), m, i, c) && c !in old(info)
    {
      if spare == [] {
        return 0;
      }
      c := spare[0];
      ghost var t := T();
      ChildWf(t, info, m, i, c);
      forall w
        ensures Get(WithChild(t, m, i, c, t.nodes[m].count + 1), w) == Get(t, w)
      {
        ChildGet(t, info, m, i, c, w);
      }
      spare := spare[1..];
      nodes := nodes[m := Node(nodes[m].count + 1, nodes[m].parent, nodes[m].slots[i := c])][c := Node(0, m, Empty())];
      info := ChildInfo(info, m, i, c);
    }

    /** One step down the way to a key. */
    method Descend(index: int, node: int, level: int, alloc: bool) returns (child: int)
      requires Valid() && index >= 0 && 0 < level < height
      requires node in nodes && info[node] == Place(level, Shift(index % Cap(height), level + 1))
      modifies this`nodes, this`spare, this`info
      ensures Valid() && Same(old(T())) && (!alloc ==> nodes == old(nodes) && info == old(info) && spare == old(spare))
      ensures child != 0 ==> child in nodes && info[child] == Place(level - 1, Shift(index % Cap(height), level))
      ensures child == 0 ==> Get(T(), index % Cap(height)) == 0 && (alloc ==> spare == [])
    {
      ghost var key := index % Cap(height);
      assert NodeOk(T(), info, node);
      assert 0 in nodes ==> NodeOk(T(), info, 0);
      DigitMod(index, height, level);
      PathStep(T(), info, node, key);
      Reaches(T(), info, node, key);
      ShiftNext(key, level);
      var i := Digit(index, level);
      child := nodes[node].slots[i];
      if child == 0 && alloc {
        child := AddNode(node, i);
      }
    }

    /**
    radix_tree_find_parent: the lowest node on the way to an index. Only the digits below the
    height of the tree count, so it is the way to the index modulo the size of the tree.
     */
    method FindParent(index: int, alloc: bool) returns (node: int)
      requires Valid() && index >= 0
      modifies this`nodes, this`spare, this`info
      ensures Valid() && Same(old(T())) && (!alloc ==> nodes == old(nodes) && info == old(info) && spare == old(spare))
      ensures node != 0 ==> node in nodes && info[node] == Place(0, Shift(index % Cap(height), 1))
      ensures node == 0 ==> Get(T(), index % Cap(height)) == 0 && (alloc && height > 0 ==> spare == [])
    {
      ghost var key := index % Cap(height);
      var level := height - 1;
      node := root;
      ShiftCap(key, height);
      while level > 0 && node != 0
        invariant Valid() && Same(old(T()))
        invariant (!alloc ==> nodes == old(nodes) && info == old(info) && spare == old(spare))
        invariant -1 <= level < height && (height > 0 ==> level >= 0) && (node != 0 ==> level >= 0)
        invariant node != 0 ==> node in nodes && info[node] == Place(level, Shift(key, level + 1))
        invariant node == 0 ==> Get(T(), key) == 0 && (alloc && height > 0 ==> spare == [])
      {
        var child := Descend(index, node, level, alloc);
        level, node := level - 1, child;
      }
    }

    /** radix_tree_lookup. */
    method Lookup(index: int) returns (leaf: int)
      requires Valid() && index >= 0
      modifies this`nodes, this`spare, this`info
      ensures nodes == old(nodes) && info == old(info) && spare == old(spare)
      ensures leaf == Get(T(), index)
    {
      if index > MaxIndex() {
        return 0;
      }
      InRange(index);
      var node := FindParent(index, false);
      if node == 0 {
        return 0;
      }
      leaf := Leaf(node, index);
    }

    lemma InRange(index: int)
      requires 0 <= index < Cap(height)
      ensures index % Cap(height) == index
    {
    }

    /** The slot of the lowest node holds what the map has. */
    method Leaf(node: int, index: int) returns (leaf: int)
      requires Valid() && index >= 0 && height > 0 && node in nodes
      requires info[node] == Place(0, Shift(index % Cap(height), 1))
      ensures |nodes[node].slots| == WIDTH
      ensures leaf == nodes[node].slots[Digit(index, 0)] == Get(T(), index % Cap(height))
    {
      assert NodeOk(T(), info, node);
      DigitMod(index, height, 0);
      Reaches(T(), info, node, index % Cap(height));
      leaf := nodes[node].slots[Digit(index, 0)];
    }

    /**
    radix_tree_insert. An absent index is added, and no other entry changes; a present one is
    reported, and nothing changes; when the allocator has no node left, nothing changes.
     */
    method Insert(index: int, leaf: int) returns (status: Status)
      requires Valid() && 0 <= index < Cap(MAX_HEIGHT) && leaf != 0
      modifies this
      ensures Valid()
      ensures status == Ok ==>
        old(Get(T(), index)) == 0 && forall w :: Get(T(), w) == if w == index then leaf else old(Get(T(), w))
      ensures status == Exist ==> old(Get(T(), index)) != 0 && Same(old(T()))
      ensures status == Alloc ==> spare == [] && Same(old(T()))
    {
      while index > MaxIndex()
        invariant Valid() && Same(old(T()))
        decreases MAX_HEIGHT - height
      {
        assert height < MAX_HEIGHT;
        var ok := AddLevel();
        if !ok {
          return Alloc;
        }
      }
      InRange(index);
      var node := FindParent(index, true);
      if node == 0 {
        return Alloc;
      }
      var present := Leaf(node, index);
      if present != 0 {
        return Exist;
      }
      SetLeaf(node, index, leaf);
      status := Ok;
    }

    /** radix_tree_add_child of a leaf in an empty slot. Its bound on the count holds. */
    method SetLeaf(node: int, index: int, leaf: int)
      requires Valid() && 0 <= index < Cap(height) && leaf != 0 && node in nodes
      requires info[node] == Place(0, Shift(index, 1))
      requires |nodes[node].slots| == WIDTH && nodes[node].slots[Digit(index, 0)] == 0
      modifies this`nodes
      ensures Valid() && nodes[node].count <= WIDTH
      ensures forall w :: Get(T(), w) == if w == index then leaf else old(Get(T(), w))
    {
      var i := Digit(index, 0);
      ghost var t := T();
      assert NodeOk(t, info, node);
      FilledUpdate(nodes[node].slots, i, leaf);
      assert index == WIDTH * info[node].prefix + i by { ShiftNext(index, 0); assert Shift(index, 0) == index; }
      LeafWf(t, info, node, i, leaf, nodes[node].count + 1);
      ghost var t' := WithSlot(t, node, i, leaf, t.nodes[node].count + 1);
      forall w ensures Get(t', w) == if w == index then leaf else Get(t, w) {
        LeafGet(t, info, node, i, leaf, t.nodes[node].count + 1, w);
      }
      nodes := nodes[node := Node(nodes[node].count + 1, nodes[node].parent, nodes[node].slots[i := leaf])];
      assert T() == t';
    }

    /** The nodes freed had nothing left below them. */
    ghost predicate FreedEmpty(t0: Tree, info0: Info, key: int)
      reads this
    {
      forall n, w ::
        && n in t0.nodes && n !in nodes && n in info0 && info0[n].level >= 0
        && w >= 0 && w != key && Below(info0, n, w) ==>
        Get(t0, w) == 0
    }

    /**
    The loop body of radix_tree_remove: the slot is emptied, and the node freed if that was
    its last. Its assertions are part of the precondition. The result is the next node up.
     */
    method ClearSlot(node: int, index: int, level: int, ghost t0: Tree,
                     ghost info0: Info) returns (done: bool, parent: int)
      requires index >= 0 && 0 <= level < height <= MAX_HEIGHT && nodes.Keys <= info0.Keys && info.Keys <= info0.Keys
      requires Pending(t0, T(), info, index % Cap(height), node, level, Digit(index, level))
      requires (forall n :: n in info ==> info[n] == info0[n]) && FreedEmpty(t0, info0, index % Cap(height))
      requires root != 0
      modifies this`nodes, this`info
      ensures nodes.Keys <= old(nodes.Keys) && info.Keys <= old(info.Keys) && forall n :: n in info ==>
        info[n] == info0[n]
      ensures FreedEmpty(t0, info0, index % Cap(height))
      ensures done ==> Wf(T(), info) && Removed(t0, T(), index % Cap(height))
      ensures !done && level + 1 < height ==>
        Pending(t0, T(), info, index % Cap(height), parent, level + 1, Digit(index, level + 1))
      ensures !done && level + 1 == height ==>
        parent == 0 && Wf(Tree(0, 0, nodes), info) && Removed(t0, Tree(0, 0, nodes), index % Cap(height))
    {
      ghost var key := index % Cap(height);
      var i := Digit(index, level);
      assert nodes[node].count > 0 by { FilledZero(nodes[node].slots); }
      nodes := nodes[node := Node(nodes[node].count - 1, nodes[node].parent, nodes[node].slots[i := 0])];
      assert NodeOk(T(), info, node);
      if nodes[node].count != 0 {
        return true, 0;
      }
      FilledZero(nodes[node].slots);
      parent := nodes[node].parent;
      FreeNode(node, index, level, t0, info0);
      done := false;
    }

    /** An empty node is freed. */
    method FreeNode(node: int, index: int, level: int, ghost t0: Tree, ghost info0: Info)
      requires index >= 0 && 0 <= level < height && root != 0 && Wf(T(), info) && Removed(t0, T(), index % Cap(height))
      requires node in nodes && IsEmpty(T(), node) && info[node] == Place(level, Shift(index % Cap(height), level + 1))
      requires node in info0 && info0[node] == info[node] && FreedEmpty(t0, info0, index % Cap(height))
      modifies this`nodes, this`info
      ensures nodes == old(nodes) - {node} && info == old(info) - {node}
      ensures FreedEmpty(t0, info0, index % Cap(height))
      ensures level + 1 < height ==>
        Pending(t0, T(), info, index % Cap(height), old(nodes[node].parent), level + 1, Digit(index, level + 1))
      ensures level + 1 == height ==> old(nodes[node].parent) == 0 && Wf(Tree(0, 0, nodes), info)
      ensures level + 1 == height ==> Removed(t0, Tree(0, 0, nodes), index % Cap(height))
    {
      ghost var key := index % Cap(height);
      EmptyFreed(t0, info0, key, node);
      ghost var t := T();
      if node == root {
        PruneRoot(t, info);
        RootLevel(node, level);
      } else {
        PendingUp(t0, t, info, key, node, level);
        DigitMod(index, height, level + 1);
      }
      nodes := nodes - {node};
      info := info - {node};
      assert T() == Delete(t, node);
    }

    lemma RootLevel(node: int, level: int)
      requires Wf(T(), info) && node == root && root != 0 && info[node].level == level
      ensures level + 1 == height && nodes[node].parent == 0
    {
      assert NodeOk(T(), info, node);
    }

    lemma EmptyFreed(t0: Tree, info0: Info, key: int, node: int)
      requires Wf(T(), info) && Removed(t0, T(), key) && node in nodes && node in info0 && info[node] == info0[node]
      requires IsEmpty(T(), node)
      ensures forall w :: w >= 0 && w != key && info0[node].level >= 0 && Below(info0, node, w) ==> Get(t0, w) == 0
    {
      forall w | w >= 0 && w != key && info0[node].level >= 0 && Below(info0, node, w) ensures Get(t0, w) == 0 {
        EmptyBelow(T(), info, node, w);
      }
    }

    /**
    radix_tree_remove. The entry at the index modulo the size of the tree is taken out, and no
    other; nodes are freed only when nothing is left below them, and the tree stays well-formed.
     */
    method Remove(index: int) returns (leaf: int)
      requires Valid() && index >= 0
      modifies this
      ensures Valid() && leaf == old(Get(T(), index % Cap(height)))
      ensures leaf == 0 ==> nodes == old(nodes) && root == old(root) && height == old(height)
      ensures leaf != 0 ==> Removed(old(T()), T(), old(index % Cap(height)))
      ensures nodes.Keys <= old(nodes.Keys) && FreedEmpty(old(T()), old(info), old(index % Cap(height)))
    {
      var node := FindParent(index, false);
      if node == 0 {
        return 0;
      }
      assert NodeOk(T(), info, node);
      leaf := Leaf(node, index);
      if leaf == 0 {
        return 0;
      }
      DigitMod(index, height, 0);
      PendingLeaf(T(), info, index % Cap(height), node);
      Prune(node, index, T(), info);
    }

    /** The loop of radix_tree_remove, and the end of the last node. */
    method Prune(first: int, index: int, ghost t0: Tree, ghost info0: Info)
      requires index >= 0 && 0 < height <= MAX_HEIGHT && root != 0 && t0 == T() && info0 == info
      requires info.Keys == nodes.Keys
      requires Pending(t0, T(), info, index % Cap(height), first, 0, Digit(index, 0))
      modifies this`nodes, this`info, this`root, this`height
      ensures Wf(T(), info) && height <= MAX_HEIGHT && Removed(t0, T(), index % Cap(old(height)))
      ensures nodes.Keys <= old(nodes.Keys) && FreedEmpty(t0, info0, index % Cap(old(height)))
    {
      hide Pending;
      hide Wf;
      hide Removed;
      hide Cap;
      var node, level := first, 0;
      while level < height
        invariant 0 <= level <= height && height == old(height) && root == old(root)
        invariant nodes.Keys <= info0.Keys && info.Keys <= info0.Keys && (forall n :: n in info ==> info[n] == info0[n])
        invariant FreedEmpty(t0, info0, index % Cap(height))
        invariant level < height ==> Pending(t0, T(), info, index % Cap(height), node, level, Digit(index, level))
        invariant level == height ==>
          node == 0 && Wf(Tree(0, 0, nodes), info) && Removed(t0, Tree(0, 0, nodes), index % Cap(height))
      {
        var done, parent := ClearSlot(node, index, level, t0, info0);
        if done {
          return;
        }
        level, node := level + 1, parent;
      }
      root := 0;
      height := 0;
    }
  }

  /**
  What a caller means by removing an index is that its entry goes and every other stays. For an
  index beyond the tree this holds exactly if the entry it is mistaken for is absent.
   */
  lemma RemoveMeant(t0: Tree, t: Tree, index: int)
    requires index >= 0 && t0.height >= 0
    requires if Get(t0, index % Cap(t0.height)) == 0 then t == t0 else Removed(t0, t, index % Cap(t0.height))
    ensures Removed(t0, t, index) <==> index < Cap(t0.height) || Get(t0, index % Cap(t0.height)) == 0
  {
    var key := index % Cap(t0.height);
    if index >= Cap(t0.height) {
      assert key != index && Get(t0, index) == 0;
      if Get(t0, key) != 0 { assert Get(t, key) == 0; }
    } else {
      assert key == index;
    }
  }

  /** A tree with only entry 0: removing index 64 takes that entry out. */
  lemma RemoveAliases(t0: Tree, info: Info, n: int, leaf: int)
    requires leaf != 0 && n != 0 && t0 == Tree(1, n, map[n := Node(1, 0, Empty()[0 := leaf])])
    requires info == map[n := Place(0, 0)]
    ensures Wf(t0, info) && Get(t0, 64) == 0 && Get(t0, 64 % Cap(1)) == leaf
  {
    FilledUpdate(Empty(), 0, leaf);
    FilledZero(Empty());
    assert Cap(1) == WIDTH * Cap(0) && Shift(0, 0) == 0;
    forall y | y in t0.nodes ensures NodeOk(t0, info, y) {
      forall j | 0 <= j < WIDTH ensures ChildOk(t0, info, y, j) {}
    }
    assert Walk(t0, n, 0, 0) == leaf;
  }
}
