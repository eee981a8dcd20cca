/**
Radix trees of width 64: nodes that point to each other by address, and the finite map they
stand for. Each node knows, in ghost state, its level and the digits that lead to it.
 */
module RadixModel {
  import opened Arithmetic

  const WIDTH := 64

  datatype Node = Node(count: int, parent: int, slots: seq<int>)

  datatype Tree = Tree(height: int, root: int, nodes: map<int, Node>)

  /** The indices below a node of this place: those with Shift(index, level + 1) == prefix. */
  datatype Place = Place(level: int, prefix: int)

  type Info = map<int, Place>

  // ---------------------------------------------------------------- digits

  function Shift(w: int, l: int): int
    requires l >= 0
    decreases l
  {
    if l == 0 then w else Shift(w / WIDTH, l - 1)
  }

  /** radix_tree_level_index. */
  function Digit(w: int, l: int): (d: int)
    requires l >= 0
    ensures 0 <= d < WIDTH
  {
    Shift(w, l) % WIDTH
  }

  /** The number of indices a tree of this height covers. */
  function Cap(h: int): (c: int)
    ensures c > 0
    decreases h
  {
    if h <= 0 then 1 else WIDTH * Cap(h - 1)
  }

  lemma {:induction false} ShiftNext(w: int, l: int)
    requires l >= 0
    ensures Shift(w, l + 1) == Shift(w, l) / WIDTH
    ensures Shift(w, l) == WIDTH * Shift(w, l + 1) + Digit(w, l)
    decreases l
  {
    if l > 0 { ShiftNext(w / WIDTH, l - 1); }
  }

  lemma {:induction false} ShiftCap(w: int, h: int)
    requires 0 <= w && h >= 0
    ensures Shift(w, h) == 0 <==> w < Cap(h)
    ensures Shift(w, h) >= 0
    decreases h
  {
    if h > 0 { ShiftCap(w / WIDTH, h - 1); }
  }

  /** Only the digits below the height matter. */
  lemma {:induction false} DigitMod(w: int, h: int, l: int)
    requires 0 <= w && 0 <= l < h
    ensures Digit(w % Cap(h), l) == Digit(w, l)
    decreases h
  {
    DropLow(w, WIDTH, Cap(h - 1));
    if l > 0 { DigitMod(w / WIDTH, h - 1, l - 1); }
  }

  // ---------------------------------------------------------------- filled slots

  function Filled(s: seq<int>): (n: int)
    ensures 0 <= n <= |s|
  {
    if s == [] then 0 else Filled(s[..|s| - 1]) + if s[|s| - 1] != 0 then 1 else 0
  }

  lemma {:induction false} FilledUpdate(s: seq<int>, i: int, v: int)
    requires 0 <= i < |s|
    ensures Filled(s[i := v]) == Filled(s) - (if s[i] != 0 then 1 else 0) + (if v != 0 then 1 else 0)
    decreases |s|
  {
    var n := |s| - 1;
    if i == n {
      assert s[i := v][..n] == s[..n];
    } else {
      FilledUpdate(s[..n], i, v);
      assert s[i := v][..n] == s[..n][i := v];
    }
  }

  lemma {:induction false} FilledZero(s: seq<int>)
    ensures Filled(s) == 0 <==> forall i :: 0 <= i < |s| ==> s[i] == 0
    decreases |s|
  {
    if s != [] {
      FilledZero(s[..|s| - 1]);
      assert forall i :: 0 <= i < |s| - 1 ==> s[..|s| - 1][i] == s[i];
    }
  }

  // ---------------------------------------------------------------- well-formed trees

  ghost predicate ChildOk(t: Tree, info: Info, n: int, i: int)
    requires n in t.nodes && n in info && |t.nodes[n].slots| == WIDTH && 0 <= i < WIDTH
  {
    var c := t.nodes[n].slots[i];
    c != 0 && info[n].level > 0 ==>
      c in t.nodes && c in info && info[c] == Place(info[n].level - 1, WIDTH * info[n].prefix + i) &&
      t.nodes[c].parent == n
  }

  /** A node hangs where its digits say. */
  ghost predicate ParentOk(t: Tree, info: Info, n: int)
    requires n in t.nodes && n in info
  {
    var p := t.nodes[n].parent;
    if n == t.root then p == 0
    else p in t.nodes && p in info && info[p] == Place(info[n].level + 1, info[n].prefix / WIDTH)
         && |t.nodes[p].slots| == WIDTH && t.nodes[p].slots[info[n].prefix % WIDTH] == n
  }

  ghost predicate NodeOk(t: Tree, info: Info, n: int)
    requires n in t.nodes && n in info
  {
    && n != 0 && |t.nodes[n].slots| == WIDTH && t.nodes[n].count == Filled(t.nodes[n].slots)
    && 0 <= info[n].level < t.height && 0 <= info[n].prefix
    && (forall i {:trigger ChildOk(t, info, n, i)} :: 0 <= i < WIDTH ==> ChildOk(t, info, n, i))
    && ParentOk(t, info, n)
  }

  ghost predicate Wf(t: Tree, info: Info) {
    && info.Keys == t.nodes.Keys && t.height >= 0 && (t.height == 0 <==> t.root == 0)
    && (t.root != 0 ==> t.root in t.nodes && info[t.root] == Place(t.height - 1, 0))
    && (forall n {:trigger NodeOk(t, info, n)} :: n in t.nodes ==> n in info && NodeOk(t, info, n))
  }

  // ---------------------------------------------------------------- the map

  /** What is found for an index from node n of the given level on; 0 is nothing. */
  ghost function Walk(t: Tree, n: int, l: int, w: int): int
    requires l >= -1
    decreases l
  {
    if l < 0 || n !in t.nodes || |t.nodes[n].slots| != WIDTH then 0
    else if l == 0 then t.nodes[n].slots[Digit(w, 0)]
    else Walk(t, t.nodes[n].slots[Digit(w, l)], l - 1, w)
  }

  /** The finite map. */
  ghost function Get(t: Tree, w: int): int {
    if t.height < 0 || !(0 <= w < Cap(t.height)) then 0 else Walk(t, t.root, t.height - 1, w)
  }

  // ---------------------------------------------------------------- paths

  /** Index w lies below node n. */
  ghost predicate Below(info: Info, n: int, w: int)
    requires n in info && info[n].level >= 0
  {
    info[n].prefix == Shift(w, info[n].level + 1)
  }

  /** The path of an index goes from node to node below which it lies. */
  lemma PathStep(t: Tree, info: Info, n: int, w: int)
    requires Wf(t, info) && n in t.nodes && info[n].level > 0 && Below(info, n, w)
    ensures |t.nodes[n].slots| == WIDTH
    ensures var c := t.nodes[n].slots[Digit(w, info[n].level)];
      c != 0 ==> c in t.nodes && info[c].level == info[n].level - 1 && Below(info, c, w) && t.nodes[c].parent == n
  {
    assert NodeOk(t, info, n);
    assert ChildOk(t, info, n, Digit(w, info[n].level));
    ShiftNext(w, info[n].level);
  }

  /** Two nodes of one place are one node. */
  lemma {:induction false} PlaceUnique(t: Tree, info: Info, n: int, m: int)
    requires Wf(t, info) && n in t.nodes && m in t.nodes && info[n] == info[m]
    ensures n == m
    decreases t.height - info[n].level
  {
    assert NodeOk(t, info, n) && NodeOk(t, info, m);
    if n != t.root { assert NodeOk(t, info, t.nodes[n].parent); }
    if m != t.root { assert NodeOk(t, info, t.nodes[m].parent); }
    if n != t.root && m != t.root {
      PlaceUnique(t, info, t.nodes[n].parent, t.nodes[m].parent);
    }
  }

  /** The path of an index reaches every node below which it lies. */
  lemma {:induction false} Reaches(t: Tree, info: Info, m: int, w: int)
    requires Wf(t, info) && m in t.nodes && info[m].level >= 0 && Below(info, m, w) && w >= 0
    ensures 0 <= w < Cap(t.height) && Get(t, w) == Walk(t, m, info[m].level, w)
    decreases t.height - info[m].level
  {
    assert NodeOk(t, info, m);
    var l := info[m].level;
    if m == t.root {
      ShiftCap(w, t.height);
    } else {
      var p := t.nodes[m].parent;
      assert NodeOk(t, info, p);
      ShiftNext(w, l + 1);
      Reaches(t, info, p, w);
    }
  }

  /** Index w passes through slot i of node m. */
  ghost predicate Through(info: Info, m: int, i: int, w: int)
    requires m in info && info[m].level >= 0
  {
    Below(info, m, w) && Digit(w, info[m].level) == i
  }

  /** The trees differ in one slot, and a node that only that slot led to. */
  ghost predicate OneSlot(t: Tree, t': Tree, m: int, i: int, gone: int) {
    && m in t.nodes && m in t'.nodes && |t.nodes[m].slots| == WIDTH == |t'.nodes[m].slots| && 0 <= i < WIDTH
    && 0 !in t'.nodes
    && (forall j :: 0 <= j < WIDTH && j != i ==> t'.nodes[m].slots[j] == t.nodes[m].slots[j])
    && (forall y :: y in t.nodes && y != m && y != gone ==> y in t'.nodes && t'.nodes[y].slots == t.nodes[y].slots)
  }

  /** What does not pass through the slot is found as before. */
  lemma {:induction false} WalkElsewhere(t: Tree, info: Info, t': Tree, m: int, i: int, gone: int, n: int, w: int)
    requires Wf(t, info) && OneSlot(t, t', m, i, gone) && n in t.nodes && info[n].level >= 0 && Below(info, n, w)
    requires info[m].level >= 0
    requires !Through(info, m, i, w)
    requires (gone in t.nodes ==> gone != m && info[gone].level >= 0 && !Below(info, gone, w))
    ensures Walk(t', n, info[n].level, w) == Walk(t, n, info[n].level, w)
    decreases info[n].level
  {
    var l := info[n].level;
    assert NodeOk(t, info, n);
    if l > 0 {
      PathStep(t, info, n, w);
      var c := t.nodes[n].slots[Digit(w, l)];
      if c != 0 {
        WalkElsewhere(t, info, t', m, i, gone, c, w);
      } else {
        assert 0 in t.nodes ==> NodeOk(t, info, 0);
      }
    }
  }

  /** The same from the root on, for trees of one height. */
  lemma GetElsewhere(t: Tree, info: Info, t': Tree, m: int, i: int, gone: int, w: int)
    requires Wf(t, info) && OneSlot(t, t', m, i, gone) && t'.height == t.height && t'.root == t.root
    requires info[m].level >= 0
    requires !Through(info, m, i, w)
    requires (gone in t.nodes ==> gone != m && info[gone].level >= 0 && !Below(info, gone, w))
    ensures Get(t', w) == Get(t, w)
  {
    if 0 <= w < Cap(t.height) && t.root != 0 {
      assert NodeOk(t, info, t.root);
      ShiftCap(w, t.height);
      WalkElsewhere(t, info, t', m, i, gone, t.root, w);
    }
  }

  // ---------------------------------------------------------------- leaves

  function WithSlot(t: Tree, m: int, i: int, v: int, count: int): Tree
    requires m in t.nodes && 0 <= i < |t.nodes[m].slots|
  {
    t.(nodes := t.nodes[m := Node(count, t.nodes[m].parent, t.nodes[m].slots[i := v])])
  }

  lemma LeafWf(t: Tree, info: Info, m: int, i: int, v: int, count: int)
    requires Wf(t, info) && m in t.nodes && info[m].level == 0 && |t.nodes[m].slots| == WIDTH && 0 <= i < WIDTH
    requires count == Filled(t.nodes[m].slots[i := v])
    ensures Wf(WithSlot(t, m, i, v, count), info)
  {
    var t' := WithSlot(t, m, i, v, count);
    forall n | n in t'.nodes ensures NodeOk(t', info, n) {
      assert NodeOk(t, info, n) && NodeOk(t, info, m);
      forall j | 0 <= j < WIDTH ensures ChildOk(t', info, n, j) { assert ChildOk(t, info, n, j); }
    }
  }

  /** Setting a slot of the lowest level changes the map at one index. */
  lemma LeafGet(t: Tree, info: Info, m: int, i: int, v: int, count: int, w: int)
    requires Wf(t, info) && m in t.nodes && info[m].level == 0 && |t.nodes[m].slots| == WIDTH && 0 <= i < WIDTH
    requires count == Filled(t.nodes[m].slots[i := v])
    ensures Get(WithSlot(t, m, i, v, count), w) == if w == WIDTH * info[m].prefix + i then v else Get(t, w)
  {
    var t' := WithSlot(t, m, i, v, count);
    assert NodeOk(t, info, m);
    assert 0 in t.nodes ==> NodeOk(t, info, 0);
    if w == WIDTH * info[m].prefix + i {
      LeafWf(t, info, m, i, v, count);
      Reaches(t', info, m, w);
    } else {
      LeafThrough(info, m, i, w);
      GetElsewhere(t, info, t', m, i, 0, w);
    }
  }

  lemma LeafThrough(info: Info, m: int, i: int, w: int)
    requires m in info && info[m].level == 0 && 0 <= i < WIDTH
    ensures Through(info, m, i, w) <==> w == WIDTH * info[m].prefix + i
  {
    assert Shift(w, 1) == Shift(w / WIDTH, 0) == w / WIDTH && Digit(w, 0) == w % WIDTH;
  }

  // ---------------------------------------------------------------- new nodes

  function Empty(): (s: seq<int>)
    ensures |s| == WIDTH && forall i :: 0 <= i < WIDTH ==> s[i] == 0
  {
    seq(WIDTH, _ => 0)
  }

  /** A new, empty node c in the empty slot i of node m. */
  function WithChild(t: Tree, m: int, i: int, c: int, count: int): Tree
    requires m in t.nodes && 0 <= i < |t.nodes[m].slots|
  {
    var t1 := WithSlot(t, m, i, c, count);
    t1.(nodes := t1.nodes[c := Node(0, m, Empty())])
  }

  ghost function ChildInfo(info: Info, m: int, i: int, c: int): Info
    requires m in info
  {
    info[c := Place(info[m].level - 1, WIDTH * info[m].prefix + i)]
  }

  ghost predicate CanHang(t: Tree, info: Info, m: int, i: int, c: int) {
    && Wf(t, info) && m in t.nodes && info[m].level > 0 && |t.nodes[m].slots| == WIDTH && 0 <= i < WIDTH
    && t.nodes[m].slots[i] == 0 && c != 0 && c !in t.nodes
  }

  lemma ChildWf(t: Tree, info: Info, m: int, i: int, c: int)
    requires CanHang(t, info, m, i, c)
    ensures Wf(WithChild(t, m, i, c, t.nodes[m].count + 1), ChildInfo(info, m, i, c))
  {
    var t', info' := WithChild(t, m, i, c, t.nodes[m].count + 1), ChildInfo(info, m, i, c);
    FilledUpdate(t.nodes[m].slots, i, c);
    FilledZero(Empty());
    assert NodeOk(t, info, m);
    forall n | n in t'.nodes ensures NodeOk(t', info', n) {
      assert n != c ==> NodeOk(t, info, n);
      forall j | 0 <= j < WIDTH ensures ChildOk(t', info', n, j) { assert n != c ==> ChildOk(t, info, n, j); }
      if n == c { assert (WIDTH * info[m].prefix + i) / WIDTH == info[m].prefix &&
      (WIDTH * info[m].prefix + i) % WIDTH == i; }
    }
  }

  /** An empty node adds nothing to the map. */
  lemma ChildGet(t: Tree, info: Info, m: int, i: int, c: int, w: int)
    requires CanHang(t, info, m, i, c)
    ensures Get(WithChild(t, m, i, c, t.nodes[m].count + 1), w) == Get(t, w)
  {
    var t', info' := WithChild(t, m, i, c, t.nodes[m].count + 1), ChildInfo(info, m, i, c);
    assert NodeOk(t, info, m);
    assert 0 in t.nodes ==> NodeOk(t, info, 0);
    if !Through(info, m, i, w) {
      GetElsewhere(t, info, t', m, i, 0, w);
    } else if w >= 0 {
      ChildWf(t, info, m, i, c);
      Reaches(t, info, m, w);
      ShiftNext(w, info[m].level);
      Reaches(t', info', c, w);
    }
  }

  /** A new root c over the old one, if any. */
  function WithRoot(t: Tree, c: int): Tree {
    if t.root in t.nodes && t.root != 0
    then Tree(t.height + 1, c, t.nodes[t.root := t.nodes[t.root].(parent := c)][c := Node(1, 0, Empty()[0 := t.root])])
    else Tree(t.height + 1, c, t.nodes[c := Node(0, 0, Empty())])
  }

  lemma RootWf(t: Tree, info: Info, c: int)
    requires Wf(t, info) && c != 0 && c !in t.nodes
    ensures Wf(WithRoot(t, c), info[c := Place(t.height, 0)])
  {
    var t', info' := WithRoot(t, c), info[c := Place(t.height, 0)];
    FilledZero(Empty());
    FilledUpdate(Empty(), 0, t.root);
    forall n | n in t'.nodes ensures NodeOk(t', info', n) {
      assert n != c ==> NodeOk(t, info, n);
      forall j | 0 <= j < WIDTH ensures ChildOk(t', info', n, j) {
        if n != c { assert ChildOk(t, info, n, j); RootNoChild(t, info, n, j); }
      }
    }
  }

  /** The root is no one's child. */
  lemma RootNoChild(t: Tree, info: Info, n: int, j: int)
    requires Wf(t, info) && n in t.nodes && |t.nodes[n].slots| == WIDTH && 0 <= j < WIDTH
    ensures info[n].level > 0 && t.nodes[n].slots[j] != 0 ==> t.nodes[n].slots[j] != t.root
  {
    assert NodeOk(t, info, n);
    assert ChildOk(t, info, n, j);
    assert t.root in t.nodes ==> NodeOk(t, info, t.root);
  }

  /** A level more leaves every index where it was. */
  lemma RootGet(t: Tree, info: Info, c: int, w: int)
    requires Wf(t, info) && c != 0 && c !in t.nodes
    ensures Get(WithRoot(t, c), w) == Get(t, w)
  {
    var t', info' := WithRoot(t, c), info[c := Place(t.height, 0)];
    RootWf(t, info, c);
    assert 0 in t'.nodes ==> NodeOk(t', info', 0);
    if 0 <= w < Cap(t'.height) {
      assert NodeOk(t', info', c);
      TopDigit(w, t.height);
      var d := t'.nodes[c].slots[Digit(w, t.height)];
      assert d == if w < Cap(t.height) then t.root else 0;
      assert Get(t', w) == if t.height == 0 then d else Walk(t', d, t.height - 1, w);
      if w < Cap(t.height) && t.root != 0 { RootWalk(t, info, c, t.root, w); }
    }
  }

  /** The top digit tells if an index fits one level less. */
  lemma TopDigit(w: int, h: int)
    requires 0 <= w < Cap(h + 1) && h >= 0
    ensures Digit(w, h) == Shift(w, h) && (Shift(w, h) == 0 <==> w < Cap(h))
  {
    ShiftCap(w, h);
    ShiftCap(w, h + 1);
    ShiftNext(w, h);
  }

  lemma {:induction false} RootWalk(t: Tree, info: Info, c: int, n: int, w: int)
    requires Wf(t, info) && c != 0 && c !in t.nodes && n in t.nodes && info[n].level >= 0 && Below(info, n, w)
    ensures Walk(WithRoot(t, c), n, info[n].level, w) == Walk(t, n, info[n].level, w)
    decreases info[n].level
  {
    assert NodeOk(t, info, n);
    assert 0 in t.nodes ==> NodeOk(t, info, 0);
    if info[n].level > 0 {
      PathStep(t, info, n, w);
      var d := t.nodes[n].slots[Digit(w, info[n].level)];
      if d != 0 { RootWalk(t, info, c, d, w); }
    }
  }

  // ---------------------------------------------------------------- pruning

  ghost predicate IsEmpty(t: Tree, n: int) {
    n in t.nodes && |t.nodes[n].slots| == WIDTH && forall i :: 0 <= i < WIDTH ==> t.nodes[n].slots[i] == 0
  }

  function Delete(t: Tree, n: int): Tree { t.(nodes := t.nodes - {n}) }

  /** An empty node, not the root, taken out together with the slot that leads to it. */
  ghost function Pruned(t: Tree, info: Info, n: int): Tree
    requires Wf(t, info) && n in t.nodes && n != t.root
  {
    assert NodeOk(t, info, n);
    var p := t.nodes[n].parent;
    WithSlot(Delete(t, n), p, info[n].prefix % WIDTH, 0, t.nodes[p].count - 1)
  }

  lemma PruneWf(t: Tree, info: Info, n: int)
    requires Wf(t, info) && n in t.nodes && n != t.root && IsEmpty(t, n)
    ensures Wf(Pruned(t, info, n), info - {n})
  {
    var t', info' := Pruned(t, info, n), info - {n};
    assert NodeOk(t, info, n);
    var p, i := t.nodes[n].parent, info[n].prefix % WIDTH;
    assert NodeOk(t, info, p);
    FilledUpdate(t.nodes[p].slots, i, 0);
    forall y | y in t'.nodes ensures NodeOk(t', info', y) {
      assert NodeOk(t, info, y);
      forall j | 0 <= j < WIDTH ensures ChildOk(t', info', y, j) { PruneChild(t, info, n, y, j); }
    }
  }

  lemma PruneChild(t: Tree, info: Info, n: int, y: int, j: int)
    requires Wf(t, info) && n in t.nodes && n != t.root && IsEmpty(t, n) && y in t.nodes && y != n && 0 <= j < WIDTH
    ensures y in Pruned(t, info, n).nodes && |Pruned(t, info, n).nodes[y].slots| == WIDTH
    ensures ChildOk(Pruned(t, info, n), info - {n}, y, j)
  {
    assert NodeOk(t, info, n) && NodeOk(t, info, y);
    assert ChildOk(t, info, y, j);
    var p := t.nodes[n].parent;
    if info[y].level > 0 && t.nodes[y].slots[j] == n { assert (WIDTH * info[y].prefix + j) % WIDTH == j; }
  }

  /** Pruning an empty node leaves the map as it was. */
  lemma PruneGet(t: Tree, info: Info, n: int, w: int)
    requires Wf(t, info) && n in t.nodes && n != t.root && IsEmpty(t, n)
    ensures Get(Pruned(t, info, n), w) == Get(t, w)
  {
    var t', info' := Pruned(t, info, n), info - {n};
    assert NodeOk(t, info, n);
    assert 0 in t.nodes ==> NodeOk(t, info, 0);
    var p, i := t.nodes[n].parent, info[n].prefix % WIDTH;
    assert NodeOk(t, info, p);
    ShiftNext(w, info[p].level);
    if !Through(info, p, i, w) {
      GetElsewhere(t, info, t', p, i, n, w);
    } else if w >= 0 {
      PruneWf(t, info, n);
      assert info[n].prefix == WIDTH * info[p].prefix + i;
      Reaches(t, info, n, w);
      Reaches(t', info', p, w);
    }
  }

  /** Under an empty root there is no other node. */
  lemma {:induction false} OnlyRoot(t: Tree, info: Info, n: int)
    requires Wf(t, info) && n in t.nodes && IsEmpty(t, t.root)
    ensures n == t.root
    decreases t.height - info[n].level
  {
    assert NodeOk(t, info, n);
    if n != t.root {
      assert NodeOk(t, info, t.nodes[n].parent);
      OnlyRoot(t, info, t.nodes[n].parent);
    }
  }

  /** Without its empty root the tree is empty. */
  lemma PruneRoot(t: Tree, info: Info)
    requires Wf(t, info) && t.root in t.nodes && IsEmpty(t, t.root)
    ensures Wf(Tree(0, 0, t.nodes - {t.root}), info - {t.root}) && forall w :: Get(t, w) == 0
  {
    assert 0 !in t.nodes by { assert 0 in t.nodes ==> NodeOk(t, info, 0); }
    assert NodeOk(t, info, t.root);
    forall n | n in t.nodes ensures n == t.root { OnlyRoot(t, info, n); }
    forall w ensures Get(t, w) == 0 {
      var l := t.height - 1;
      assert t.nodes[t.root].slots[Digit(w, l)] == 0;
      assert Walk(t, t.root, l, w) == if l == 0 then 0 else Walk(t, 0, l - 1, w);
    }
  }

  /** Nothing is found below an empty node. */
  lemma EmptyBelow(t: Tree, info: Info, n: int, w: int)
    requires Wf(t, info) && n in t.nodes && IsEmpty(t, n) && info[n].level >= 0 && Below(info, n, w) && w >= 0
    ensures Get(t, w) == 0
  {
    assert NodeOk(t, info, n);
    assert 0 in t.nodes ==> NodeOk(t, info, 0);
    Reaches(t, info, n, w);
    assert t.nodes[n].slots[Digit(w, info[n].level)] == 0;
  }

  /** The map without one index. */
  ghost predicate Removed(t0: Tree, t: Tree, key: int) { forall w :: Get(t, w) == if w == key then 0 else Get(t0, w) }

  /**
  Halfway through a removal: slot i of node n, on the way to the key, still leads to a leaf
  taken out or a node freed. With that slot empty the tree would be well-formed and stand for
  the map without the key.
   */
  ghost predicate Pending(t0: Tree, t: Tree, info: Info, key: int, n: int, l: int, i: int) {
    && n in t.nodes && |t.nodes[n].slots| == WIDTH && 0 <= i < WIDTH && t.nodes[n].slots[i] != 0 && 0 <= l < t.height
    && t.nodes[n].count == Filled(t.nodes[n].slots) && n in info && info[n] == Place(l, Shift(key, l + 1))
    && Digit(key, l) == i
    && var view := WithSlot(t, n, i, 0, t.nodes[n].count - 1);
    Wf(view, info) && Removed(t0, view, key)
  }

  lemma PendingLeaf(t: Tree, info: Info, key: int, n: int)
    requires Wf(t, info) && 0 <= key < Cap(t.height) && n in t.nodes && info[n] == Place(0, Shift(key, 1))
    requires |t.nodes[n].slots| == WIDTH && t.nodes[n].slots[Digit(key, 0)] != 0
    ensures Pending(t, t, info, key, n, 0, Digit(key, 0))
  {
    var i := Digit(key, 0);
    assert NodeOk(t, info, n);
    FilledUpdate(t.nodes[n].slots, i, 0);
    ShiftNext(key, 0);
    LeafWf(t, info, n, i, 0, t.nodes[n].count - 1);
    forall w ensures Get(WithSlot(t, n, i, 0, t.nodes[n].count - 1), w) == if w == key then 0 else Get(t, w) {
      LeafGet(t, info, n, i, 0, t.nodes[n].count - 1, w);
    }
  }

  /** A node left empty goes, and the slot above it is next. */
  lemma PendingUp(t0: Tree, t: Tree, info: Info, key: int, n: int, l: int)
    requires Wf(t, info) && Removed(t0, t, key) && n in t.nodes && n != t.root && IsEmpty(t, n)
    requires 0 <= l && info[n] == Place(l, Shift(key, l + 1)) && key >= 0
    ensures l + 1 < t.height && Pending(t0, Delete(t, n), info - {n}, key, t.nodes[n].parent, l + 1, Digit(key, l + 1))
  {
    assert NodeOk(t, info, n);
    var p := t.nodes[n].parent;
    assert NodeOk(t, info, p);
    ShiftNext(key, l + 1);
    PruneWf(t, info, n);
    forall w ensures Get(Pruned(t, info, n), w) == if w == key then 0 else Get(t0, w) { PruneGet(t, info, n, w); }
  }
}
