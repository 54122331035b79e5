/** FLUID's design tree as the group operations see it: the `Fl_Type`
    entries in pre-order, each with its depth `level`, its selection, the
    tags that say what kind of entry it is, and the box of its widget.
    An entry's subtree is the run of following entries deeper than it; its
    parent is the nearest preceding entry that is shallower. */
module DesignTree {
  import opened CText

  /** A widget's position and size (`o->x()`, `o->y()`, `o->w()`, `o->h()`). */
  datatype Box = Box(x: int, y: int, w: int, h: int)
  {
    function Right(): int { x + w }
    function Bottom(): int { y + h }
  }

  predicate Contains(outer: Box, inner: Box)
  {
    outer.x <= inner.x && outer.y <= inner.y && inner.Right() <= outer.Right() && inner.Bottom() <= outer.Bottom()
  }

  /** The smallest box holding both: `X`/`Y` the smaller left and top edges,
      `R`/`B` the larger right and bottom edges. */
  function Union(a: Box, b: Box): (u: Box)
    ensures Contains(u, a) && Contains(u, b)
    ensures u.x == a.x || u.x == b.x
    ensures u.y == a.y || u.y == b.y
    ensures u.Right() == a.Right() || u.Right() == b.Right()
    ensures u.Bottom() == a.Bottom() || u.Bottom() == b.Bottom()
  {
    var X := if b.x < a.x then b.x else a.x;
    var Y := if b.y < a.y then b.y else a.y;
    var R := if b.Right() > a.Right() then b.Right() else a.Right();
    var B := if b.Bottom() > a.Bottom() then b.Bottom() else a.Bottom();
    Box(X, Y, R - X, B - Y)
  }

  /** One `Fl_Type` entry: `is_widget()`, `is_menu_item()`, `is_group()` and
      whether its type name is "widget_class". */
  datatype Node = Node(level: nat, selected: bool, isWidget: bool, isMenuItem: bool,
                       isGroup: bool, isWidgetClass: bool, box: Box)

  /** An entry the group operations treat as a widget: a widget that is not a menu item. */
  predicate IsPlainWidget(n: Node)
  {
    n.isWidget && !n.isMenuItem
  }

  /** Depths grow by at most one from an entry to the next, as in any pre-order listing. */
  predicate WellFormed(s: seq<Node>)
  {
    forall i :: 0 < i < |s| ==> s[i].level <= s[i - 1].level + 1
  }

  /** The first index from `k` on whose entry is not deeper than `lvl`. */
  function EndFrom(s: seq<Node>, lvl: nat, k: nat): (e: nat)
    requires k <= |s|
    ensures k <= e <= |s|
    ensures forall m :: k <= m < e ==> s[m].level > lvl
    ensures e < |s| ==> s[e].level <= lvl
    decreases |s| - k
  {
    if k == |s| || s[k].level <= lvl then k else EndFrom(s, lvl, k + 1)
  }

  /** One past the last entry of the subtree of `s[i]`: where `remove()`
      cuts and what it returns as the next entry. */
  function SubtreeEnd(s: seq<Node>, i: nat): (e: nat)
    requires i < |s|
    ensures i < e <= |s|
    ensures forall m :: i < m < e ==> s[m].level > s[i].level
    ensures e < |s| ==> s[e].level <= s[i].level
  {
    EndFrom(s, s[i].level, i + 1)
  }

  /** The subtree end is the only index with those properties. */
  lemma {:induction false} SubtreeEndUnique(s: seq<Node>, i: nat, e: nat)
    requires i < e <= |s|
    requires forall m :: i < m < e ==> s[m].level > s[i].level
    requires e < |s| ==> s[e].level <= s[i].level
    ensures SubtreeEnd(s, i) == e
  {
  }

  /** The nearest entry before index `k` shallower than `lvl`. */
  function ShallowerBefore(s: seq<Node>, lvl: nat, k: nat): (r: Option<nat>)
    requires k <= |s|
    ensures r.Some? ==> r.value < k && s[r.value].level < lvl
    ensures r.Some? ==> forall m :: r.value < m < k ==> s[m].level >= lvl
    ensures r.None? ==> forall m :: 0 <= m < k ==> s[m].level >= lvl
    decreases k
  {
    if k == 0 then None
    else if s[k - 1].level < lvl then Some(k - 1)
    else ShallowerBefore(s, lvl, k - 1)
  }

  /** `parent`: the entry whose subtree `s[i]` is a direct member of. */
  function Parent(s: seq<Node>, i: nat): (p: Option<nat>)
    requires i < |s|
    ensures p.Some? ==> p.value < i && s[p.value].level < s[i].level
    ensures p.Some? ==> i < SubtreeEnd(s, p.value)
  {
    ShallowerBefore(s, s[i].level, i)
  }

  /** `s[m]` is `s[i]` itself or one of its ancestors: the entries `parent`
      reaches from `s[i]`, which are those whose subtree holds `s[i]`. */
  predicate Encloses(s: seq<Node>, m: nat, i: nat)
    requires m < |s|
  {
    m <= i < SubtreeEnd(s, m)
  }

  /** The entry itself when it is a widget, otherwise its nearest widget
      ancestor: where `while (qq && !widget) qq = qq->parent` stops. `None`
      when no entry on the way to the root is a widget. */
  function WidgetAncestor(s: seq<Node>, i: nat): (r: Option<nat>)
    requires i < |s|
    ensures IsPlainWidget(s[i]) ==> r == Some(i)
    ensures r.Some? ==> r.value < |s| && Encloses(s, r.value, i) && IsPlainWidget(s[r.value])
    ensures r.Some? ==> forall m {:trigger Encloses(s, m, i)} :: r.value < m <= i && Encloses(s, m, i) ==> !IsPlainWidget(s[m])
    ensures r.None? ==> forall m {:trigger Encloses(s, m, i)} :: 0 <= m <= i && Encloses(s, m, i) ==> !IsPlainWidget(s[m])
    decreases i
  {
    if IsPlainWidget(s[i]) then Some(i)
    else
      match Parent(s, i)
      case None =>
        NoEnclosingWithoutParent(s, i);
        None
      case Some(p) =>
        var r := WidgetAncestor(s, p);
        if r.Some? then
          NearestThroughParent(s, i, p, r.value);
          r
        else
          NoneThroughParent(s, i, p);
          r
  }

  /** The nearest widget enclosing the parent is the nearest one enclosing
      the child, when the child is not a widget itself. */
  lemma {:induction false} NearestThroughParent(s: seq<Node>, i: nat, p: nat, w: nat)
    requires i < |s| && Parent(s, i) == Some(p) && !IsPlainWidget(s[i])
    requires w < |s| && Encloses(s, w, p)
    requires forall m {:trigger Encloses(s, m, p)} :: w < m <= p && Encloses(s, m, p) ==> !IsPlainWidget(s[m])
    ensures Encloses(s, w, i)
    ensures forall m {:trigger Encloses(s, m, i)} :: w < m <= i && Encloses(s, m, i) ==> !IsPlainWidget(s[m])
  {
    if w < p {
      SubtreeNested(s, w, p, i);
    }
    EnclosingOfParent(s, i, p);
  }

  /** With no widget enclosing the parent, none encloses the child either. */
  lemma {:induction false} NoneThroughParent(s: seq<Node>, i: nat, p: nat)
    requires i < |s| && Parent(s, i) == Some(p) && !IsPlainWidget(s[i])
    requires forall m {:trigger Encloses(s, m, p)} :: 0 <= m <= p && Encloses(s, m, p) ==> !IsPlainWidget(s[m])
    ensures forall m {:trigger Encloses(s, m, i)} :: 0 <= m <= i && Encloses(s, m, i) ==> !IsPlainWidget(s[m])
  {
    EnclosingOfParent(s, i, p);
  }

  /** An entry with no parent has no ancestor. */
  lemma {:induction false} NoEnclosingWithoutParent(s: seq<Node>, i: nat)
    requires i < |s| && Parent(s, i).None?
    ensures forall m :: 0 <= m < i ==> !Encloses(s, m, i)
  {
    forall m | 0 <= m < i
      ensures !Encloses(s, m, i)
    {
      assert s[m].level >= s[i].level;
    }
  }

  /** Every ancestor of `s[i]` is its parent `s[p]` or an ancestor of it. */
  lemma {:induction false} EnclosingOfParent(s: seq<Node>, i: nat, p: nat)
    requires i < |s| && Parent(s, i) == Some(p)
    ensures forall m :: 0 <= m < i && Encloses(s, m, i) ==> Encloses(s, m, p)
  {
    forall m | 0 <= m < i && Encloses(s, m, i)
      ensures Encloses(s, m, p)
    {
      assert s[i].level > s[m].level;
    }
  }

  /** An entry inside the subtree of an entry inside the subtree of `a` is inside that of `a`. */
  lemma {:induction false} SubtreeNested(s: seq<Node>, a: nat, b: nat, c: nat)
    requires a < b < |s| && b < c < |s|
    requires b < SubtreeEnd(s, a) && c < SubtreeEnd(s, b)
    ensures c < SubtreeEnd(s, a)
  {
  }

  /** `x` after `add`/`insert` moved it `d` levels (children move with their parent). */
  function Shifted(x: Node, d: int): (y: Node)
    requires x.level + d >= 0
    ensures y.level == x.level + d
  {
    x.(level := x.level + d)
  }

  /** A subtree `b` (its first entry the shallowest) moved so that its root lands at level `lvl`. */
  function Relevel(b: seq<Node>, lvl: nat): (r: seq<Node>)
    requires |b| > 0 && forall k :: 0 <= k < |b| ==> b[k].level >= b[0].level
    ensures |r| == |b|
    ensures forall k :: 0 <= k < |b| ==> r[k] == Shifted(b[k], lvl - b[0].level)
  {
    seq(|b|, k requires 0 <= k < |b| => Shifted(b[k], lvl - b[0].level))
  }

  /** `remove()`: the listing without the subtree of `s[t]`, and that subtree. */
  function Detach(s: seq<Node>, t: nat): (r: (seq<Node>, seq<Node>))
    requires t < |s|
    ensures |r.0| + |r.1| == |s| && 0 < |r.1| && r.1[0] == s[t]
    ensures forall k :: 0 <= k < |r.1| ==> r.1[k].level >= r.1[0].level
    ensures t <= |r.0| && r.0[..t] == s[..t]
  {
    var e := SubtreeEnd(s, t);
    assert forall k :: 0 <= k < e - t ==> s[t..e][k] == s[t + k];
    (s[..t] + s[e..], s[t..e])
  }

  /** `add(p)`: the subtree `b` put after the last descendant of `s[p]`, its root one level below `s[p]`. */
  function AttachLast(s: seq<Node>, b: seq<Node>, p: nat): (r: seq<Node>)
    requires p < |s| && 0 < |b| && forall k :: 0 <= k < |b| ==> b[k].level >= b[0].level
    ensures |r| == |s| + |b|
  {
    var a := SubtreeEnd(s, p);
    s[..a] + Relevel(b, s[p].level + 1) + s[a..]
  }

  /** `insert(p)`: the subtree `b` put just before `s[p]`, its root at the level of `s[p]`. */
  function InsertBefore(s: seq<Node>, b: seq<Node>, p: nat): (r: seq<Node>)
    requires p < |s| && 0 < |b| && forall k :: 0 <= k < |b| ==> b[k].level >= b[0].level
    ensures |r| == |s| + |b|
  {
    s[..p] + Relevel(b, s[p].level) + s[p..]
  }

  /** Every entry of `b` moved one level deeper. */
  function Raised(b: seq<Node>): (r: seq<Node>)
    ensures |r| == |b|
    ensures forall k :: 0 <= k < |b| ==> r[k] == Shifted(b[k], 1)
  {
    seq(|b|, k requires 0 <= k < |b| => Shifted(b[k], 1))
  }

  /** Every entry of `b` moved one level up. */
  function Lowered(b: seq<Node>): (r: seq<Node>)
    requires forall k :: 0 <= k < |b| ==> b[k].level >= 1
    ensures |r| == |b|
    ensures forall k :: 0 <= k < |b| ==> r[k] == Shifted(b[k], -1)
  {
    seq(|b|, k requires 0 <= k < |b| => Shifted(b[k], -1))
  }

  lemma {:induction false} RaisedAppend(a: seq<Node>, b: seq<Node>)
    ensures Raised(a + b) == Raised(a) + Raised(b)
  {
  }

  lemma {:induction false} LoweredAppend(a: seq<Node>, b: seq<Node>)
    requires forall k :: 0 <= k < |a| ==> a[k].level >= 1
    requires forall k :: 0 <= k < |b| ==> b[k].level >= 1
    ensures Lowered(a + b) == Lowered(a) + Lowered(b)
  {
  }

  // ---- The result of group_cb, in terms of the design before it

  /** Whether the last entry of `s` goes into the new group at level `L`:
      a selected entry at level `L` does, and so does every entry of its
      subtree; shallower entries, and anything not below a moved one, stay. */
  function Moved(s: seq<Node>, L: nat): bool
    requires |s| > 0
    decreases |s|
  {
    var x := s[|s| - 1];
    if x.level <= L then x.level == L && x.selected
    else |s| > 1 && Moved(s[..|s| - 1], L)
  }

  /** The entries of `s` that stay where they are, in order. */
  function Kept(s: seq<Node>, L: nat): (r: seq<Node>)
    ensures |r| <= |s|
    decreases |s|
  {
    if s == [] then []
    else Kept(s[..|s| - 1], L) + (if Moved(s, L) then [] else [s[|s| - 1]])
  }

  /** The entries of `s` that move into the new group, in order and one level deeper. */
  function Taken(s: seq<Node>, L: nat): (r: seq<Node>)
    ensures |Kept(s, L)| + |r| == |s|
    ensures forall k :: 0 <= k < |r| ==> r[k].level > L
    decreases |s|
  {
    if s == [] then []
    else Taken(s[..|s| - 1], L) + (if Moved(s, L) then [Shifted(s[|s| - 1], 1)] else [])
  }

  /** Appending a non-moved entry appends it to the kept ones. */
  lemma {:induction false} KeptStep(O: seq<Node>, j: nat, L: nat)
    requires j < |O| && !Moved(O[..j + 1], L)
    ensures Kept(O[..j + 1], L) == Kept(O[..j], L) + [O[j]]
    ensures Taken(O[..j + 1], L) == Taken(O[..j], L)
  {
    assert O[..j + 1][..j] == O[..j];
  }

  /** Appending the subtree `O[j..e]` of a selected level-`L` entry moves it whole. */
  lemma {:induction false} TakenBlock(O: seq<Node>, j: nat, e: nat, L: nat)
    requires j < e <= |O|
    requires O[j].level == L && O[j].selected
    requires forall m :: j < m < e ==> O[m].level > L
    ensures Moved(O[..e], L)
    ensures Kept(O[..e], L) == Kept(O[..j], L)
    ensures Taken(O[..e], L) == Taken(O[..j], L) + Raised(O[j..e])
    decreases e - j
  {
    var k := e - 1;
    MovedStep(O, k, e, L);
    SliceSnoc(O, j, k);
    if k == j {
      SnocRaised(Taken(O[..j], L), [], O[j]);
    } else {
      TakenBlock(O, j, k, L);
      SnocRaised(Taken(O[..j], L), O[j..k], O[k]);
    }
  }

  lemma {:induction false} SliceSnoc(O: seq<Node>, j: nat, k: nat)
    requires j <= k < |O|
    ensures O[j..k + 1] == O[j..k] + [O[k]] && O[k..k] == []
  {
  }

  lemma {:induction false} SnocRaised(A: seq<Node>, B: seq<Node>, x: Node)
    ensures A + Raised(B) + [Shifted(x, 1)] == A + Raised(B + [x])
  {
    AppendAssoc(A, Raised(B), [Shifted(x, 1)]);
    RaisedAppend(B, [x]);
    assert Raised([x]) == [Shifted(x, 1)];
  }

  lemma {:induction false} AppendAssoc(A: seq<Node>, B: seq<Node>, C: seq<Node>)
    ensures A + (B + C) == A + B + C
  {
  }

  /** Whether `O[k]` moves depends on it and, when it is deeper, on whether the entry before it moved. */
  lemma {:induction false} MovedStep(O: seq<Node>, k: nat, e: nat, L: nat)
    requires e == k + 1 <= |O|
    ensures Moved(O[..e], L) == if O[k].level <= L then O[k].level == L && O[k].selected
                                 else k > 0 && Moved(O[..k], L)
    ensures Moved(O[..e], L) ==> Kept(O[..e], L) == Kept(O[..k], L) &&
                                 Taken(O[..e], L) == Taken(O[..k], L) + [Shifted(O[k], 1)]
  {
    assert O[..e][..k] == O[..k];
  }

  /** No selected level-`L` entry is left behind. */
  lemma {:induction false} KeptHasNoCandidate(s: seq<Node>, L: nat)
    ensures forall k :: 0 <= k < |Kept(s, L)| ==> !(Kept(s, L)[k].level == L && Kept(s, L)[k].selected)
    decreases |s|
  {
    if s != [] {
      KeptHasNoCandidate(s[..|s| - 1], L);
    }
  }

  /** The selected entries at level `L`, in order. */
  function Candidates(s: seq<Node>, L: nat): seq<Node>
    decreases |s|
  {
    if s == [] then []
    else Candidates(s[..|s| - 1], L) + (if s[|s| - 1].level == L && s[|s| - 1].selected then [s[|s| - 1]] else [])
  }

  /** The entries at level `lvl`, in order. */
  function AtLevel(s: seq<Node>, lvl: nat): seq<Node>
    decreases |s|
  {
    if s == [] then []
    else AtLevel(s[..|s| - 1], lvl) + (if s[|s| - 1].level == lvl then [s[|s| - 1]] else [])
  }

  lemma {:induction false} AtLevelAppend(a: seq<Node>, b: seq<Node>, lvl: nat)
    ensures AtLevel(a + b, lvl) == AtLevel(a, lvl) + AtLevel(b, lvl)
    decreases |b|
  {
    if b == [] {
      assert a + b == a;
    } else {
      assert (a + b)[..|a + b| - 1] == a + b[..|b| - 1];
      AtLevelAppend(a, b[..|b| - 1], lvl);
    }
  }

  /** The direct children of the new group are exactly the selected
      level-`L` entries, in their original order. */
  lemma {:induction false} TakenRoots(s: seq<Node>, L: nat)
    ensures AtLevel(Taken(s, L), L + 1) == Raised(Candidates(s, L))
    decreases |s|
  {
    if s != [] {
      TakenRoots(s[..|s| - 1], L);
      TakenRootsStep(s, L);
    }
  }

  /** Extending `s` by one entry extends both sides of `TakenRoots` alike. */
  lemma {:induction false} TakenRootsStep(s: seq<Node>, L: nat)
    requires s != [] && AtLevel(Taken(s[..|s| - 1], L), L + 1) == Raised(Candidates(s[..|s| - 1], L))
    ensures AtLevel(Taken(s, L), L + 1) == Raised(Candidates(s, L))
  {
    var f := s[..|s| - 1];
    var x := s[|s| - 1];
    var tail := if Moved(s, L) then [Shifted(x, 1)] else [];
    var c := if x.level == L && x.selected then [x] else [];
    LastRoot(s, L);
    RootsJoin(Taken(f, L), tail, Candidates(f, L), c, L + 1);
    SnocUnfold(s, L);
  }

  lemma {:induction false} SnocUnfold(s: seq<Node>, L: nat)
    requires s != []
    ensures Taken(s, L) == Taken(s[..|s| - 1], L) + (if Moved(s, L) then [Shifted(s[|s| - 1], 1)] else [])
    ensures Candidates(s, L) == Candidates(s[..|s| - 1], L) + (if s[|s| - 1].level == L && s[|s| - 1].selected then [s[|s| - 1]] else [])
  {
  }

  lemma {:induction false} RootsJoin(A: seq<Node>, tail: seq<Node>, B: seq<Node>, c: seq<Node>, lvl: nat)
    requires AtLevel(A, lvl) == Raised(B) && AtLevel(tail, lvl) == Raised(c)
    ensures AtLevel(A + tail, lvl) == Raised(B + c)
  {
    AtLevelAppend(A, tail, lvl);
    RaisedAppend(B, c);
  }

  /** The last entry of `s` becomes a direct child of the new group exactly when it is a candidate. */
  lemma {:induction false} LastRoot(s: seq<Node>, L: nat)
    requires |s| > 0
    ensures var x := s[|s| - 1];
            AtLevel(if Moved(s, L) then [Shifted(x, 1)] else [], L + 1) ==
            Raised(if x.level == L && x.selected then [x] else [])
  {
    var x := s[|s| - 1];
    AtLevelOne(if Moved(s, L) then [Shifted(x, 1)] else [], L + 1);
  }

  lemma {:induction false} AtLevelOne(s: seq<Node>, lvl: nat)
    requires |s| <= 1
    ensures AtLevel(s, lvl) == if |s| == 1 && s[0].level == lvl then s else []
  {
    if |s| == 1 {
      assert s[..0] == [];
    }
  }

  // ---- fix_group_size

  /** The box the loop of `fix_group_size` has built by index `k`: the
      starting box `b` grown by every plain widget in `s[from..k]`. */
  function CoverFrom(s: seq<Node>, b: Box, from: nat, k: nat): (u: Box)
    requires from <= k <= |s|
    ensures Contains(u, b)
    decreases k - from
  {
    if k == from then b
    else
      var u := CoverFrom(s, b, from, k - 1);
      if IsPlainWidget(s[k - 1]) then Union(u, s[k - 1].box) else u
  }

  /** The box `fix_group_size` gives the group `s[i]`: its own box grown
      over the boxes of the plain widgets in its subtree. */
  function Cover(s: seq<Node>, i: nat): Box
    requires i < |s|
  {
    CoverFrom(s, s[i].box, i + 1, SubtreeEnd(s, i))
  }

  /** The cover holds each plain widget it has scanned. */
  lemma {:induction false} CoverContains(s: seq<Node>, b: Box, from: nat, k: nat, m: nat)
    requires from <= m < k <= |s| && IsPlainWidget(s[m])
    ensures Contains(CoverFrom(s, b, from, k), s[m].box)
    decreases k - from
  {
    if m < k - 1 {
      CoverContains(s, b, from, k - 1, m);
    }
  }

  /** Each edge of the cover is an edge of the starting box or of a scanned plain widget. */
  lemma {:induction false} CoverEdgesAttained(s: seq<Node>, b: Box, from: nat, k: nat)
    requires from <= k <= |s|
    ensures var u := CoverFrom(s, b, from, k);
            (u.x == b.x || exists m :: from <= m < k && IsPlainWidget(s[m]) && u.x == s[m].box.x) &&
            (u.y == b.y || exists m :: from <= m < k && IsPlainWidget(s[m]) && u.y == s[m].box.y) &&
            (u.Right() == b.Right() || exists m :: from <= m < k && IsPlainWidget(s[m]) && u.Right() == s[m].box.Right()) &&
            (u.Bottom() == b.Bottom() || exists m :: from <= m < k && IsPlainWidget(s[m]) && u.Bottom() == s[m].box.Bottom())
    decreases k - from
  {
    if k > from {
      CoverEdgesAttained(s, b, from, k - 1);
    }
  }

  /** `fix_group_size`'s box is the union of the group's box and its plain
      widgets' boxes: it holds each of them, and each of its edges is one of theirs. */
  lemma {:induction false} CoverIsUnion(s: seq<Node>, i: nat)
    requires i < |s|
    ensures Contains(Cover(s, i), s[i].box)
    ensures forall m :: i < m < SubtreeEnd(s, i) && IsPlainWidget(s[m]) ==> Contains(Cover(s, i), s[m].box)
    ensures var u := Cover(s, i);
            var e := SubtreeEnd(s, i);
            (u.x == s[i].box.x || exists m :: i < m < e && IsPlainWidget(s[m]) && u.x == s[m].box.x) &&
            (u.y == s[i].box.y || exists m :: i < m < e && IsPlainWidget(s[m]) && u.y == s[m].box.y) &&
            (u.Right() == s[i].box.Right() || exists m :: i < m < e && IsPlainWidget(s[m]) && u.Right() == s[m].box.Right()) &&
            (u.Bottom() == s[i].box.Bottom() || exists m :: i < m < e && IsPlainWidget(s[m]) && u.Bottom() == s[m].box.Bottom())
  {
    var e := SubtreeEnd(s, i);
    forall m | i < m < e && IsPlainWidget(s[m])
      ensures Contains(Cover(s, i), s[m].box)
    {
      CoverContains(s, s[i].box, i + 1, e, m);
    }
    CoverEdgesAttained(s, s[i].box, i + 1, e);
  }
}
