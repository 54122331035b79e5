/** The group operations of fluid/Fl_Group_Type.cxx on the design tree:
    `fix_group_size`, the "Group" command (`group_cb`), the "Ungroup"
    command (`ungroup_cb`) and the tab group's `remove_child`. The design is
    the pre-order list of entries; an entry is identified by its position. */
module GroupType {
  import opened CText
  import opened DesignTree

  // ---- fix_group_size

  /** The design after `fix_group_size(tt)`: a group's box becomes its
      cover; a missing entry or one that is not a group changes nothing. */
  function FixedSize(s: seq<Node>, tt: Option<nat>): (r: seq<Node>)
    requires tt.Some? ==> tt.value < |s|
    ensures |r| == |s|
    ensures forall k :: 0 <= k < |s| && (tt.None? || k != tt.value) ==> r[k] == s[k]
    ensures tt.Some? && s[tt.value].isGroup ==> r[tt.value] == s[tt.value].(box := Cover(s, tt.value))
    ensures tt.None? || !s[tt.value].isGroup ==> r == s
  {
    if tt.Some? && s[tt.value].isGroup then s[tt.value := s[tt.value].(box := Cover(s, tt.value))]
    else s
  }

  /** The loop of `fix_group_size`: grow `X`, `Y`, `R`, `B` over the plain
      widgets of the group's subtree, stopping at the first entry that is
      not deeper than the group. */
  method CoveringBox(s: seq<Node>, i: nat) returns (b: Box)
    requires i < |s|
    ensures b == Cover(s, i)
    ensures Contains(b, s[i].box)
    ensures forall m :: i < m < SubtreeEnd(s, i) && IsPlainWidget(s[m]) ==> Contains(b, s[m].box)
  {
    var X := s[i].box.x;
    var Y := s[i].box.y;
    var R := X + s[i].box.w;
    var B := Y + s[i].box.h;
    var k := i + 1;
    while k < |s| && s[k].level > s[i].level
      invariant i + 1 <= k <= SubtreeEnd(s, i)
      invariant Box(X, Y, R - X, B - Y) == CoverFrom(s, s[i].box, i + 1, k)
    {
      if IsPlainWidget(s[k]) {
        var x := s[k].box.x;
        if x < X { X := x; }
        var y := s[k].box.y;
        if y < Y { Y := y; }
        var r := x + s[k].box.w;
        if r > R { R := r; }
        var bb := y + s[k].box.h;
        if bb > B { B := bb; }
      }
      k := k + 1;
    }
    b := Box(X, Y, R - X, B - Y);
    CoverIsUnion(s, i);
  }

  // ---- group_cb

  /** An entry the group commands accept: below the top level, and not a
      widget class at level 1. */
  predicate Groupable(s: seq<Node>, q: nat)
    requires q < |s|
  {
    s[q].level >= 1 && !(s[q].level == 1 && s[q].isWidgetClass)
  }

  /** The widget `group_cb` groups around: the current entry or its nearest
      widget ancestor, unless there is none, it is at level 0, or it is a
      widget class at level 1. */
  function GroupTarget(s: seq<Node>, cur: Option<nat>): (q: Option<nat>)
    requires cur.Some? ==> cur.value < |s|
    ensures q.Some? ==> q.value < |s| && IsPlainWidget(s[q.value]) && s[q.value].level >= 1
    ensures q.Some? ==> !(s[q.value].level == 1 && s[q.value].isWidgetClass)
    ensures q.Some? ==> cur.Some? && q == WidgetAncestor(s, cur.value)
    ensures cur.Some? && WidgetAncestor(s, cur.value).Some? && Groupable(s, WidgetAncestor(s, cur.value).value) ==>
            q == WidgetAncestor(s, cur.value)
    ensures cur.None? ==> q.None?
  {
    var qq := if cur.Some? then WidgetAncestor(s, cur.value) else None;
    if qq.None? || !Groupable(s, qq.value) then None
    else qq
  }

  /** The new group entry: what the group factory made, moved before `q`
      (so at `q`'s level) and given `q`'s box. */
  function NewGroup(O: seq<Node>, q: nat, made: Node): (n: Node)
    requires q < |O|
    ensures n.level == O[q].level && n.box == O[q].box
  {
    made.(level := O[q].level, box := O[q].box)
  }

  /** The design after the loop of `group_cb` moved every selected entry at
      `q`'s level (with its subtree) into the new group `n` standing where
      `q` stood: kept entries before `q`, then `n`, its new children in their
      original order, then the remaining kept entries. */
  function Walked(O: seq<Node>, q: nat, n: Node): (r: seq<Node>)
    requires q < |O|
    ensures |r| == |O| + 1
    ensures |Kept(O[..q], O[q].level)| < |r| && r[|Kept(O[..q], O[q].level)|] == n
  {
    var L := O[q].level;
    var Kq := Kept(O[..q], L);
    KeptGrows(O, q, |O|, L);
    assert O[..|O|] == O;
    Kq + [n] + Taken(O, L) + Kept(O, L)[|Kq|..]
  }

  /** The design after grouping around `q`: the walk's result, with the new
      group sized to cover its widgets. */
  function Grouped(O: seq<Node>, q: nat, made: Node): (r: seq<Node>)
    requires q < |O|
    ensures |r| == |O| + 1
  {
    FixedSize(Walked(O, q, NewGroup(O, q, made)), Some(|Kept(O[..q], O[q].level)|))
  }

  /** The kept entries of a longer prefix extend those of a shorter one, and so do the taken ones. */
  lemma {:induction false} KeptGrows(O: seq<Node>, j: nat, k: nat, L: nat)
    requires j <= k <= |O|
    ensures |Kept(O[..j], L)| <= |Kept(O[..k], L)| && Kept(O[..k], L)[..|Kept(O[..j], L)|] == Kept(O[..j], L)
    ensures |Taken(O[..j], L)| <= |Taken(O[..k], L)|
    decreases k - j
  {
    if j < k {
      KeptGrows(O, j, k - 1, L);
      assert O[..k][..k - 1] == O[..k - 1];
    }
  }

  /** Whether the entries before `j` leave the entry at `j` on its own: an
      entry deeper than `L` there is not inside a moved subtree. */
  ghost predicate Boundary(O: seq<Node>, j: nat, L: nat)
    requires j <= |O|
  {
    0 < j < |O| && O[j].level > L ==> !Moved(O[..j], L)
  }

  /** The walk of `group_cb` before it reaches the new group `n`: it has
      looked at `O[..j]`, the moved ones follow `n`, and it stands at `O[j]`. */
  ghost predicate Before(O: seq<Node>, q: nat, n: Node, cur: seq<Node>, t: nat, gi: nat, j: nat)
    requires q < |O|
  {
    var L := O[q].level;
    j <= q && t == |Kept(O[..j], L)| && gi == t + (q - j) &&
    cur == Kept(O[..j], L) + O[j..q] + [n] + Taken(O[..j], L) + O[q..] && Boundary(O, j, L)
  }

  /** The walk passing over the new group and the entries already moved into it. */
  ghost predicate AtGroup(O: seq<Node>, q: nat, n: Node, cur: seq<Node>, t: nat, gi: nat)
    requires q < |O|
  {
    var L := O[q].level;
    gi == |Kept(O[..q], L)| && gi <= t <= gi + |Taken(O[..q], L)| &&
    cur == Kept(O[..q], L) + [n] + Taken(O[..q], L) + O[q..]
  }

  /** The walk after the new group: it has looked at `O[..j]` and stands at `O[j]`. */
  ghost predicate After(O: seq<Node>, q: nat, n: Node, cur: seq<Node>, t: nat, gi: nat, j: nat)
    requires q < |O|
  {
    var L := O[q].level;
    var Kq := Kept(O[..q], L);
    q <= j <= |O| &&
    var K := Kept(O[..j], L);
    gi == |Kq| && |Kq| <= |K| && K[..|Kq|] == Kq &&
    |Taken(O[..q], L)| <= |Taken(O[..j], L)| &&
    t == gi + 1 + |Taken(O[..j], L)| + (|K| - |Kq|) &&
    cur == Kq + [n] + Taken(O[..j], L) + K[|Kq|..] + O[j..] && Boundary(O, j, L) &&
    (|K| > |Kq| ==> K[|Kq|].level <= L) &&
    (j > q && |K| == |Kq| ==> Moved(O[..j], L))
  }

  /** Where the walk stands before the new group. */
  lemma {:induction false} BeforeView(O: seq<Node>, q: nat, n: Node, cur: seq<Node>, t: nat, gi: nat, j: nat)
    requires q < |O| && Before(O, q, n, cur, t, gi, j) && j < q
    ensures t < gi < |cur| && cur[t] == O[j] && cur[gi] == n
  {
    var L := O[q].level;
    var K := Kept(O[..j], L);
    assert cur == K + (O[j..q] + ([n] + (Taken(O[..j], L) + O[q..])));
  }

  /** Passing over an entry before the new group keeps it in place. */
  lemma {:induction false} BeforeSkip(O: seq<Node>, q: nat, n: Node, cur: seq<Node>, t: nat, gi: nat, j: nat)
    requires q < |O| && Before(O, q, n, cur, t, gi, j) && j < q
    requires !(O[j].level == O[q].level && O[j].selected)
    ensures Before(O, q, n, cur, t + 1, gi, j + 1)
  {
    var L := O[q].level;
    assert O[..j + 1][..j] == O[..j];
    assert !Moved(O[..j + 1], L);
    KeptStep(O, j, L);
    assert O[j..q] == [O[j]] + O[j + 1..q];
  }

  /** A selected entry before the new group: its subtree ends before the group. */
  lemma {:induction false} BeforeSubtree(O: seq<Node>, q: nat, n: Node, cur: seq<Node>, t: nat, gi: nat, j: nat) returns (e: nat, ec: nat)
    requires q < |O| && n.level == O[q].level && Before(O, q, n, cur, t, gi, j) && j < q
    requires O[j].level == O[q].level
    ensures e == SubtreeEnd(O, j) && e <= q
    ensures ec == t + (e - j) && ec <= |cur| && SubtreeEnd(cur, t) == ec && cur[t..ec] == O[j..e]
  {
    var L := O[q].level;
    e := SubtreeEnd(O, j);
    assert e <= q;
    var K := Kept(O[..j], L);
    var B := O[j..e];
    var R := O[e..q] + [n] + Taken(O[..j], L) + O[q..];
    assert cur == K + B + R by {
      assert O[j..q] == O[j..e] + O[e..q];
    }
    assert R[0].level <= B[0].level by {
      if e < q {
        assert R[0] == O[e];
      } else {
        assert R[0] == n;
      }
    }
    forall m | 0 < m < |B|
      ensures B[m].level > B[0].level
    {
      assert B[m] == O[j + m];
    }
    BlockIsSubtree(cur, K, B, R);
    ec := t + (e - j);
  }

  /** A block whose later entries are all deeper than its first, followed by
      an entry that is not, is exactly the subtree of its first entry. */
  lemma {:induction false} BlockIsSubtree(s: seq<Node>, A: seq<Node>, B: seq<Node>, R: seq<Node>)
    requires s == A + B + R && 0 < |B|
    requires forall m :: 0 < m < |B| ==> B[m].level > B[0].level
    requires 0 < |R| ==> R[0].level <= B[0].level
    ensures SubtreeEnd(s, |A|) == |A| + |B| && s[|A|..|A| + |B|] == B
  {
    var t := |A|;
    forall m | t < m < t + |B|
      ensures s[m].level > s[t].level
    {
      assert s[m] == B[m - t] && s[t] == B[0];
    }
    if t + |B| < |s| {
      assert s[t + |B|] == R[0] && s[t] == B[0];
    }
    assert s[t..t + |B|] == B;
    SubtreeEndUnique(s, t, t + |B|);
  }

  /** Cutting the subtree of a selected entry before the new group: what
      is left, and where the group's children end in it. */
  lemma {:induction false} BeforeCut(O: seq<Node>, q: nat, n: Node, cur: seq<Node>, t: nat, gi: nat, j: nat, e: nat, ec: nat)
    requires q < |O| && n.level == O[q].level && Before(O, q, n, cur, t, gi, j) && j < q
    requires O[j].level == O[q].level && O[j].selected
    requires e == SubtreeEnd(O, j) && e <= q && ec == t + (e - j) && ec <= |cur|
    ensures cur[..t] + cur[ec..] == Kept(O[..j], O[q].level) + O[e..q] + [n] + Taken(O[..j], O[q].level) + O[q..]
  {
    var L := O[q].level;
    var K := Kept(O[..j], L);
    var T := Taken(O[..j], L);
    assert e <= q;
    assert O[j..q] == O[j..e] + O[e..q];
    assert cur == K + O[j..e] + (O[e..q] + [n] + T + O[q..]);
    CutBlock(K, O[j..e], O[e..q] + [n] + T + O[q..]);
  }

  /** Adding the cut subtree as the last child of the new group: the walk
      has then looked at the whole subtree and stands after it. */
  lemma {:induction false} BeforeAdd(O: seq<Node>, q: nat, n: Node, t: nat, j: nat, e: nat, rest: seq<Node>)
    returns (g: nat, a: nat, cur': seq<Node>)
    requires q < |O| && n.level == O[q].level && j < q
    requires O[j].level == O[q].level && O[j].selected
    requires e == SubtreeEnd(O, j) && e <= q && t == |Kept(O[..j], O[q].level)| && Boundary(O, j, O[q].level)
    requires rest == Kept(O[..j], O[q].level) + O[e..q] + [n] + Taken(O[..j], O[q].level) + O[q..]
    ensures g == t + (q - e) && g < a <= |rest| && rest[g] == n && SubtreeEnd(rest, g) == a && t < a
    ensures cur' == rest[..a] + Relevel(O[j..e], n.level + 1) + rest[a..]
    ensures Before(O, q, n, cur', t, g, e)
  {
    var L := O[q].level;
    var K := Kept(O[..j], L);
    var T := Taken(O[..j], L);
    var P := K + O[e..q];
    assert rest == P + [n] + T + O[q..];
    var X := Relevel(O[j..e], n.level + 1);
    assert X == Raised(O[j..e]);
    GroupEnd(P, n, T, O[q..]);
    Splice(P, n, T, O[q..], X);
    TakenBlock(O, j, e, L);
    g := t + (q - e);
    assert |P| == g;
    a := g + 1 + |T|;
    cur' := rest[..a] + X + rest[a..];
    assert cur' == P + [n] + (T + X) + O[q..];
    BeforeIntro(O, q, n, cur', t, g, e, K, T + X);
  }

  /** `Before`, from its parts named. */
  lemma {:induction false} BeforeIntro(O: seq<Node>, q: nat, n: Node, cur: seq<Node>, t: nat, gi: nat, j: nat, K: seq<Node>, T: seq<Node>)
    requires q < |O| && j <= q
    requires K == Kept(O[..j], O[q].level) && T == Taken(O[..j], O[q].level)
    requires t == |K| && gi == t + (q - j)
    requires cur == K + O[j..q] + [n] + T + O[q..] && Boundary(O, j, O[q].level)
    ensures Before(O, q, n, cur, t, gi, j)
  {
  }

  lemma {:induction false} CutBlock(K: seq<Node>, B: seq<Node>, R: seq<Node>)
    ensures (K + B + R)[..|K|] + (K + B + R)[|K| + |B|..] == K + R
  {
    assert (K + B + R)[..|K|] == K;
    assert (K + B + R)[|K| + |B|..] == R;
  }

  /** Adding `X` as the last children of `n`, which stands between `P` and
      its children `T`; `D` and `R` follow and are not deeper than `n`. */
  lemma {:induction false} InsertAfterGroup(P: seq<Node>, n: Node, T: seq<Node>, D: seq<Node>, R: seq<Node>, X: seq<Node>, s: seq<Node>)
    requires forall k :: 0 <= k < |T| ==> T[k].level > n.level
    requires |D| > 0 ==> D[0].level <= n.level
    requires |R| > 0 ==> R[0].level <= n.level
    requires s == P + [n] + T + D + R
    ensures var a := |P| + 1 + |T|;
            a <= |s| && s[|P|] == n && SubtreeEnd(s, |P|) == a && s[..a] + X + s[a..] == P + [n] + (T + X) + D + R
  {
    var Q := D + R;
    AppendAssoc(P + [n] + T, D, R);
    assert |Q| > 0 ==> Q[0].level <= n.level by {
      if |D| == 0 && |R| > 0 {
        assert Q[0] == R[0];
      }
    }
    GroupEnd(P, n, T, Q);
    Splice(P, n, T, Q, X);
    AppendAssoc(P + [n] + (T + X), D, R);
  }


  lemma {:induction false} Splice(P: seq<Node>, n: Node, T: seq<Node>, Q: seq<Node>, X: seq<Node>)
    ensures var s := P + [n] + T + Q;
            var a := |P| + 1 + |T|;
            a <= |s| && s[|P|] == n && s[..a] + X + s[a..] == P + [n] + (T + X) + Q
  {
    var s := P + [n] + T + Q;
    var a := |P| + 1 + |T|;
    assert s[..a] == P + [n] + T;
    assert s[a..] == Q;
  }

  /** The children of the new group `n` are the entries `T` after it, when
      they are all deeper and the entry after them is not. */
  lemma {:induction false} GroupEnd(P: seq<Node>, n: Node, T: seq<Node>, Q: seq<Node>)
    requires forall k :: 0 <= k < |T| ==> T[k].level > n.level
    requires |Q| > 0 ==> Q[0].level <= n.level
    ensures SubtreeEnd(P + [n] + T + Q, |P|) == |P| + 1 + |T|
  {
    var s := P + [n] + T + Q;
    forall m | |P| < m < |P| + 1 + |T|
      ensures s[m].level > s[|P|].level
    {
      assert s[m] == T[m - |P| - 1];
    }
    if |Q| > 0 {
      assert s[|P| + 1 + |T|] == Q[0];
    }
    SubtreeEndUnique(s, |P|, |P| + 1 + |T|);
  }

  /** Reaching the new group. */
  lemma {:induction false} BeforeToAtGroup(O: seq<Node>, q: nat, n: Node, cur: seq<Node>, t: nat, gi: nat)
    requires q < |O| && Before(O, q, n, cur, t, gi, q)
    ensures AtGroup(O, q, n, cur, t, gi) && t == gi
  {
    assert O[q..q] == [];
  }

  /** Passing over the new group and its children. */
  lemma {:induction false} AtGroupStep(O: seq<Node>, q: nat, n: Node, cur: seq<Node>, t: nat, gi: nat)
    requires q < |O| && n.level == O[q].level && AtGroup(O, q, n, cur, t, gi)
    ensures t < |cur| && gi < |cur| && cur[gi] == n && (t == gi || cur[t].level != n.level)
    ensures AtGroup(O, q, n, cur, t + 1, gi) || After(O, q, n, cur, t + 1, gi, q)
  {
    var L := O[q].level;
    var Kq := Kept(O[..q], L);
    var Tq := Taken(O[..q], L);
    assert cur == Kq + [n] + Tq + O[q..];
    if t > gi {
      assert cur[t] == Tq[t - gi - 1];
    }
    if t + 1 > gi + |Tq| {
      assert Kq[..|Kq|] == Kq && Kq[|Kq|..] == [];
      assert cur == Kq + [n] + Tq + Kq[|Kq|..] + O[q..];
    }
  }

  /** Where the walk stands after the new group. */
  lemma {:induction false} AfterView(O: seq<Node>, q: nat, n: Node, cur: seq<Node>, t: nat, gi: nat, j: nat)
    requires q < |O| && After(O, q, n, cur, t, gi, j) && j < |O|
    ensures gi < t < |cur| && cur[t] == O[j] && cur[gi] == n
  {
    var L := O[q].level;
    var Kq := Kept(O[..q], L);
    Locate(Kq, n, Taken(O[..j], L), Kept(O[..j], L)[|Kq|..], O[j..]);
  }

  lemma {:induction false} Locate(P: seq<Node>, n: Node, T: seq<Node>, D: seq<Node>, R: seq<Node>)
    requires |R| > 0
    ensures var s := P + [n] + T + D + R;
            |s| == |P| + 1 + |T| + |D| + |R| && s[|P|] == n && s[|P| + 1 + |T| + |D|] == R[0]
  {
  }

  /** Passing over an entry after the new group keeps it in place. */
  lemma {:induction false} AfterSkip(O: seq<Node>, q: nat, n: Node, cur: seq<Node>, t: nat, gi: nat, j: nat,
                  Kq: seq<Node>, K: seq<Node>, T: seq<Node>, Tq: seq<Node>)
    requires q < |O| && q <= j < |O|
    requires Kq == Kept(O[..q], O[q].level) && K == Kept(O[..j], O[q].level)
    requires T == Taken(O[..j], O[q].level) && Tq == Taken(O[..q], O[q].level)
    requires gi == |Kq| && |Kq| <= |K| && K[..|Kq|] == Kq && |Tq| <= |T|
    requires t == gi + 1 + |T| + (|K| - |Kq|)
    requires cur == Kq + [n] + T + K[|Kq|..] + O[j..] && Boundary(O, j, O[q].level)
    requires |K| > |Kq| ==> K[|Kq|].level <= O[q].level
    requires j > q && |K| == |Kq| ==> Moved(O[..j], O[q].level)
    requires !(O[j].level == O[q].level && O[j].selected)
    ensures After(O, q, n, cur, t + 1, gi, j + 1)
  {
    var L := O[q].level;
    StaysPut(O, j, L);
    var K' := K + [O[j]];
    Extend(K, O[j], |Kq|);
    if |K| == |Kq| && j > q {
      assert O[j].level <= L;
    }
    SkipIntro(O, q, n, cur, t, gi, j, Kq, K, T, Tq, K');
  }

  lemma {:induction false} SkipIntro(O: seq<Node>, q: nat, n: Node, cur: seq<Node>, t: nat, gi: nat, j: nat,
                  Kq: seq<Node>, K: seq<Node>, T: seq<Node>, Tq: seq<Node>, K': seq<Node>)
    requires q < |O| && q <= j < |O|
    requires Kq == Kept(O[..q], O[q].level) && K' == Kept(O[..j + 1], O[q].level)
    requires T == Taken(O[..j + 1], O[q].level) && Tq == Taken(O[..q], O[q].level)
    requires gi == |Kq| && |Kq| <= |K| && K' == K + [O[j]] && K'[..|Kq|] == Kq && |Tq| <= |T|
    requires K'[|Kq|..] == K[|Kq|..] + [O[j]]
    requires t == gi + 1 + |T| + (|K| - |Kq|)
    requires cur == Kq + [n] + T + K[|Kq|..] + O[j..] && !Moved(O[..j + 1], O[q].level)
    requires K'[|Kq|].level <= O[q].level
    ensures After(O, q, n, cur, t + 1, gi, j + 1)
  {
    assert O[j..] == [O[j]] + O[j + 1..];
    ShiftOne(Kq + [n] + T, K[|Kq|..], O[j], O[j + 1..], cur);
    AfterIntro(O, q, n, cur, t + 1, gi, j + 1, Kq, K', T, Tq);
  }

  /** An entry that is not a candidate and not inside a moved subtree stays. */
  lemma {:induction false} StaysPut(O: seq<Node>, j: nat, L: nat)
    requires j < |O| && Boundary(O, j, L) && !(O[j].level == L && O[j].selected)
    ensures !Moved(O[..j + 1], L)
    ensures Kept(O[..j + 1], L) == Kept(O[..j], L) + [O[j]] && Taken(O[..j + 1], L) == Taken(O[..j], L)
  {
    assert O[..j + 1][..j] == O[..j];
    KeptStep(O, j, L);
  }

  lemma {:induction false} Extend(K: seq<Node>, x: Node, m: nat)
    requires m <= |K|
    ensures (K + [x])[..m] == K[..m] && (K + [x])[m..] == K[m..] + [x]
  {
  }

  lemma {:induction false} ShiftOne(H: seq<Node>, D: seq<Node>, x: Node, R: seq<Node>, cur: seq<Node>)
    requires cur == H + D + ([x] + R)
    ensures cur == H + (D + [x]) + R
  {
    AppendAssoc(H + D, [x], R);
    AppendAssoc(H, D, [x]);
  }

  /** Adding the cut subtree as the last child of the new group: the walk
      stands after the moved subtree. */
  lemma {:induction false} AfterAdd(O: seq<Node>, q: nat, n: Node, t: nat, gi: nat, j: nat, e: nat, rest: seq<Node>, blk: seq<Node>, t': nat,
                 Kq: seq<Node>, K: seq<Node>, T: seq<Node>, Tq: seq<Node>) returns (a: nat, cur': seq<Node>)
    requires q < |O| && n.level == O[q].level && q <= j < |O|
    requires O[j].level == O[q].level && O[j].selected && e == SubtreeEnd(O, j) && blk == O[j..e] && t' == t + (e - j)
    requires Kq == Kept(O[..q], O[q].level) && K == Kept(O[..j], O[q].level)
    requires T == Taken(O[..j], O[q].level) && Tq == Taken(O[..q], O[q].level)
    requires gi == |Kq| && |Kq| <= |K| && K[..|Kq|] == Kq && |Tq| <= |T| && t == |Kq| + 1 + |T| + (|K| - |Kq|)
    requires |K| > |Kq| ==> K[|Kq|].level <= O[q].level
    requires rest == Kq + [n] + T + K[|Kq|..] + O[e..]
    ensures gi < |rest| && rest[gi] == n && a == SubtreeEnd(rest, gi) && a <= t
    ensures cur' == rest[..a] + Relevel(blk, n.level + 1) + rest[a..]
    ensures After(O, q, n, cur', t', gi, e)
  {
    var L := O[q].level;
    AddedAfter(O, n, j, e, gi, t, rest, blk, Kq, K, T);
    a := SubtreeEnd(rest, gi);
    cur' := rest[..a] + Relevel(blk, n.level + 1) + rest[a..];
    TakenBlock(O, j, e, L);
    AfterIntro(O, q, n, cur', t', gi, e, Kq, K, T + Raised(O[j..e]), Tq);
  }

  /** The sequence side of `AfterAdd`. */
  lemma {:induction false} AddedAfter(O: seq<Node>, n: Node, j: nat, e: nat, gi: nat, t: nat, rest: seq<Node>, blk: seq<Node>,
                   Kq: seq<Node>, K: seq<Node>, T: seq<Node>)
    requires j < |O| && O[j].level == n.level && e == SubtreeEnd(O, j) && blk == O[j..e]
    requires forall k :: 0 <= k < |T| ==> T[k].level > n.level
    requires gi == |Kq| && |Kq| <= |K| && (|K| > |Kq| ==> K[|Kq|].level <= n.level)
    requires t == |Kq| + 1 + |T| + (|K| - |Kq|)
    requires rest == Kq + [n] + T + K[|Kq|..] + O[e..]
    ensures gi < |rest| && rest[gi] == n && SubtreeEnd(rest, gi) == |Kq| + 1 + |T| <= t
    ensures forall k :: 0 <= k < |blk| ==> blk[k].level >= blk[0].level
    ensures var a := SubtreeEnd(rest, gi);
            rest[..a] + Relevel(blk, n.level + 1) + rest[a..] == Kq + [n] + (T + Raised(O[j..e])) + K[|Kq|..] + O[e..]
  {
    var X := Relevel(blk, n.level + 1);
    assert X == Raised(O[j..e]);
    assert |K[|Kq|..]| > 0 ==> K[|Kq|..][0].level <= n.level;
    assert |O[e..]| > 0 ==> O[e..][0].level <= n.level;
    InsertAfterGroup(Kq, n, T, K[|Kq|..], O[e..], X, rest);
  }

  /** `After`, from its parts named. */
  lemma {:induction false} AfterIntro(O: seq<Node>, q: nat, n: Node, cur: seq<Node>, t: nat, gi: nat, j: nat,
                   Kq: seq<Node>, K: seq<Node>, T: seq<Node>, Tq: seq<Node>)
    requires q < |O| && q <= j <= |O|
    requires Kq == Kept(O[..q], O[q].level) && K == Kept(O[..j], O[q].level)
    requires T == Taken(O[..j], O[q].level) && Tq == Taken(O[..q], O[q].level)
    requires gi == |Kq| && |Kq| <= |K| && K[..|Kq|] == Kq && |Tq| <= |T|
    requires t == gi + 1 + |T| + (|K| - |Kq|)
    requires cur == Kq + [n] + T + K[|Kq|..] + O[j..] && Boundary(O, j, O[q].level)
    requires |K| > |Kq| ==> K[|Kq|].level <= O[q].level
    requires j > q && |K| == |Kq| ==> Moved(O[..j], O[q].level)
    ensures After(O, q, n, cur, t, gi, j)
  {
  }

  /** When the walk runs off the end, it has moved everything it should. */
  lemma {:induction false} AfterEnd(O: seq<Node>, q: nat, n: Node, cur: seq<Node>, t: nat, gi: nat, j: nat)
    requires q < |O| && After(O, q, n, cur, t, gi, j) && t >= |cur|
    ensures j == |O|
    ensures var L := O[q].level;
            |Kept(O[..q], L)| <= |Kept(O, L)| &&
            cur == Kept(O[..q], L) + [n] + Taken(O, L) + Kept(O, L)[|Kept(O[..q], L)|..]
  {
    assert O[..|O|] == O;
    assert O[|O|..] == [];
  }

  /** The state of the walk of `group_cb` at entry `t`, the new group at `gi`,
      having looked at `O[..j]`. */
  ghost predicate Walk(O: seq<Node>, q: nat, n: Node, cur: seq<Node>, t: nat, gi: nat, j: nat)
    requires q < |O|
  {
    Before(O, q, n, cur, t, gi, j) || (j == q && AtGroup(O, q, n, cur, t, gi)) || After(O, q, n, cur, t, gi, j)
  }

  lemma {:induction false} WalkStart(O: seq<Node>, q: nat, n: Node, cur: seq<Node>)
    requires q < |O| && cur == O[..q] + [n] + O[q..]
    ensures Walk(O, q, n, cur, 0, q, 0)
  {
    assert O[..0] == [];
    assert O[0..q] == O[..q];
    assert cur == Kept(O[..0], O[q].level) + O[0..q] + [n] + Taken(O[..0], O[q].level) + O[q..];
  }

  /** What holds at every step: the length, and where the new group is. */
  lemma {:induction false} WalkView(O: seq<Node>, q: nat, n: Node, cur: seq<Node>, t: nat, gi: nat, j: nat)
    requires q < |O| && Walk(O, q, n, cur, t, gi, j)
    ensures j <= |O| && |cur| == |O| + 1 && gi < |cur| && cur[gi] == n
    ensures t >= |cur| ==> After(O, q, n, cur, t, gi, j)
  {
    var L := O[q].level;
    if Before(O, q, n, cur, t, gi, j) {
      var K := Kept(O[..j], L);
      assert cur == K + O[j..q] + [n] + Taken(O[..j], L) + O[q..];
      assert cur[gi] == n;
    } else if j == q && AtGroup(O, q, n, cur, t, gi) {
      assert cur[gi] == n;
    } else {
      var Kq := Kept(O[..q], L);
      assert cur == Kq + [n] + Taken(O[..j], L) + Kept(O[..j], L)[|Kq|..] + O[j..];
      assert cur[gi] == n;
    }
  }

  /** An entry the loop passes over. */
  lemma {:induction false} WalkSkip(O: seq<Node>, q: nat, n: Node, cur: seq<Node>, t: nat, gi: nat, j: nat) returns (j': nat)
    requires q < |O| && n.level == O[q].level && Walk(O, q, n, cur, t, gi, j)
    requires t < |cur| && gi < |cur| && cur[gi] == n
    requires cur[t].level != n.level || t == gi || !cur[t].selected
    ensures Walk(O, q, n, cur, t + 1, gi, j') && j <= j'
  {
    if t < gi {
      assert Before(O, q, n, cur, t, gi, j) && j < q;
      BeforeView(O, q, n, cur, t, gi, j);
      BeforeSkip(O, q, n, cur, t, gi, j);
      j' := j + 1;
    } else if Before(O, q, n, cur, t, gi, j) {
      BeforeToAtGroup(O, q, n, cur, t, gi);
      AtGroupStep(O, q, n, cur, t, gi);
      j' := q;
    } else if j == q && AtGroup(O, q, n, cur, t, gi) {
      AtGroupStep(O, q, n, cur, t, gi);
      j' := q;
    } else {
      WalkView(O, q, n, cur, t, gi, j);
      AfterView(O, q, n, cur, t, gi, j);
      var L := O[q].level;
      AfterSkip(O, q, n, cur, t, gi, j, Kept(O[..q], L), Kept(O[..j], L), Taken(O[..j], L), Taken(O[..q], L));
      j' := j + 1;
    }
  }

  /** A selected entry at the group's level: the loop moves its subtree
      `block`, cut out of `cur` to leave `rest`, to the end of the group's
      children. */
  lemma {:induction false} WalkMove(O: seq<Node>, q: nat, n: Node, cur: seq<Node>, t: nat, gi: nat, j: nat,
                 ec: nat, rest: seq<Node>, block: seq<Node>) returns (j': nat, g: nat, a: nat, cur': seq<Node>, t': nat)
    requires q < |O| && n.level == O[q].level && Walk(O, q, n, cur, t, gi, j)
    requires t < |cur| && gi < |cur| && cur[gi] == n
    requires cur[t].level == n.level && t != gi && cur[t].selected
    requires ec == SubtreeEnd(cur, t) && rest == cur[..t] + cur[ec..] && block == cur[t..ec]
    requires 0 < |block| && forall k :: 0 <= k < |block| ==> block[k].level >= block[0].level
    ensures g == (if t < gi then gi - |block| else gi) && g < |rest| && rest[g] == n && a == SubtreeEnd(rest, g)
    ensures cur' == rest[..a] + Relevel(block, n.level + 1) + rest[a..]
    ensures t' == (if a <= t then t + |block| else t)
    ensures Walk(O, q, n, cur', t', g, j') && j < j'
  {
    if t < gi {
      assert Before(O, q, n, cur, t, gi, j) && j < q;
      j', g, a, cur' := WalkMoveBefore(O, q, n, cur, t, gi, j, ec, rest, block);
      t' := t;
    } else {
      if j == q && AtGroup(O, q, n, cur, t, gi) {
        AtGroupStep(O, q, n, cur, t, gi);
        assert false;
      }
      WalkView(O, q, n, cur, t, gi, j);
      AfterView(O, q, n, cur, t, gi, j);
      var L := O[q].level;
      j', a, cur' := WalkMoveAfter(O, q, n, cur, t, gi, j, Kept(O[..q], L), Kept(O[..j], L), Taken(O[..j], L), Taken(O[..q], L),
                                   ec, rest, block);
      g := gi;
      t' := t + |block|;
    }
  }

  /** The facts the loop of `group_cb` needs before it moves `cur[t]`. */
  lemma {:induction false} WalkMovePrep(O: seq<Node>, q: nat, n: Node, cur: seq<Node>, t: nat, gi: nat, j: nat,
                     rest: seq<Node>, block: seq<Node>, g: int)
    requires q < |O| && n.level == O[q].level && Walk(O, q, n, cur, t, gi, j)
    requires t < |cur| && gi < |cur| && cur[gi] == n
    requires cur[t].level == n.level && t != gi && cur[t].selected
    requires (rest, block) == Detach(cur, t) && g == if t < gi then gi - |block| else gi
    ensures 0 <= g < |rest| && rest[g] == n
  {
    var ec := DetachForm(cur, t, rest, block);
    var j', g', a, cur', t' := WalkMove(O, q, n, cur, t, gi, j, ec, rest, block);
  }

  /** `Detach` with the end of the cut subtree named. */
  lemma {:induction false} DetachForm(cur: seq<Node>, t: nat, rest: seq<Node>, block: seq<Node>) returns (ec: nat)
    requires t < |cur| && (rest, block) == Detach(cur, t)
    ensures ec == SubtreeEnd(cur, t) && rest == cur[..t] + cur[ec..] && block == cur[t..ec]
  {
    ec := SubtreeEnd(cur, t);
  }

  /** One move of the loop of `group_cb`, in the loop's own terms. */
  lemma {:induction false} WalkMoveTo(O: seq<Node>, q: nat, n: Node, cur: seq<Node>, t: nat, gi: nat, j: nat,
                   rest: seq<Node>, block: seq<Node>, g: nat, cur': seq<Node>, t': nat) returns (j': nat)
    requires q < |O| && n.level == O[q].level && Walk(O, q, n, cur, t, gi, j)
    requires t < |cur| && gi < |cur| && cur[gi] == n
    requires cur[t].level == n.level && t != gi && cur[t].selected
    requires (rest, block) == Detach(cur, t) && g == (if t < gi then gi - |block| else gi) && g < |rest|
    requires cur' == AttachLast(rest, block, g)
    requires t' == if SubtreeEnd(rest, g) <= t then t + |block| else t
    ensures Walk(O, q, n, cur', t', g, j') && j < j'
    ensures |cur'| == |O| + 1 && g < |cur'| && cur'[g] == n && j' <= |O| && t' <= |cur'|
  {
    var ec := DetachForm(cur, t, rest, block);
    var g0, a, c, t0;
    j', g0, a, c, t0 := WalkMove(O, q, n, cur, t, gi, j, ec, rest, block);
    AttachForm(rest, block, g, n, a, c);
    WalkView(O, q, n, cur', t', g, j');
  }

  /** `AttachLast` with the end of the group's subtree named. */
  lemma {:induction false} AttachForm(rest: seq<Node>, block: seq<Node>, g: nat, n: Node, a: nat, c: seq<Node>)
    requires g < |rest| && rest[g] == n && a == SubtreeEnd(rest, g)
    requires 0 < |block| && forall k :: 0 <= k < |block| ==> block[k].level >= block[0].level
    requires c == rest[..a] + Relevel(block, n.level + 1) + rest[a..]
    ensures c == AttachLast(rest, block, g)
  {
  }

  lemma {:induction false} WalkMoveBefore(O: seq<Node>, q: nat, n: Node, cur: seq<Node>, t: nat, gi: nat, j: nat,
                       ec: nat, rest: seq<Node>, block: seq<Node>) returns (j': nat, g: nat, a: nat, cur': seq<Node>)
    requires q < |O| && n.level == O[q].level && Before(O, q, n, cur, t, gi, j) && j < q
    requires t < |cur| && cur[t].level == n.level && cur[t].selected
    requires ec == SubtreeEnd(cur, t) && rest == cur[..t] + cur[ec..] && block == cur[t..ec]
    ensures g == gi - |block| && g < |rest| && rest[g] == n && a == SubtreeEnd(rest, g) && t < a
    ensures cur' == rest[..a] + Relevel(block, n.level + 1) + rest[a..]
    ensures Before(O, q, n, cur', t, g, j') && j < j'
  {
    BeforeView(O, q, n, cur, t, gi, j);
    var e, ec' := BeforeSubtree(O, q, n, cur, t, gi, j);
    BeforeCut(O, q, n, cur, t, gi, j, e, ec);
    g, a, cur' := BeforeAdd(O, q, n, t, j, e, rest);
    assert block == O[j..e];
    j' := e;
  }

  lemma {:induction false} WalkMoveAfter(O: seq<Node>, q: nat, n: Node, cur: seq<Node>, t: nat, gi: nat, j: nat,
                      Kq: seq<Node>, K: seq<Node>, T: seq<Node>, Tq: seq<Node>,
                      ec: nat, rest: seq<Node>, block: seq<Node>) returns (j': nat, a: nat, cur': seq<Node>)
    requires q < |O| && n.level == O[q].level && q <= j < |O|
    requires Kq == Kept(O[..q], O[q].level) && K == Kept(O[..j], O[q].level)
    requires T == Taken(O[..j], O[q].level) && Tq == Taken(O[..q], O[q].level)
    requires gi == |Kq| && |Kq| <= |K| && K[..|Kq|] == Kq && |Tq| <= |T|
    requires t == gi + 1 + |T| + (|K| - |Kq|)
    requires cur == Kq + [n] + T + K[|Kq|..] + O[j..]
    requires |K| > |Kq| ==> K[|Kq|].level <= O[q].level
    requires cur[t] == O[j] && O[j].level == n.level && O[j].selected
    requires ec == SubtreeEnd(cur, t) && rest == cur[..t] + cur[ec..] && block == cur[t..ec]
    ensures gi < |rest| && rest[gi] == n && a == SubtreeEnd(rest, gi) && a <= t
    ensures cur' == rest[..a] + Relevel(block, n.level + 1) + rest[a..]
    ensures After(O, q, n, cur', t + |block|, gi, j') && j < j'
  {
    var H := Kq + [n] + T + K[|Kq|..];
    var e, ec' := CutAt(O, j, H, cur, t);
    a, cur' := AfterAdd(O, q, n, t, gi, j, e, rest, block, t + |block|, Kq, K, T, Tq);
    j' := e;
  }

  /** Cutting the subtree of `O[j]` out of a design that ends with `O[j..]`. */
  lemma {:induction false} CutAt(O: seq<Node>, j: nat, H: seq<Node>, cur: seq<Node>, t: nat) returns (e: nat, ec: nat)
    requires j < |O| && cur == H + O[j..] && t == |H|
    ensures e == SubtreeEnd(O, j) && ec == t + (e - j)
    ensures t < |cur| && SubtreeEnd(cur, t) == ec && cur[t..ec] == O[j..e] && cur[..t] + cur[ec..] == H + O[e..]
  {
    e := SubtreeEnd(O, j);
    assert O[j..] == O[j..e] + O[e..];
    assert cur == H + O[j..e] + O[e..];
    CutBlock(H, O[j..e], O[e..]);
    forall m | t < m < t + (e - j)
      ensures cur[m].level > cur[t].level
    {
      assert cur[m] == O[j + (m - t)];
    }
    if t + (e - j) < |cur| {
      assert cur[t + (e - j)] == O[e];
    }
    SubtreeEndUnique(cur, t, t + (e - j));
    ec := t + (e - j);
  }

  /** When the loop ends, the design is the walked design. */
  lemma {:induction false} WalkEnd(O: seq<Node>, q: nat, n: Node, cur: seq<Node>, t: nat, gi: nat, j: nat)
    requires q < |O| && Walk(O, q, n, cur, t, gi, j) && t >= |cur|
    ensures cur == Walked(O, q, n) && gi == |Kept(O[..q], O[q].level)|
  {
    WalkView(O, q, n, cur, t, gi, j);
    AfterEnd(O, q, n, cur, t, gi, j);
  }

  // ---- ungroup_cb

  /** The group `ungroup_cb` dissolves: the parent of the current entry's
      widget, unless there is none, it is at level 0, or it is a widget
      class at level 1. */
  function UngroupTarget(s: seq<Node>, cur: Option<nat>): (q: Option<nat>)
    requires cur.Some? ==> cur.value < |s|
    ensures q.Some? ==> q.value < |s| && s[q.value].level >= 1
    ensures q.Some? ==> !(s[q.value].level == 1 && s[q.value].isWidgetClass)
    ensures q.Some? ==> cur.Some? && WidgetAncestor(s, cur.value).Some? &&
                        q.value < WidgetAncestor(s, cur.value).value < SubtreeEnd(s, q.value)
    ensures q.Some? ==> Parent(s, WidgetAncestor(s, cur.value).value) == q
    ensures cur.Some? && WidgetAncestor(s, cur.value).Some? &&
            Parent(s, WidgetAncestor(s, cur.value).value).Some? &&
            Groupable(s, Parent(s, WidgetAncestor(s, cur.value).value).value) ==>
            q == Parent(s, WidgetAncestor(s, cur.value).value)
    ensures cur.None? ==> q.None?
  {
    var w := if cur.Some? then WidgetAncestor(s, cur.value) else None;
    var p := if w.Some? then Parent(s, w.value) else None;
    if p.None? || !Groupable(s, p.value) then None
    else p
  }

  /** Every direct child of `s[q]` is selected. */
  predicate ChildrenSelected(s: seq<Node>, q: nat)
    requires q < |s|
  {
    forall m :: q < m < SubtreeEnd(s, q) && s[m].level == s[q].level + 1 ==> s[m].selected
  }

  /** The entries inside a subtree are deeper than its root, hence at level 1 or more. */
  lemma {:induction false} InsideDeeper(s: seq<Node>, q: nat, k: nat, b: seq<Node>)
    requires q < |s| && q < k <= SubtreeEnd(s, q) && b == s[q + 1..k]
    ensures forall m :: 0 <= m < |b| ==> b[m].level >= 1
  {
    forall m | 0 <= m < |b|
      ensures b[m].level >= 1
    {
      assert b[m] == s[q + 1 + m];
    }
  }

  /** The design during the loop of `ungroup_cb`: the children of `s[q]`
      before `k` have been moved, one level up, in front of it. */
  function Hoisted(s: seq<Node>, q: nat, k: nat): (r: seq<Node>)
    requires q < |s| && q < k <= SubtreeEnd(s, q)
    ensures |r| == |s|
  {
    InsideDeeper(s, q, k, s[q + 1..k]);
    s[..q] + Lowered(s[q + 1..k]) + [s[q]] + s[k..]
  }

  /** The design after `ungroup_cb` dissolved the group `s[q]`: its subtree
      one level up in its place, the group entry gone. */
  function Ungrouped(s: seq<Node>, q: nat): (r: seq<Node>)
    requires q < |s|
    ensures |r| == |s| - 1
  {
    var e := SubtreeEnd(s, q);
    InsideDeeper(s, q, e, s[q + 1..e]);
    s[..q] + Lowered(s[q + 1..e]) + s[e..]
  }

  /** The entries of `s` from `k` on decide the subtree end at `k`. */
  lemma {:induction false} SameTail(s: seq<Node>, O: seq<Node>, k: nat)
    requires |s| == |O| && k < |s| && s[k..] == O[k..]
    ensures SubtreeEnd(s, k) == SubtreeEnd(O, k)
  {
    var e := SubtreeEnd(O, k);
    forall m | k <= m < |s|
      ensures s[m] == O[m]
    {
      assert s[m] == s[k..][m - k];
    }
    SubtreeEndUnique(s, k, e);
  }

  /** A child's subtree ends within its parent's. */
  lemma {:induction false} ChildEnd(s: seq<Node>, q: nat, k: nat)
    requires q < |s| && q < k < SubtreeEnd(s, q)
    ensures SubtreeEnd(s, k) <= SubtreeEnd(s, q)
  {
  }

  /** Where the loop of `ungroup_cb` stands: the loop goes on exactly while
      `k` is inside the group, and the entry there is then a direct child. */
  ghost predicate Hoisting(O: seq<Node>, q: nat, k: nat, s: seq<Node>, qpos: nat)
    requires q < |O|
  {
    q < k <= SubtreeEnd(O, q) && s == Hoisted(O, q, k) && qpos == k - 1 &&
    (k < SubtreeEnd(O, q) ==> O[k].level == O[q].level + 1)
  }

  /** The loop test of `ungroup_cb`, `n && n->level > q->level`, in terms of the design before. */
  lemma {:induction false} HoistingTest(O: seq<Node>, q: nat, k: nat, s: seq<Node>, qpos: nat)
    requires q < |O| && Hoisting(O, q, k, s, qpos)
    ensures qpos < |s| && s[qpos] == O[q]
    ensures (qpos + 1 < |s| && s[qpos + 1].level > s[qpos].level) <==> k < SubtreeEnd(O, q)
  {
    InsideDeeper(O, q, k, O[q + 1..k]);
    var P := O[..q] + Lowered(O[q + 1..k]);
    assert s == P + [O[q]] + O[k..];
    assert s[qpos] == O[q];
    if k < |O| {
      assert s[qpos + 1] == O[k];
    }
  }

  /** Hoisting starts with no child moved, on a well-formed design. */
  lemma {:induction false} HoistingStart(O: seq<Node>, q: nat)
    requires q < |O| && WellFormed(O)
    ensures Hoisting(O, q, q + 1, O, q)
  {
    InsideDeeper(O, q, q + 1, O[q + 1..q + 1]);
    assert O[q + 1..q + 1] == [];
    assert Lowered([]) == [];
    assert O == O[..q] + [O[q]] + O[q + 1..];
  }

  /** One turn of the loop of `ungroup_cb`: `nxt = n->remove(); n->insert(q); n = nxt`. */
  lemma {:induction false} HoistingStep(O: seq<Node>, q: nat, k: nat, s: seq<Node>, qpos: nat, rest: seq<Node>, block: seq<Node>)
    returns (e: nat)
    requires q < |O| && Hoisting(O, q, k, s, qpos) && k < SubtreeEnd(O, q)
    requires qpos + 1 < |s| && (rest, block) == Detach(s, qpos + 1) && qpos < |rest|
    ensures k < e && Hoisting(O, q, e, InsertBefore(rest, block, qpos), qpos + |block|)
    ensures var s', qpos' := InsertBefore(rest, block, qpos), qpos + |block|;
            (qpos' + 1 < |s'| && s'[qpos' + 1].level > s'[qpos'].level) <==> e < SubtreeEnd(O, q)
  {
    e := HoistingDetach(O, q, k, s, qpos, rest, block);
    HoistingInsert(O, q, k, e, s, qpos, rest, block);
    var s' := InsertBefore(rest, block, qpos);
    assert |block| == e - k;
    if e < SubtreeEnd(O, q) {
      assert O[e].level <= O[k].level;
    }
    HoistingTest(O, q, e, s', qpos + |block|);
  }

  /** `n->remove()` in the loop of `ungroup_cb` cuts out the subtree of the
      direct child `O[k]`, which ends inside the group. */
  lemma {:induction false} HoistingDetach(O: seq<Node>, q: nat, k: nat, s: seq<Node>, qpos: nat, rest: seq<Node>, block: seq<Node>)
    returns (e: nat)
    requires q < |O| && Hoisting(O, q, k, s, qpos) && k < SubtreeEnd(O, q)
    requires qpos + 1 < |s| && (rest, block) == Detach(s, qpos + 1)
    ensures k < e <= SubtreeEnd(O, q) && e == SubtreeEnd(O, k)
    ensures rest == s[..k] + O[e..] && block == O[k..e] && 0 < |block|
    ensures forall m :: 0 <= m < |block| ==> block[m].level >= block[0].level
  {
    InsideDeeper(O, q, k, O[q + 1..k]);
    var A := O[..q] + Lowered(O[q + 1..k]);
    assert s == A + [O[q]] + O[k..];
    assert s[k..] == O[k..];
    SameTail(s, O, k);
    e := SubtreeEnd(O, k);
    ChildEnd(O, q, k);
    DetachAfter(s, A, O[q], O[k..], k, e - k, rest, block);
    SliceOfSuffix(O, k, e);
    assert s[..k] == A + [O[q]];
  }

  /** `n->insert(q)` puts the cut subtree, one level up, just before the group. */
  lemma {:induction false} HoistingInsert(O: seq<Node>, q: nat, k: nat, e: nat, s: seq<Node>, qpos: nat, rest: seq<Node>, block: seq<Node>)
    requires q < |O| && Hoisting(O, q, k, s, qpos) && k < e <= SubtreeEnd(O, q)
    requires rest == s[..k] + O[e..] && block == O[k..e] && 0 < |block|
    requires forall m :: 0 <= m < |block| ==> block[m].level >= block[0].level
    ensures qpos < |rest| && InsertBefore(rest, block, qpos) == Hoisted(O, q, e)
  {
    InsideDeeper(O, q, k, O[q + 1..k]);
    var A := O[..q] + Lowered(O[q + 1..k]);
    assert s == A + [O[q]] + O[k..];
    assert s[..k] == A + [O[q]];
    assert rest == A + [O[q]] + O[e..];
    var s' := InsertBefore(rest, block, qpos);
    InsertAt(A, O[q], O[e..], block, rest, s');
    assert block[0] == O[k];
    RelevelUp(block, O[q].level);
    InsideDeeper(O, q, e, O[q + 1..e]);
    SliceSplit(O, q + 1, k, e);
    LoweredJoin(O[..q], O[q + 1..k], block, O[q + 1..e], O[q], O[e..], s');
  }

  lemma {:induction false} SliceOfSuffix(O: seq<Node>, k: nat, e: nat)
    requires k <= e <= |O|
    ensures O[k..][e - k..] == O[e..] && O[k..][..e - k] == O[k..e]
  {
  }

  lemma {:induction false} SliceSplit(O: seq<Node>, a: nat, b: nat, c: nat)
    requires a <= b <= c <= |O|
    ensures O[a..c] == O[a..b] + O[b..c]
  {
  }

  /** Cutting the subtree just after `A + [x]` leaves the rest of `T`. */
  lemma {:induction false} DetachAfter(s: seq<Node>, A: seq<Node>, x: Node, T: seq<Node>, k: nat, d: nat, rest: seq<Node>, block: seq<Node>)
    requires s == A + [x] + T && |A| + 1 == k && k < |s| && SubtreeEnd(s, k) == k + d
    requires (rest, block) == Detach(s, k)
    ensures d <= |T| && rest == A + [x] + T[d..] && block == T[..d]
  {
  }

  /** `insert` before the entry after `A`. */
  lemma {:induction false} InsertAt(A: seq<Node>, x: Node, R: seq<Node>, b: seq<Node>, rest: seq<Node>, r: seq<Node>)
    requires rest == A + [x] + R && 0 < |b| && forall k :: 0 <= k < |b| ==> b[k].level >= b[0].level
    requires r == InsertBefore(rest, b, |A|)
    ensures r == A + Relevel(b, x.level) + ([x] + R)
  {
    assert rest[..|A|] == A && rest[|A|..] == [x] + R;
  }

  /** Moving a child's subtree to its parent's level lowers it by one. */
  lemma {:induction false} RelevelUp(b: seq<Node>, L: nat)
    requires 0 < |b| && b[0].level == L + 1 && forall k :: 0 <= k < |b| ==> b[k].level >= b[0].level
    ensures forall k :: 0 <= k < |b| ==> b[k].level >= 1
    ensures Relevel(b, L) == Lowered(b)
  {
  }

  /** Lowering two adjacent runs lowers their concatenation. */
  lemma {:induction false} LoweredJoin(A0: seq<Node>, P: seq<Node>, B: seq<Node>, C: seq<Node>, x: Node, R: seq<Node>, r: seq<Node>)
    requires C == P + B
    requires forall m :: 0 <= m < |P| ==> P[m].level >= 1
    requires forall m :: 0 <= m < |B| ==> B[m].level >= 1
    requires r == A0 + Lowered(P) + Lowered(B) + ([x] + R)
    ensures forall m :: 0 <= m < |C| ==> C[m].level >= 1
    ensures r == A0 + Lowered(C) + [x] + R
  {
    LoweredAppend(P, B);
    AppendAssoc(A0, Lowered(P), Lowered(B));
  }

  /** After the loop, `delete q` leaves the dissolved group. */
  lemma {:induction false} HoistingEnd(O: seq<Node>, q: nat, k: nat, s: seq<Node>, qpos: nat)
    requires q < |O| && Hoisting(O, q, k, s, qpos) && !(k < SubtreeEnd(O, q))
    ensures qpos < |s| && s[..qpos] + s[qpos + 1..] == Ungrouped(O, q)
  {
    var E := SubtreeEnd(O, q);
    assert k == E;
    InsideDeeper(O, q, E, O[q + 1..E]);
    var A := O[..q] + Lowered(O[q + 1..E]);
    assert s == A + [O[q]] + O[E..];
    assert s[..qpos] == A && s[qpos + 1..] == O[E..];
  }

  /** Dissolving a group keeps the listing well formed. */
  lemma {:induction false} UngroupedWellFormed(s: seq<Node>, q: nat)
    requires q < |s| && WellFormed(s)
    ensures WellFormed(Ungrouped(s, q))
  {
    var E := SubtreeEnd(s, q);
    var r := Ungrouped(s, q);
    InsideDeeper(s, q, E, s[q + 1..E]);
    var A := s[..q];
    var B := Lowered(s[q + 1..E]);
    assert r == A + B + s[E..];
    forall i | 0 < i < |r|
      ensures r[i].level <= r[i - 1].level + 1
    {
      if i < q {
        assert r[i] == s[i] && r[i - 1] == s[i - 1];
      } else if i < E - 1 {
        assert r[i] == B[i - q] == Shifted(s[q + 1..E][i - q], -1) && s[q + 1..E][i - q] == s[i + 1];
        if i > q {
          assert r[i - 1] == B[i - 1 - q] == Shifted(s[q + 1..E][i - 1 - q], -1) && s[q + 1..E][i - 1 - q] == s[i];
        } else {
          assert r[i - 1] == s[q - 1];
        }
      } else {
        assert r[i] == s[i + 1];
        if i - 1 >= E - 1 {
          assert r[i - 1] == s[i];
        } else if i - 1 >= q {
          assert r[i - 1] == B[i - 1 - q] == Shifted(s[q + 1..E][i - 1 - q], -1) && s[q + 1..E][i - 1 - q] == s[i];
        } else {
          assert r[i - 1] == s[q - 1];
        }
      }
    }
  }

  // ---- group_cb keeps the listing well formed

  /** What the levels of a prefix `p` of the design tell about its kept
      entries `K` and taken entries `T`: each forms a pre-order listing, the
      first taken entry is a direct child of the new group, and the last
      entry of `p` (taken or not, as `moved` says) is where the next one may
      follow it. */
  ghost predicate SplitShape(K: seq<Node>, T: seq<Node>, L: nat, p: seq<Node>, moved: bool)
  {
    WellFormed(K) && WellFormed(T) &&
    (|T| > 0 ==> T[0].level == L + 1) &&
    (|p| > 0 && !moved ==> |K| > 0 && K[|K| - 1] == p[|p| - 1]) &&
    (|p| > 0 && moved ==> |T| > 0 && T[|T| - 1].level == p[|p| - 1].level + 1 &&
                          (|K| > 0 ==> K[|K| - 1].level + 1 >= L))
  }

  /** `SplitShape` for the prefix `O[..k]`. */
  ghost predicate SplitWellFormed(O: seq<Node>, k: nat, L: nat)
    requires k <= |O|
  {
    SplitShape(Kept(O[..k], L), Taken(O[..k], L), L, O[..k], k > 0 && Moved(O[..k], L))
  }

  /** One more entry `x`, at most one level below the last, keeps the shape:
      it joins the taken entries when it moves and the kept ones otherwise. */
  lemma {:induction false} ShapeStep(K: seq<Node>, T: seq<Node>, L: nat, p: seq<Node>, moved: bool, x: Node, moved': bool)
    requires SplitShape(K, T, L, p, moved) && (|p| == 0 ==> !moved && K == [] && T == [])
    requires |p| > 0 ==> x.level <= p[|p| - 1].level + 1
    requires forall k :: 0 <= k < |T| ==> T[k].level > L
    requires moved' == if x.level <= L then x.level == L && x.selected else |p| > 0 && moved
    ensures moved' ==> SplitShape(K, T + [Shifted(x, 1)], L, p + [x], true)
    ensures !moved' ==> SplitShape(K + [x], T, L, p + [x], false)
  {
    if moved' {
      SnocWellFormed(T, Shifted(x, 1));
      assert (T + [Shifted(x, 1)])[0] == (if |T| > 0 then T[0] else Shifted(x, 1));
    } else {
      SnocWellFormed(K, x);
    }
  }

  /** Appending an entry at most one level deeper than the last keeps a listing well formed. */
  lemma {:induction false} SnocWellFormed(A: seq<Node>, x: Node)
    requires WellFormed(A) && (|A| > 0 ==> x.level <= A[|A| - 1].level + 1)
    ensures WellFormed(A + [x])
  {
    var r := A + [x];
    forall i | 0 < i < |r|
      ensures r[i].level <= r[i - 1].level + 1
    {
      if i < |A| {
        assert r[i] == A[i] && r[i - 1] == A[i - 1];
      } else {
        assert r[i] == x && r[i - 1] == A[|A| - 1];
      }
    }
  }

  /** Two well-formed listings joined where the second starts at most one level below the first's end. */
  lemma {:induction false} JoinWellFormed(A: seq<Node>, B: seq<Node>)
    requires WellFormed(A) && WellFormed(B)
    requires |A| > 0 && |B| > 0 ==> B[0].level <= A[|A| - 1].level + 1
    ensures WellFormed(A + B)
  {
    var r := A + B;
    forall i | 0 < i < |r|
      ensures r[i].level <= r[i - 1].level + 1
    {
      if i < |A| {
        assert r[i] == A[i] && r[i - 1] == A[i - 1];
      } else if i == |A| {
        assert r[i] == B[0] && r[i - 1] == A[|A| - 1];
      } else {
        assert r[i] == B[i - |A|] && r[i - 1] == B[i - 1 - |A|];
      }
    }
  }

  /** One more entry of a well-formed design keeps `SplitWellFormed`. */
  lemma {:induction false} SplitStep(O: seq<Node>, k: nat, L: nat)
    requires k < |O| && WellFormed(O) && SplitWellFormed(O, k, L)
    ensures SplitWellFormed(O, k + 1, L)
  {
    var x := O[k];
    var p := O[..k];
    var moved := k > 0 && Moved(p, L);
    if k > 0 {
      assert x.level <= p[|p| - 1].level + 1;
    } else {
      assert p == [];
    }
    var K', T', moved' := SplitNext(O, k, L);
    ShapeStep(Kept(p, L), Taken(p, L), L, p, moved, x, moved');
  }

  /** How the kept and taken entries and the last entry's fate change from `O[..k]` to `O[..k + 1]`. */
  lemma {:induction false} SplitNext(O: seq<Node>, k: nat, L: nat) returns (K': seq<Node>, T': seq<Node>, moved': bool)
    requires k < |O|
    ensures K' == Kept(O[..k + 1], L) && T' == Taken(O[..k + 1], L) && moved' == Moved(O[..k + 1], L)
    ensures O[..k + 1] == O[..k] + [O[k]]
    ensures moved' == if O[k].level <= L then O[k].level == L && O[k].selected else k > 0 && Moved(O[..k], L)
    ensures moved' ==> K' == Kept(O[..k], L) && T' == Taken(O[..k], L) + [Shifted(O[k], 1)]
    ensures !moved' ==> K' == Kept(O[..k], L) + [O[k]] && T' == Taken(O[..k], L)
  {
    MovedStep(O, k, k + 1, L);
    K', T', moved' := Kept(O[..k + 1], L), Taken(O[..k + 1], L), Moved(O[..k + 1], L);
    if !moved' {
      KeptStep(O, k, L);
    }
  }

  /** Every prefix of a well-formed design satisfies `SplitWellFormed`. */
  lemma {:induction false} SplitAll(O: seq<Node>, k: nat, L: nat)
    requires k <= |O| && WellFormed(O)
    ensures SplitWellFormed(O, k, L)
    decreases k
  {
    if k == 0 {
      assert O[..0] == [];
    } else {
      SplitAll(O, k - 1, L);
      SplitStep(O, k - 1, L);
    }
  }

  /** The first entry kept from `O[q..]` (where `O[q]` is at level `L`) is not deeper than `L`. */
  lemma {:induction false} FirstKeptAfter(O: seq<Node>, q: nat, k: nat, L: nat)
    requires q < |O| && O[q].level == L && q <= k <= |O|
    ensures |Kept(O[..k], L)| > |Kept(O[..q], L)| ==> Kept(O[..k], L)[|Kept(O[..q], L)|].level <= L
    ensures q < k && |Kept(O[..k], L)| == |Kept(O[..q], L)| ==> Moved(O[..k], L)
    decreases k - q
  {
    if k > q {
      var j := k - 1;
      var m := |Kept(O[..q], L)|;
      FirstKeptAfter(O, q, j, L);
      KeptGrows(O, q, j, L);
      MovedStep(O, j, k, L);
      if !Moved(O[..k], L) {
        KeptStep(O, j, L);
        var Kj := Kept(O[..j], L);
        if |Kj| == m {
          assert Kept(O[..k], L)[m] == O[j];
          assert j > q ==> Moved(O[..j], L);
        } else {
          assert Kept(O[..k], L)[m] == Kj[m];
        }
      }
    }
  }

  /** A suffix of a well-formed listing is well formed. */
  lemma {:induction false} SuffixWellFormed(K: seq<Node>, m: nat)
    requires m <= |K| && WellFormed(K)
    ensures WellFormed(K[m..])
  {
    var R := K[m..];
    forall i | 0 < i < |R|
      ensures R[i].level <= R[i - 1].level + 1
    {
      assert R[i] == K[m + i] && R[i - 1] == K[m + i - 1];
    }
  }

  /** The new group, standing where `O[q]` stood, may follow the last kept entry before it. */
  lemma {:induction false} GroupFollowsKept(O: seq<Node>, q: nat)
    requires q < |O| && WellFormed(O)
    ensures WellFormed(Kept(O[..q], O[q].level))
    ensures var Kq := Kept(O[..q], O[q].level);
            |Kq| > 0 ==> O[q].level <= Kq[|Kq| - 1].level + 1
  {
    var L := O[q].level;
    SplitAll(O, q, L);
    if q > 0 && !Moved(O[..q], L) {
      assert O[q].level <= O[q - 1].level + 1;
    }
  }

  /** The shape of the walk's result: kept entries, the new group at level
      `L`, its moved subtrees starting at `L + 1`, then kept entries not
      starting deeper than `L`. */
  lemma {:induction false} FourJoin(Kq: seq<Node>, n: Node, T: seq<Node>, R: seq<Node>, L: nat)
    requires WellFormed(Kq) && WellFormed(T) && WellFormed(R) && n.level == L
    requires |Kq| > 0 ==> L <= Kq[|Kq| - 1].level + 1
    requires |T| > 0 ==> T[0].level == L + 1
    requires forall k :: 0 <= k < |T| ==> T[k].level > L
    requires |R| > 0 ==> R[0].level <= L
    ensures WellFormed(Kq + [n] + T + R)
  {
    JoinWellFormed(Kq, [n]);
    JoinWellFormed(Kq + [n], T);
    var A := Kq + [n] + T;
    if |T| > 0 {
      assert A[|A| - 1] == T[|T| - 1];
    } else {
      assert A[|A| - 1] == n;
    }
    JoinWellFormed(A, R);
  }

  /** The walk of `group_cb` leaves a pre-order listing: the moved subtrees
      start one level below the new group, and what follows them is not
      deeper than the group. */
  lemma {:induction false} WalkedWellFormed(O: seq<Node>, q: nat, n: Node)
    requires q < |O| && WellFormed(O) && n.level == O[q].level
    ensures WellFormed(Walked(O, q, n))
  {
    var L := O[q].level;
    var Kq := Kept(O[..q], L);
    assert O[..|O|] == O;
    KeptGrows(O, q, |O|, L);
    GroupFollowsKept(O, q);
    SplitAll(O, |O|, L);
    SuffixWellFormed(Kept(O, L), |Kq|);
    FirstKeptAfter(O, q, |O|, L);
    FourJoin(Kq, n, Taken(O, L), Kept(O, L)[|Kq|..], L);
  }

  /** Grouping keeps the design a pre-order listing (resizing the group
      changes no level). */
  lemma {:induction false} GroupedWellFormed(O: seq<Node>, q: nat, made: Node)
    requires q < |O| && WellFormed(O)
    ensures WellFormed(Grouped(O, q, made))
  {
    var W := Walked(O, q, NewGroup(O, q, made));
    WalkedWellFormed(O, q, NewGroup(O, q, made));
    var r := Grouped(O, q, made);
    forall i | 0 < i < |r|
      ensures r[i].level <= r[i - 1].level + 1
    {
      assert r[i].level == W[i].level && r[i - 1].level == W[i - 1].level;
    }
  }

  // ---- The design and the commands that change it

  /** What `ungroup_cb` did: dissolved the group, or refused with one of its two messages. */
  datatype UngroupOutcome = Dissolved | NoGroup | NotAllSelected


  /** The design as FLUID holds it: the entries from `Fl_Type::first` on. */
  class Design {
    var nodes: seq<Node>

    /** The list of `Fl_Type` entries is always a pre-order listing. */
    predicate Valid()
      reads this
    {
      WellFormed(nodes)
    }

    constructor (nodes: seq<Node>)
      requires WellFormed(nodes)
      ensures this.nodes == nodes && Valid()
    {
      this.nodes := nodes;
    }

    /** `fix_group_size(tt)`: give a group the box covering its widgets. */
    method FixGroupSize(tt: Option<nat>)
      requires Valid() && (tt.Some? ==> tt.value < |nodes|)
      modifies this
      ensures nodes == FixedSize(old(nodes), tt)
      ensures Valid()
    {
      if tt.None? || !nodes[tt.value].isGroup {
        return;
      }
      var i := tt.value;
      var b := CoveringBox(nodes, i);
      ghost var O := nodes;
      nodes := nodes[i := nodes[i].(box := b)];
      forall k | 0 < k < |nodes|
        ensures nodes[k].level <= nodes[k - 1].level + 1
      {
        assert nodes[k].level == O[k].level && nodes[k - 1].level == O[k - 1].level;
      }
    }

    /** `while (qq && (!qq->is_widget() || qq->is_menu_item())) qq = qq->parent`. */
    method WidgetOf(cur: Option<nat>) returns (qq: Option<nat>)
      requires cur.Some? ==> cur.value < |nodes|
      ensures qq == if cur.Some? then WidgetAncestor(nodes, cur.value) else None
    {
      qq := cur;
      while qq.Some? && !IsPlainWidget(nodes[qq.value])
        invariant qq.Some? ==> qq.value < |nodes|
        invariant (if cur.Some? then WidgetAncestor(nodes, cur.value) else None) ==
                  (if qq.Some? then WidgetAncestor(nodes, qq.value) else None)
        decreases if qq.Some? then qq.value + 1 else 0
      {
        qq := Parent(nodes, qq.value);
      }
    }

    /** `group_cb`: group the selected widgets at the current widget's level
        into a new group made by `made`; `grouped` is false when the
        command is refused. */
    method GroupCb(cur: Option<nat>, made: Node) returns (grouped: bool)
      requires Valid() && (cur.Some? ==> cur.value < |nodes|)
      requires made.isGroup && made.isWidget && !made.isMenuItem
      modifies this
      ensures grouped == GroupTarget(old(nodes), cur).Some?
      ensures !grouped ==> nodes == old(nodes)
      ensures grouped ==> nodes == Grouped(old(nodes), GroupTarget(old(nodes), cur).value, made)
      ensures Valid()
    {
      var qq := WidgetOf(cur);
      if qq.None? || nodes[qq.value].level < 1 || (nodes[qq.value].level == 1 && nodes[qq.value].isWidgetClass) {
        return false;
      }
      var q := qq.value;
      ghost var O := nodes;
      nodes := nodes[..q] + [NewGroup(nodes, q, made)] + nodes[q..];
      var gi := MoveSelected(q, O);
      WalkedWellFormed(O, q, NewGroup(O, q, made));
      FixGroupSize(Some(gi));
      grouped := true;
    }

    /** One turn of the loop of `group_cb`: `t->next` past an entry that
        stays, or `nxt = t->remove(); t->add(n); t = nxt` for one that moves. */
    static method WalkStep(ghost O: seq<Node>, q: nat, ghost n: Node, s: seq<Node>, t: nat, gi: nat, ghost j: nat)
      returns (s': seq<Node>, t': nat, gi': nat, ghost j': nat)
      requires q < |O| && n.level == O[q].level && Walk(O, q, n, s, t, gi, j)
      requires |s| == |O| + 1 && gi < |s| && s[gi] == n && t < |s|
      ensures Walk(O, q, n, s', t', gi', j')
      ensures |s'| == |O| + 1 && gi' < |s'| && s'[gi'] == n && j' <= |O| && t' <= |s'|
      ensures j < j' || (j == j' && |s'| - t' < |s| - t)
    {
      if s[t].level != s[gi].level || t == gi || !s[t].selected {
        j' := WalkSkip(O, q, n, s, t, gi, j);
        WalkView(O, q, n, s, t + 1, gi, j');
        s', t', gi' := s, t + 1, gi;
      } else {
        s', t', gi', j' := MoveStep(O, q, n, s, t, gi, j);
      }
    }

    /** The body of the loop of `group_cb` for a selected entry at the
        group's level: `remove()` it with its subtree, `add(o)` it as the
        group's last child, and go on at the entry that followed it. */
    static method MoveStep(ghost O: seq<Node>, q: nat, ghost n: Node, s: seq<Node>, t: nat, gi: nat, ghost j: nat)
      returns (s': seq<Node>, t': nat, gi': nat, ghost j': nat)
      requires q < |O| && n.level == O[q].level && Walk(O, q, n, s, t, gi, j)
      requires |s| == |O| + 1 && gi < |s| && s[gi] == n && t < |s|
      requires s[t].level == n.level && t != gi && s[t].selected
      ensures Walk(O, q, n, s', t', gi', j')
      ensures |s'| == |O| + 1 && gi' < |s'| && s'[gi'] == n && j' <= |O| && t' <= |s'| && j < j'
    {
      var (rest, block) := Detach(s, t);
      var g := if t < gi then gi - |block| else gi;
      WalkMovePrep(O, q, n, s, t, gi, j, rest, block, g);
      s' := AttachLast(rest, block, g);
      t' := if SubtreeEnd(rest, g) <= t then t + |block| else t;
      j' := WalkMoveTo(O, q, n, s, t, gi, j, rest, block, g, s', t');
      gi' := g;
    }

    /** The loop of `group_cb`: every selected entry at the new group's
        level (other than the group) is removed with its subtree and added
        as the group's last child; the walk goes on at the entry that
        followed the removed subtree. */
    method MoveSelected(q: nat, ghost O: seq<Node>) returns (gi: nat)
      requires q < |O| && |nodes| == |O| + 1 && nodes == O[..q] + [nodes[q]] + O[q..]
      requires nodes[q].level == O[q].level
      modifies this
      ensures gi == |Kept(O[..q], O[q].level)|
      ensures nodes == Walked(O, q, old(nodes)[q])
    {
      var s := nodes;
      ghost var n := s[q];
      var t: nat := 0;
      gi := q;
      ghost var j: nat := 0;
      WalkStart(O, q, n, s);
      WalkView(O, q, n, s, t, gi, j);
      while t < |s|
        invariant Walk(O, q, n, s, t, gi, j)
        invariant |s| == |O| + 1 && gi < |s| && s[gi] == n && j <= |O| && t <= |s|
        decreases |O| - j, |s| - t
      {
        s, t, gi, j := WalkStep(O, q, n, s, t, gi, j);
      }
      WalkEnd(O, q, n, s, t, gi, j);
      nodes := s;
    }

    /** The check of `ungroup_cb` that every direct child of the group is selected. */
    method AllChildrenSelected(q: nat) returns (ok: bool)
      requires q < |nodes|
      ensures ok == ChildrenSelected(nodes, q)
    {
      var k := q + 1;
      while k < |nodes| && nodes[k].level > nodes[q].level
        invariant q < k <= SubtreeEnd(nodes, q)
        invariant forall m :: q < m < k && nodes[m].level == nodes[q].level + 1 ==> nodes[m].selected
      {
        if nodes[k].level == nodes[q].level + 1 && !nodes[k].selected {
          return false;
        }
        k := k + 1;
      }
      return true;
    }

    /** The loop of `ungroup_cb`: `nxt = n->remove(); n->insert(q); n = nxt`
        for each entry `n` after the group `q` that is deeper than it; `qpos`
        is where the group ends up. */
    static method HoistChildren(O: seq<Node>, q: nat) returns (s: seq<Node>, qpos: nat)
      requires q < |O| && WellFormed(O)
      ensures qpos < |s| && s[qpos] == O[q]
      ensures qpos == SubtreeEnd(O, q) - 1
      ensures qpos + 1 < |s| ==> s[qpos + 1].level <= s[qpos].level
      ensures s[..qpos] + s[qpos + 1..] == Ungrouped(O, q)
    {
      s := O;
      qpos := q;
      ghost var k: nat := q + 1;
      HoistingStart(O, q);
      HoistingTest(O, q, k, s, qpos);
      while qpos + 1 < |s| && s[qpos + 1].level > s[qpos].level
        invariant Hoisting(O, q, k, s, qpos)
        invariant (qpos + 1 < |s| && s[qpos + 1].level > s[qpos].level) <==> k < SubtreeEnd(O, q)
        decreases |O| - k
      {
        var (rest, block) := Detach(s, qpos + 1);
        k := HoistingStep(O, q, k, s, qpos, rest, block);
        s := InsertBefore(rest, block, qpos);
        qpos := qpos + |block|;
      }
      HoistingEnd(O, q, k, s, qpos);
    }

    /** `ungroup_cb`: move every child of the current widget's parent group
        (each with its subtree) in front of the group, one level up, then
        delete the group. Refused, with nothing changed, when there is no
        such group or one of its direct children is not selected. */
    method UngroupCb(cur: Option<nat>) returns (r: UngroupOutcome)
      requires Valid() && (cur.Some? ==> cur.value < |nodes|)
      modifies this
      ensures r == NoGroup <==> UngroupTarget(old(nodes), cur).None?
      ensures r == NotAllSelected <==>
                UngroupTarget(old(nodes), cur).Some? && !ChildrenSelected(old(nodes), UngroupTarget(old(nodes), cur).value)
      ensures r == Dissolved ==> nodes == Ungrouped(old(nodes), UngroupTarget(old(nodes), cur).value)
      ensures r != Dissolved ==> nodes == old(nodes)
      ensures Valid()
    {
      var w := WidgetOf(cur);
      var qq := if w.Some? then Parent(nodes, w.value) else None;
      if qq.None? || nodes[qq.value].level < 1 || (nodes[qq.value].level == 1 && nodes[qq.value].isWidgetClass) {
        return NoGroup;
      }
      var q := qq.value;
      var ok := AllChildrenSelected(q);
      if !ok {
        return NotAllSelected;
      }
      ghost var O := nodes;
      var s, qpos := HoistChildren(nodes, q);
      nodes := s[..qpos] + s[qpos + 1..];
      UngroupedWellFormed(O, q);
      r := Dissolved;
    }
  }

  // ---- Fl_Tabs_Type::remove_child

  /** `s` without its first occurrence of `c` (`Fl_Group::remove`). */
  function Without(s: seq<nat>, c: nat): (r: seq<nat>)
    ensures c !in s ==> r == s
    ensures c in s ==> |r| == |s| - 1
    ensures forall x :: x in r ==> x in s
    ensures forall x :: x != c ==> (x in r <==> x in s)
    ensures multiset(r) == multiset(s) - multiset{c}
  {
    if s == [] then []
    else
      assert s == [s[0]] + s[1..];
      if s[0] == c then s[1..]
      else [s[0]] + Without(s[1..], c)
  }

  /** No child appears twice in a group. */
  predicate Unique(s: seq<nat>)
  {
    forall i, j :: 0 <= i < j < |s| ==> s[i] != s[j]
  }

  /** Removing a child from a group without duplicates takes it out entirely and keeps the rest unique. */
  lemma {:induction false} WithoutUnique(s: seq<nat>, c: nat)
    requires Unique(s)
    ensures c !in Without(s, c) && Unique(Without(s, c))
  {
    if s == [] {
    } else if s[0] == c {
      TailUnique(s);
    } else {
      var t := s[1..];
      TailUnique(s);
      WithoutUnique(t, c);
      var w := Without(t, c);
      ConsUnique(s[0], w);
      assert Without(s, c) == [s[0]] + w;
    }
  }

  lemma {:induction false} TailUnique(s: seq<nat>)
    requires Unique(s) && s != []
    ensures Unique(s[1..]) && s[0] !in s[1..]
  {
    assert forall i :: 0 <= i < |s[1..]| ==> s[1..][i] == s[i + 1];
  }

  lemma {:induction false} ConsUnique(a: nat, t: seq<nat>)
    requires a !in t && Unique(t)
    ensures Unique([a] + t)
  {
    var r := [a] + t;
    forall i, j | 0 <= i < j < |r|
      ensures r[i] != r[j]
    {
      assert r[j] == t[j - 1];
      if i > 0 {
        assert r[i] == t[i - 1];
      }
    }
  }

  /** A tab group in the design: its children, and the tab shown (`value()`), if any. */
  class TabsType {
    var children: seq<nat>
    var value: Option<nat>

    /** The shown tab is one of the children, and no child appears twice. */
    predicate Valid()
      reads this
    {
      Unique(children) && (value.Some? ==> value.value in children)
    }

    constructor (children: seq<nat>, value: Option<nat>)
      requires Unique(children) && (value.Some? ==> value.value in children)
      ensures this.children == children && this.value == value && Valid()
    {
      this.children := children;
      this.value := value;
    }

    /** `Fl_Tabs_Type::remove_child`: a removed child that was the shown tab
        leaves no tab shown; the child is then removed from the group. */
    method RemoveChild(c: nat)
      requires Valid()
      modifies this
      ensures value == if old(value) == Some(c) then None else old(value)
      ensures children == Without(old(children), c)
      ensures c !in children && Valid()
    {
      if value == Some(c) {
        value := None;
      }
      WithoutUnique(children, c);
      children := Without(children, c);
    }
  }
}
