/** FLUID's list of recently opened design files (fluid/fluid.cxx,
    `load_history` and `update_history`): ten fixed slots of absolute paths,
    their relative forms for the menu, the ten "recent file" menu items and
    the preference keys `file0` .. `file9` that persist the list. */
module FluidHistory {
  import opened CText

  /** `absolute_history[10]`, `relative_history[10]`, and ten history menu items. */
  const SLOTS := 10

  /** The two bits of a history menu item's flags that the history code touches. */
  datatype MenuEntry = MenuEntry(divider: bool, hidden: bool)

  /** `max_files`: the `recent_files` preference, clamped to the ten slots. */
  function RecentCount(pref: int): (n: int)
    ensures n <= SLOTS && n <= pref
    ensures pref <= SLOTS ==> n == pref
    ensures pref > SLOTS ==> n == SLOTS
  {
    if pref > SLOTS then SLOTS else pref
  }

  /** Path equality as `update_history` tests it: `strcasecmp` on Windows and
      macOS (`foldCase`), `strcmp` elsewhere. */
  predicate SamePath(a: string, b: string, foldCase: bool)
  {
    if foldCase then Lower(a) == Lower(b) else a == b
  }

  /** The index where the search loop of `update_history` stops: the first of
      the first `max` slots holding `path`, or `max` when none does (and 0 when
      `max` is not positive). */
  function MatchIndex(h: seq<string>, path: string, max: int, foldCase: bool, from: nat := 0): (i: nat)
    requires max <= |h|
    requires from == 0 || from <= max
    requires forall j :: 0 <= j < from ==> !SamePath(path, h[j], foldCase)
    ensures from <= i && (max >= 0 ==> i <= max)
    ensures max <= 0 ==> i == 0
    ensures i < max ==> SamePath(path, h[i], foldCase)
    ensures forall j :: 0 <= j < i ==> !SamePath(path, h[j], foldCase)
    decreases if max < 0 then 0 else max - from
  {
    if from >= max then from
    else if SamePath(path, h[from], foldCase) then from
    else MatchIndex(h, path, max, foldCase, from + 1)
  }

  /** The number of history entries shown: the first of the first `max` slots
      that is empty, or `max` when none is (0 when `max` is not positive). */
  function ShownCount(h: seq<string>, max: int, from: nat := 0): (k: nat)
    requires max <= |h|
    requires from == 0 || from <= max
    requires forall j :: 0 <= j < from ==> h[j] != ""
    ensures from <= k && (max >= 0 ==> k <= max)
    ensures max <= 0 ==> k == 0
    ensures k < max ==> h[k] == ""
    ensures forall j :: 0 <= j < k ==> h[j] != ""
    decreases if max < 0 then 0 else max - from
  {
    if from >= max then from
    else if h[from] == "" then from
    else ShownCount(h, max, from + 1)
  }

  /** The history after `path` moves to the front from slot `i`: slots `[0, i)`
      shift down by one and the old content of slot `i` is gone. */
  function MoveToFront(h: seq<string>, path: string, i: nat): (r: seq<string>)
    requires i < |h|
    ensures |r| == |h| && r[0] == path
    ensures forall k :: 1 <= k <= i ==> r[k] == h[k - 1]
    ensures forall k :: i < k < |h| ==> r[k] == h[k]
  {
    [path] + h[..i] + h[i + 1..]
  }

  /** The menu items after the history has `k` leading non-empty entries:
      the first `k` are shown, the last shown one (and every hidden one but
      the tenth) carries a divider, the rest are hidden. */
  function MenuAfter(old_: seq<MenuEntry>, k: nat): (r: seq<MenuEntry>)
    requires |old_| == SLOTS && k <= SLOTS
    ensures |r| == SLOTS
  {
    seq(SLOTS, j requires 0 <= j < SLOTS =>
      if j < k then MenuEntry(j == k - 1 || j == SLOTS - 1, false)
      else MenuEntry(j < SLOTS - 1 || old_[j].divider, true))
  }

  /** The preference values `file0` .. `file9` after `update_history`: the shown
      entries, then empty strings. */
  function Saved(h: seq<string>, k: nat): (r: seq<string>)
    requires |h| == SLOTS && k <= SLOTS
    ensures |r| == SLOTS
  {
    seq(SLOTS, j requires 0 <= j < SLOTS => if j < k then h[j] else "")
  }

  /** The first `n` slots hold no two equal (non-empty) paths. */
  predicate Distinct(h: seq<string>, n: nat, foldCase: bool)
    requires n <= |h|
  {
    forall a, b :: 0 <= a < b < n && h[a] != "" ==> !SamePath(h[a], h[b], foldCase)
  }

  /** The first `m` elements of `x` followed by the rest of `y`. */
  function Overlay<T>(x: seq<T>, y: seq<T>, m: nat): (r: seq<T>)
    requires |x| == |y| && m <= |y|
    ensures |r| == |y|
    ensures forall j :: 0 <= j < m ==> r[j] == x[j]
    ensures forall j :: m <= j < |y| ==> r[j] == y[j]
  {
    x[..m] + y[m..]
  }

  /** Writing `x[m]` into slot `m` extends the overlay by one. */
  lemma {:induction false} OverlayNext<T>(x: seq<T>, y: seq<T>, m: nat)
    requires |x| == |y| && m < |y|
    ensures Overlay(x, y, m)[m := x[m]] == Overlay(x, y, m + 1)
  {
  }

  /** `fl_filename_relative` applied to every path. */
  function Relativized(f: string -> string, h: seq<string>): (r: seq<string>)
    ensures |r| == |h| && forall j :: 0 <= j < |h| ==> r[j] == f(h[j])
  {
    seq(|h|, j requires 0 <= j < |h| => f(h[j]))
  }

  /** The menu items of shown entries before dividers are set: no divider
      except on the tenth, not hidden. */
  function ShownEntries(): (r: seq<MenuEntry>)
    ensures |r| == SLOTS && forall j :: 0 <= j < SLOTS ==> r[j] == MenuEntry(j == SLOTS - 1, false)
  {
    seq(SLOTS, j => MenuEntry(j == SLOTS - 1, false))
  }

  lemma {:induction false} SamePathSymmetric(a: string, b: string, foldCase: bool)
    ensures SamePath(a, b, foldCase) == SamePath(b, a, foldCase)
  {
  }

  lemma {:induction false} SamePathTransitive(a: string, b: string, c: string, foldCase: bool)
    requires SamePath(a, b, foldCase) && SamePath(b, c, foldCase)
    ensures SamePath(a, c, foldCase)
  {
  }

  /** Moving the path to the front never creates a duplicate among the shown
      slots: if it was found, its old slot is the one overwritten; if not, the
      last slot is dropped. */
  lemma {:induction false} MoveToFrontKeepsDistinct(h: seq<string>, path: string, max: int, foldCase: bool)
    requires 1 <= max <= |h| && path != ""
    requires Distinct(h, max, foldCase)
    ensures var m := MatchIndex(h, path, max, foldCase);
            var i := if m >= max then max - 1 else m;
            Distinct(MoveToFront(h, path, i), max, foldCase)
  {
    var m := MatchIndex(h, path, max, foldCase);
    var i := if m >= max then max - 1 else m;
    var r := MoveToFront(h, path, i);
    forall a, b | 0 <= a < b < max && r[a] != ""
      ensures !SamePath(r[a], r[b], foldCase)
    {
      if a == 0 {
        if b <= i {
          assert r[b] == h[b - 1];
          SamePathSymmetric(h[b - 1], path, foldCase);
        } else {
          assert r[b] == h[b];
          if m < max {
            assert SamePath(path, h[m], foldCase);
            if SamePath(path, h[b], foldCase) {
              SamePathSymmetric(path, h[m], foldCase);
              SamePathTransitive(h[m], path, h[b], foldCase);
            }
          }
        }
      } else {
        var a' := if a <= i then a - 1 else a;
        var b' := if b <= i then b - 1 else b;
        assert r[a] == h[a'] && r[b] == h[b'] && a' < b';
      }
    }
  }

  /** The recent-file history and the state it keeps in step with it. */
  class History {
    const absolute: array<string>
    const relative: array<string>
    const menu: array<MenuEntry>
    /** The preference values `file0` .. `file9`. */
    const saved: array<string>

    ghost predicate Valid()
      reads this
    {
      absolute.Length == SLOTS && relative.Length == SLOTS &&
      menu.Length == SLOTS && saved.Length == SLOTS &&
      absolute != relative && absolute != saved && relative != saved
    }

    /** The arrays start as C globals do: empty strings; the menu items start
        shown and without divider, except the tenth, which has one. */
    constructor ()
      ensures Valid() && fresh(absolute) && fresh(relative) && fresh(menu) && fresh(saved)
      ensures absolute[..] == relative[..] == saved[..] == seq(SLOTS, _ => "")
      ensures menu[..] == seq(SLOTS, j => MenuEntry(j == SLOTS - 1, false))
    {
      absolute := new string[SLOTS](_ => "");
      relative := new string[SLOTS](_ => "");
      saved := new string[SLOTS](_ => "");
      menu := new MenuEntry[SLOTS](j => MenuEntry(j == SLOTS - 1, false));
    }

    /** `load_history`: read up to `max_files` paths from the preferences,
        stopping after the first empty one, and update the menu items.
        `relativize` stands for `fl_filename_relative`. */
    method LoadHistory(recentPref: int, relativize: string -> string)
      requires Valid()
      modifies absolute, relative, menu
      ensures Valid()
      ensures var max := RecentCount(recentPref);
              var k := ShownCount(saved[..], max);
              && absolute[..] == Overlay(saved[..], old(absolute[..]), if k < max then k + 1 else k)
              && relative[..] == Overlay(Relativized(relativize, saved[..]), old(relative[..]), k)
              && menu[..] == MenuAfter(old(menu[..]), k)
    {
      var max := RecentCount(recentPref);
      var n := ReadPaths(max, relativize);
      MenuAfterOverlay(old(menu[..]), n);
      HideFrom(n, n);
    }

    /** The first loop of `load_history`: copy saved paths into the history
        until an empty one (which is copied too) or `max` of them, setting
        each one's relative name and showing its menu item. */
    method ReadPaths(max: int, relativize: string -> string) returns (n: nat)
      requires Valid() && max <= SLOTS
      modifies absolute, relative, menu
      ensures Valid() && n == ShownCount(saved[..], max)
      ensures absolute[..] == Overlay(saved[..], old(absolute[..]), if n < max then n + 1 else n)
      ensures relative[..] == Overlay(Relativized(relativize, saved[..]), old(relative[..]), n)
      ensures menu[..] == Overlay(ShownEntries(), old(menu[..]), n)
    {
      ghost var h, a0, r0, m0 := saved[..], absolute[..], relative[..], menu[..];
      ghost var k := ShownCount(h, max);
      ghost var rel := Relativized(relativize, h);
      var i := 0;
      while i < max
        invariant 0 <= i <= k
        invariant absolute[..] == Overlay(h, a0, i)
        invariant relative[..] == Overlay(rel, r0, i)
        invariant menu[..] == Overlay(ShownEntries(), m0, i)
      {
        var path := saved[i];
        assert path == h[i];
        absolute[i] := path;
        OverlayNext(h, a0, i);
        if path != "" {
          relative[i] := relativize(path);
          OverlayNext(rel, r0, i);
          menu[i] := MenuEntry(i == SLOTS - 1, false);
          OverlayNext(ShownEntries(), m0, i);
        } else {
          break;
        }
        assert i < k;
        i := i + 1;
      }
      n := i;
    }

    /** The tail loop shared by `load_history` and `update_history`: hide the
        items from slot `i` on, giving the item before each a divider. */
    method HideFrom(i: nat, ghost k: nat)
      requires Valid() && i == k <= SLOTS
      requires forall j :: 0 <= j < k ==> menu[j] == MenuEntry(j == SLOTS - 1, false)
      modifies menu
      ensures Valid()
      ensures menu[..] == MenuAfter(old(menu[..]), k)
    {
      var n := i;
      while n < SLOTS
        invariant k <= n <= SLOTS
        invariant forall j :: 0 <= j < SLOTS ==>
                    menu[j] == if j < k - 1 then MenuEntry(j == SLOTS - 1, false)
                               else if j < k then MenuEntry(n > k || j == SLOTS - 1, false)
                               else if j < n then MenuEntry(j < n - 1 || old(menu[j]).divider, true)
                               else old(menu[j])
      {
        if n > 0 {
          menu[n - 1] := menu[n - 1].(divider := true);
        }
        menu[n] := menu[n].(hidden := true);
        n := n + 1;
      }
    }

    /** `update_history`: bring `absPath` (the result of `fl_filename_absolute`)
        to the front of the list, unless it is already there or the list is
        disabled, then rewrite the preferences and the menu. */
    method UpdateHistory(absPath: string, recentPref: int, foldCase: bool, relativize: string -> string)
      requires Valid()
      modifies absolute, relative, menu, saved
      ensures Valid()
      ensures var max := RecentCount(recentPref);
              var m := MatchIndex(old(absolute[..]), absPath, max, foldCase);
              if m == 0 then
                && absolute[..] == old(absolute[..]) && relative[..] == old(relative[..])
                && menu[..] == old(menu[..]) && saved[..] == old(saved[..])
              else
                var i := if m >= max then max - 1 else m;
                && absolute[..] == MoveToFront(old(absolute[..]), absPath, i)
                && relative[..] == MoveToFront(old(relative[..]), relativize(absPath), i)
                && var k := ShownCount(absolute[..], max);
                   && saved[..] == Saved(absolute[..], k)
                   && menu[..] == MenuAfter(old(menu[..]), k)
    {
      var max := RecentCount(recentPref);
      ghost var m := MatchIndex(absolute[..], absPath, max, foldCase);
      var i := 0;
      while i < max
        invariant 0 <= i <= m
        invariant forall j :: 0 <= j < i ==> !SamePath(absPath, absolute[j], foldCase)
      {
        if SamePath(absPath, absolute[i], foldCase) {
          break;
        }
        i := i + 1;
      }
      assert i == m;
      if i == 0 {
        return;
      }
      if i >= max {
        i := max - 1;
      }
      PutFirst(absPath, i, relativize);
      StoreAndShow(max);
    }

    /** The two `memmove`s of `update_history` and the new first entry. */
    method PutFirst(absPath: string, i: nat, relativize: string -> string)
      requires Valid() && i < SLOTS
      modifies absolute, relative
      ensures Valid()
      ensures absolute[..] == MoveToFront(old(absolute[..]), absPath, i)
      ensures relative[..] == MoveToFront(old(relative[..]), relativize(absPath), i)
    {
      forall j | 1 <= j <= i {
        absolute[j] := absolute[j - 1];
      }
      forall j | 1 <= j <= i {
        relative[j] := relative[j - 1];
      }
      absolute[0] := absPath;
      relative[0] := relativize(absolute[0]);
    }

    /** The last two loops of `update_history`: write the shown entries to the
        preferences, blank the other keys, and update the menu items. */
    method StoreAndShow(max: int)
      requires Valid() && max <= SLOTS
      modifies saved, menu
      ensures Valid()
      ensures var k := ShownCount(absolute[..], max);
              saved[..] == Saved(absolute[..], k) && menu[..] == MenuAfter(old(menu[..]), k)
    {
      ghost var m0 := menu[..];
      var i := SaveShown(max);
      ClearSavedFrom(i, i);
      MenuAfterOverlay(m0, i);
      HideFrom(i, i);
    }

    /** The first of those loops: it stops at the first empty path, having
        stored and shown every entry before it. */
    method SaveShown(max: int) returns (i: nat)
      requires Valid() && max <= SLOTS
      modifies saved, menu
      ensures Valid() && i == ShownCount(absolute[..], max)
      ensures forall j :: 0 <= j < i ==> saved[j] == absolute[j]
      ensures menu[..] == Overlay(ShownEntries(), old(menu[..]), i)
    {
      ghost var h, m0 := absolute[..], menu[..];
      ghost var k := ShownCount(h, max);
      i := 0;
      while i < max
        invariant 0 <= i <= k
        invariant forall j :: 0 <= j < i ==> saved[j] == absolute[j]
        invariant menu[..] == Overlay(ShownEntries(), m0, i)
      {
        var path := absolute[i];
        assert path == h[i];
        saved[i] := path;
        if path != "" {
          menu[i] := MenuEntry(i == SLOTS - 1, false);
          OverlayNext(ShownEntries(), m0, i);
        } else {
          assert i == k;
          break;
        }
        assert i < k;
        i := i + 1;
      }
    }

    /** The preference writes of the tail loop of `update_history`: every key
        from slot `i` on is set to the empty string. */
    method ClearSavedFrom(i: nat, ghost k: nat)
      requires Valid() && i == k <= SLOTS
      requires forall j :: 0 <= j < k ==> saved[j] == absolute[j]
      modifies saved
      ensures Valid()
      ensures saved[..] == Saved(absolute[..], k)
    {
      var n := i;
      while n < SLOTS
        invariant k <= n <= SLOTS
        invariant forall j :: 0 <= j < SLOTS ==>
                    saved[j] == if j < k then absolute[j] else if j < n then "" else old(saved[j])
      {
        saved[n] := "";
        n := n + 1;
      }
    }
  }

  /** `MenuAfter` only looks at the old items from slot `k` on, so showing
      the first `k` items beforehand does not change it. */
  lemma {:induction false} MenuAfterOverlay(m0: seq<MenuEntry>, k: nat)
    requires |m0| == SLOTS && k <= SLOTS
    ensures MenuAfter(Overlay(ShownEntries(), m0, k), k) == MenuAfter(m0, k)
  {
  }

  /** The shown menu items are exactly the first `k` entries, and the last shown
      one carries a divider that separates the history from what follows. */
  lemma {:induction false} MenuShowsLeadingEntries(old_: seq<MenuEntry>, k: nat)
    requires |old_| == SLOTS && 1 <= k <= SLOTS
    ensures var r := MenuAfter(old_, k);
            (forall j :: 0 <= j < SLOTS ==> (!r[j].hidden <==> j < k)) && r[k - 1].divider
  {
  }
}
