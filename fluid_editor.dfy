/** The editor state of FLUID's main program (fluid/fluid.cxx): the
    "design modified" and "code outdated" flags with the window title and
    Save menu item that show them, and the paste offset that moves pasted
    widgets away from the originals. */
module FluidEditor {
  import opened CText

  /** The file name shown in the title: "Untitled.fl" without a file name,
      otherwise the text after the last '/', or on Windows, when there is no
      '/', the text after the last '\'. */
  function Basename(filename: Option<string>, windows: bool): (b: string)
    ensures filename.None? ==> b == "Untitled.fl"
    ensures filename.Some? ==> |b| <= |filename.value| && b == filename.value[|filename.value| - |b|..]
    ensures filename.Some? ==> '/' !in b
    ensures filename.Some? && '/' in filename.value ==>
              |b| < |filename.value| && filename.value[|filename.value| - |b| - 1] == '/'
    ensures filename.Some? && '/' !in filename.value && !windows ==> b == filename.value
  {
    match filename
    case None => "Untitled.fl"
    case Some(f) =>
      if '/' in f then AfterLast(f, '/')
      else if windows && '\\' in f then AfterLast(f, '\\')
      else f
  }

  /** The character that marks a set flag in the title. */
  function Star(flag: int): char
  {
    if flag != 0 then '*' else ' '
  }

  /** The main window title `"%s%c  %s%c"`: base name, design flag, two
      spaces, code file extension, code flag. */
  function Title(base: string, modflag: int, codeExt: string, modflagC: int): (t: string)
    ensures |t| == |base| + |codeExt| + 4
    ensures t[..|base|] == base && t[|base| + 3..|t| - 1] == codeExt
    ensures t[|base|] == (if modflag != 0 then '*' else ' ')
    ensures t[|base| + 1..|base| + 3] == "  "
    ensures t[|t| - 1] == (if modflagC != 0 then '*' else ' ')
  {
    base + [Star(modflag)] + "  " + codeExt + [Star(modflagC)]
  }

  /** The two flags after `set_modflag(mf, mfc)`: `mf == -1` leaves the design
      flag alone; `mfc == -1` lets a design change (`mf == 1`) mark the code
      outdated and otherwise leaves the code flag alone; any other `mfc` sets
      the code flag. */
  function Flags(modflag: int, modflagC: int, mf: int, mfc: int): (r: (int, int))
    ensures mf == -1 ==> r.0 == modflag
    ensures mf != -1 ==> r.0 == mf
    ensures mfc != -1 ==> r.1 == mfc
    ensures mfc == -1 && mf == 1 ==> r.1 == 1
    ensures mfc == -1 && mf != 1 ==> r.1 == modflagC
  {
    var m := if mf != -1 then mf else modflag;
    var c := if mfc != -1 then mfc else if mf == 1 then 1 else modflagC;
    (m, c)
  }

  function Multiple(m: int, g: int): int
  {
    m * g
  }

  /** `r` lies on a grid of spacing `g`. */
  ghost predicate OnGrid(r: int, g: int)
  {
    exists m :: r == Multiple(m, g)
  }

  /** `((p - 1) / g + 1) * g` with C's truncating division: the paste offset
      rounded up to the grid. */
  function SnapUp(p: int, g: int): (r: int)
    requires g > 1
    ensures OnGrid(r, g)
    ensures p >= 1 ==> p <= r < p + g
    ensures p == 0 ==> r == g
  {
    var q := CDiv(p - 1, g);
    assert (q + 1) * g == q * g + g;
    assert OnGrid((q + 1) * g, g) by { assert (q + 1) * g == Multiple(q + 1, g); }
    (q + 1) * g
  }

  /** The offset `paste_cb` pastes at: `ipasteoffset`, rounded up to the
      horizontal grid and then to the vertical grid when they exceed one. */
  function PasteOffset(ip: int, gridx: int, gridy: int): int
  {
    var p := if gridx > 1 then SnapUp(ip, gridx) else ip;
    if gridy > 1 then SnapUp(p, gridy) else p
  }

  /** Rounding up to the grid a second time changes nothing. */
  lemma {:induction false} SnapUpIdempotent(p: int, g: int)
    requires g > 1 && p >= 0
    ensures SnapUp(SnapUp(p, g), g) == SnapUp(p, g)
  {
    var r := SnapUp(p, g);
    var r2 := SnapUp(r, g);
    MultiplesApart(r, r2, g);
  }

  lemma {:induction false} MultiplesApart(a: int, b: int, g: int)
    requires g > 0 && OnGrid(a, g) && OnGrid(b, g) && a <= b < a + g
    ensures a == b
  {
    var qa :| a == Multiple(qa, g);
    var qb :| b == Multiple(qb, g);
    assert b - a == (qb - qa) * g;
    if qb - qa >= 1 {
      MulAtLeast(qb - qa, g);
    } else if qb - qa <= -1 {
      MulAtLeast(qa - qb, g);
    }
  }

  lemma {:induction false} MulAtLeast(k: int, g: int)
    requires k >= 1 && g > 0
    ensures k * g >= g
  {
    assert k * g == (k - 1) * g + g;
  }

  /** With one grid size for both axes, a paste lands on the first grid
      multiple at or beyond the requested offset, and never at offset 0: the
      pasted widgets are always moved. */
  lemma {:induction false} PasteOffsetOnSquareGrid(ip: int, g: int)
    requires g > 1 && ip >= 0
    ensures var r := PasteOffset(ip, g, g);
            OnGrid(r, g) && r >= 1 && r >= ip && r < (if ip == 0 then 1 else ip) + g
  {
    SnapUpIdempotent(ip, g);
  }

  /** The global editor state of fluid.cxx that these callbacks update. */
  class Editor {
    var modflag: int
    var modflagC: int
    /** The main window's label; only kept up to date while the window exists. */
    var title: string
    /** Whether the File/Save menu item is active. */
    var saveActive: bool
    var hasMainWindow: bool
    var filename: Option<string>
    var codeFileName: Option<string>
    var pasteoffset: int
    var ipasteoffset: int
    var forceParent: int
    var gridx: int
    var gridy: int
    /** Whether the build targets Windows (for the '\' separator). */
    const windows: bool
    /** `fl_filename_ext`: the extension of a file name. */
    const extOf: string -> string

    /** The globals' initial values. */
    constructor (windows: bool, extOf: string -> string)
      ensures this.windows == windows && this.extOf == extOf
      ensures modflag == 0 && modflagC == 0 && !saveActive && !hasMainWindow
      ensures filename == None && codeFileName == Some(".cxx")
      ensures pasteoffset == 0 && ipasteoffset == 0 && forceParent == 0
      ensures gridx == 5 && gridy == 5
    {
      this.windows := windows;
      this.extOf := extOf;
      modflag, modflagC := 0, 0;
      title := "";
      saveActive, hasMainWindow := false, false;
      filename, codeFileName := None, Some(".cxx");
      pasteoffset, ipasteoffset, forceParent := 0, 0, 0;
      gridx, gridy := 5, 5;
    }

    /** The extension shown in the title: that of `code_file_name`, ".cxx" without one. */
    function CodeExt(): string
      reads `codeFileName
    {
      match codeFileName
      case Some(n) => extOf(n)
      case None => ".cxx"
    }

    /** `set_modflag(mf, mfc)`: update both flags, retitle the main window and
        enable Save exactly when the design is modified. */
    method SetModflag(mf: int, mfc: int)
      modifies this
      ensures (modflag, modflagC) == Flags(old(modflag), old(modflagC), mf, mfc)
      ensures title == if hasMainWindow then Title(Basename(filename, windows), modflag, CodeExt(), modflagC)
                       else old(title)
      ensures saveActive <==> modflag != 0
      ensures hasMainWindow == old(hasMainWindow) && filename == old(filename)
      ensures codeFileName == old(codeFileName)
      ensures pasteoffset == old(pasteoffset) && ipasteoffset == old(ipasteoffset)
      ensures forceParent == old(forceParent) && gridx == old(gridx) && gridy == old(gridy)
    {
      var m, c := modflag, modflagC;
      if mf != -1 {
        m := mf;
        if mfc == -1 && mf == 1 {
          c := 1;
        }
      }
      if mfc != -1 {
        c := mfc;
      }
      modflag, modflagC := m, c;
      saveActive := m != 0;
      Retitle();
    }

    /** The title update of `set_modflag`, made only while the main window exists. */
    method Retitle()
      modifies `title
      ensures title == if hasMainWindow then Title(Basename(filename, windows), modflag, CodeExt(), modflagC)
                       else old(title)
    {
      if hasMainWindow {
        title := Title(Basename(filename, windows), modflag, CodeExt(), modflagC);
      }
    }

    /** `copy_cb`: with a current widget, the next paste is offset by 10
        (whether or not the cut buffer could be written). */
    method Copy(hasCurrent: bool)
      modifies `ipasteoffset
      ensures ipasteoffset == if hasCurrent then 10 else old(ipasteoffset)
      ensures modflag == old(modflag) && modflagC == old(modflagC) && pasteoffset == old(pasteoffset)
    {
      if !hasCurrent {
        return;
      }
      ipasteoffset := 10;
    }

    /** `cut_cb`: with a current widget whose cut buffer was written, mark the
        design modified and paste the next copy in place. */
    method Cut(hasCurrent: bool, written: bool)
      modifies this
      ensures var done := hasCurrent && written;
              && ipasteoffset == (if done then 0 else old(ipasteoffset))
              && (modflag, modflagC) == (if done then (1, 1) else (old(modflag), old(modflagC)))
              && saveActive == (if done then true else old(saveActive))
      ensures title == if hasCurrent && written && hasMainWindow
                       then Title(Basename(filename, windows), 1, CodeExt(), 1)
                       else old(title)
      ensures hasMainWindow == old(hasMainWindow) && filename == old(filename)
      ensures codeFileName == old(codeFileName) && pasteoffset == old(pasteoffset)
      ensures forceParent == old(forceParent) && gridx == old(gridx) && gridy == old(gridy)
    {
      if !hasCurrent {
        return;
      }
      if !written {
        return;
      }
      SetModflag(1, -1);
      ipasteoffset := 0;
    }

    /** `delete_cb`: with a current widget, mark the design modified and
        paste the next copy in place. */
    method Delete(hasCurrent: bool)
      modifies this
      ensures ipasteoffset == if hasCurrent then 0 else old(ipasteoffset)
      ensures (modflag, modflagC) == if hasCurrent then (1, 1) else (old(modflag), old(modflagC))
      ensures saveActive == if hasCurrent then true else old(saveActive)
      ensures title == if hasCurrent && hasMainWindow
                       then Title(Basename(filename, windows), 1, CodeExt(), 1)
                       else old(title)
      ensures hasMainWindow == old(hasMainWindow) && filename == old(filename)
      ensures codeFileName == old(codeFileName) && pasteoffset == old(pasteoffset)
      ensures forceParent == old(forceParent) && gridx == old(gridx) && gridy == old(gridy)
    {
      if !hasCurrent {
        return;
      }
      SetModflag(1, -1);
      ipasteoffset := 0;
    }

    /** `paste_cb`: read the cut buffer at the grid-snapped offset (returned as
        `offset`), then reset the offset and move the next paste 10 further. */
    method Paste() returns (offset: int)
      modifies `pasteoffset, `ipasteoffset, `forceParent
      ensures offset == PasteOffset(old(ipasteoffset), gridx, gridy)
      ensures pasteoffset == 0 && ipasteoffset == old(ipasteoffset) + 10 && forceParent == 0
    {
      pasteoffset := ipasteoffset;
      if gridx > 1 {
        pasteoffset := (CDiv(pasteoffset - 1, gridx) + 1) * gridx;
      }
      if gridy > 1 {
        pasteoffset := (CDiv(pasteoffset - 1, gridy) + 1) * gridy;
      }
      offset := pasteoffset;
      pasteoffset := 0;
      ipasteoffset := ipasteoffset + 10;
      forceParent := 0;
    }
  }
}
