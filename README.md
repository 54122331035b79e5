# FLUID core and graphics-driver helpers, modelled in Dafny

This project models the core of FLUID, the user-interface designer of the
FLTK toolkit, together with the small parts of FLTK's graphics driver
interface that carry code. It covers the following:

- **Recent-file history** (`FluidHistory`). This is `load_history` and
  `update_history`: ten fixed slots of absolute paths, their relative
  forms, the ten menu items that show them and the preference keys
  `file0`..`file9`. The class keeps the four fixed arrays and updates them
  in place.
- **Editor state** (`FluidEditor`). This is `set_modflag`, which updates
  the "design modified" and "code outdated" flags, the window title and
  the Save item. It also covers the copy, cut, delete and paste callbacks
  and the paste offset, which is snapped to the grid with C's truncating
  division.
- **Command-line switches** (`FluidArgs`). This is FLUID's `arg`, which
  recognises `-d`, `-u`, `-c`, `-cs`, `-o` and `-h`.
- **Derived file names** (`FluidFiles`). These are the template file name
  and its white-space sanitising and length check, the `@INSTANCE@`
  substitution applied to a template, the source directory
  `goto_source_dir` changes into, the code and header file names of
  `write_code_files` and the strings-file extensions.
- **Design tree and group commands** (`DesignTree`, `GroupType`). The
  design is the pre-order list of `Fl_Type` entries with their levels. The
  model covers `fix_group_size`, the Group command (`group_cb`), the
  Ungroup command (`ungroup_cb`) and `Fl_Tabs_Type::remove_child`.
- **Sample table** (`FluidTable`). This is the `Fluid_Table` sample widget:
  its 14 by 7 data and the texts its `draw_cell` prints.
- **Graphics driver** (`GraphicsDriver`). This is the scalable driver's
  `floor` (both overloads), `scale()`, `change_image_size` and the
  capacities of the matrix and clip-region stacks.

`CText` gives C conventions a meaning: NUL-terminated reads, `isspace` and
`tolower` in the "C" locale, `%d` printing and truncating division.

Preferences, file I/O, dialogs, the current working directory and FLTK's
file-name helpers (`fl_filename_relative`, `fl_filename_setext`,
`fl_filename_ext`, `fl_filename_absolute`) become parameters of the
operations that use them. So do the factory result of `make()` and the
buffer size `FL_PATH_MAX`.

The tree operations `Fl_Type::remove`, `add` and `insert` live in
fluid/Fl_Type.cxx, which is not part of this model. They are modelled by
the behaviour `group_cb` and `ungroup_cb` rely on:

- `remove` cuts an entry with its subtree and returns the entry after it;
- `add` appends a subtree as the last child of an entry;
- `insert` puts a subtree just before an entry, at that entry's level.

## Model

| member | source | states |
|---|---|---|
| FluidHistory.RecentCount | fluid/fluid.cxx:1465-1466 | `max_files` is the `recent_files` preference clamped to the 10 slots: exactly 10 when the preference is larger, the preference itself otherwise |
| FluidHistory.MatchIndex | fluid/fluid.cxx:1506-1511 | the search stops at the first of the first `max` slots that holds the same path (case-folded on Windows and macOS), and no earlier slot holds it; it gives `max` when none does |
| FluidHistory.ShownCount | fluid/fluid.cxx:1468-1477 | the number of leading non-empty slots among the first `max`: every slot before it is non-empty, and the slot at it is empty unless it is `max` |
| FluidHistory.MoveToFront | fluid/fluid.cxx:1517-1524 | the new path is in slot 0, slots `1..i` hold the old slots `0..i-1`, and slots after `i` are unchanged |
| FluidHistory.MoveToFrontKeepsDistinct | fluid/fluid.cxx:1506-1524 | if the shown slots held no two equal paths before `update_history`, they still hold none after it: a found path's old slot is the one overwritten, and otherwise the last slot drops off |
| FluidHistory.MenuShowsLeadingEntries | fluid/fluid.cxx:1479-1482 | after the menu update exactly the first `k` history items are visible, and the last visible one carries a divider |
| FluidHistory.MenuAfterOverlay | fluid/fluid.cxx:1538-1542 | the hiding loop reads the old items only from slot `k` on, so the items shown first do not change its result |
| FluidHistory.History.constructor | fluid/fluid.cxx:113-116 | the history arrays start as empty strings, and the menu items start shown, with a divider only on the tenth (fluid/fluid.cxx:1251) |
| FluidHistory.History.LoadHistory | fluid/fluid.cxx:1460-1483 | reads the leading non-empty saved paths (and the first empty one) into the history, sets their relative forms, shows their menu items and hides the rest with dividers; nothing else in the arrays changes |
| FluidHistory.History.ReadPaths | fluid/fluid.cxx:1468-1478 | the first loop copies saved paths up to and including the first empty one, relativises and shows the non-empty ones, and stops at the shown count |
| FluidHistory.History.HideFrom | fluid/fluid.cxx:1480-1483 | from slot `k` on every item is hidden and the item before each one gets a divider; the first `k` items stay shown |
| FluidHistory.History.UpdateHistory | fluid/fluid.cxx:1495-1543 | a path already in slot 0, or any path when `max_files` is not positive, changes nothing; otherwise the path moves to the front from its old slot (or from the last slot), its relative form with it, the preferences hold the shown entries then empty strings, and the menu shows the leading entries |
| FluidHistory.History.PutFirst | fluid/fluid.cxx:1517-1527 | the two `memmove`s and the new first entry: both arrays become `MoveToFront` of their old contents |
| FluidHistory.History.StoreAndShow | fluid/fluid.cxx:1529-1542 | the preferences hold the shown entries followed by empty strings, and the menu is the one the history's shown count calls for |
| FluidHistory.History.SaveShown | fluid/fluid.cxx:1530-1536 | the first loop stops at the shown count, with every preference before it holding its path and every item before it shown |
| FluidHistory.History.ClearSavedFrom | fluid/fluid.cxx:1538-1539 | every preference key from the first empty slot on is set to the empty string |
| FluidEditor.Flags | fluid/fluid.cxx:1585-1592 | `mf == -1` keeps the design flag and any other `mf` sets it; `mfc == -1` keeps the code flag unless `mf == 1` marks it, and any other `mfc` sets it |
| FluidEditor.Basename | fluid/fluid.cxx:1595-1600 | "Untitled.fl" without a file name; otherwise a suffix of the name with no '/' in it, which directly follows the last '/' when there is one and is the whole name when there is none (outside Windows) |
| FluidEditor.Title | fluid/fluid.cxx:1602-1611 | the title is the base name, then '*' when the design is modified and ' ' otherwise, two spaces, the code extension, and '*' when the code is outdated and ' ' otherwise |
| FluidEditor.Editor.constructor | fluid/fluid.cxx:76-204 | the editor starts unmodified, with no main window, no file name, code extension ".cxx", paste offsets and `force_parent` 0, and both grid spacings 5 |
| FluidEditor.Editor.SetModflag | fluid/fluid.cxx:1577-1626 | the flags become `Flags` of the old ones, the title is rebuilt only while the main window exists, Save is enabled exactly when the design is modified, and nothing else changes |
| FluidEditor.Editor.Retitle | fluid/fluid.cxx:1594-1612 | the title is rebuilt from the base name, the flags and the code extension only when the main window exists |
| FluidEditor.SnapUp | fluid/fluid.cxx:1001-1002 | `((p-1)/g+1)*g` with truncating division is a multiple of `g`; for `p >= 1` it is the first multiple at or above `p`, and for `p == 0` it is `g` |
| FluidEditor.SnapUpIdempotent | fluid/fluid.cxx:1001-1002 | snapping a second time changes nothing: a snapped offset is already on the grid |
| FluidEditor.PasteOffsetOnSquareGrid | fluid/fluid.cxx:999-1002 | with equal grid sizes the paste offset is the first grid multiple at or above the requested offset and is never 0, so a paste always moves the widgets |
| FluidEditor.Editor.Copy | fluid/fluid.cxx:945-955 | with a current widget the next paste is offset by 10, whether or not the cut buffer was written; nothing else changes (only `ipasteoffset` is in the frame) |
| FluidEditor.Editor.Cut | fluid/fluid.cxx:960-977 | only with a current widget and a written cut buffer: both flags are set, Save is enabled, the title is rebuilt with both stars while the main window exists, and the next paste goes in place; otherwise nothing changes; the file names, grids, `pasteoffset` and `force_parent` never change |
| FluidEditor.Editor.Delete | fluid/fluid.cxx:982-994 | with a current widget both flags are set, Save is enabled, the title is rebuilt with both stars while the main window exists, and the next paste goes in place; otherwise nothing changes; the file names, grids, `pasteoffset` and `force_parent` never change |
| FluidEditor.Editor.Paste | fluid/fluid.cxx:999-1013 | the paste happens at the grid-snapped offset; the offset is then reset, the next paste moves 10 further and `force_parent` is cleared; nothing else changes (only those three fields are in the frame) |
| FluidArgs.SwitchAsWritten | fluid/fluid.cxx:1749-1767 | `-o` is recognised exactly when it is spelled `-o` and an argument follows, while `-h` is recognised exactly when it is spelled `-h`, whether or not an argument follows; the character at index 0 is never examined |
| FluidArgs.SwitchOf | fluid/fluid.cxx:1754-1765 | like `arg`, but `-h` is also recognised only when an argument follows |
| FluidArgs.Consumed | fluid/fluid.cxx:1750-1766 | a switch uses one argument, `-o` and `-h` use two, and 0 means "not supported" |
| FluidArgs.SpellingDecides | fluid/fluid.cxx:1750-1765 | each switch is recognised exactly when its letters follow the first character and the string ends there, and `-o`/`-h` also need a following argument |
| FluidArgs.FirstCharacterIgnored | fluid/fluid.cxx:1750-1761 | two arguments that differ only in their first character get the same verdict |
| FluidArgs.OnlyTrailingHeaderDiffers | fluid/fluid.cxx:1760-1765 | the code as written and the guarded version disagree exactly on a `-h` that is the last argument |
| FluidArgs.TrailingHeaderOverruns | fluid/fluid.cxx:1760-1765 | for `fluid -h`, `arg` as written reports two arguments used where only one remains |
| FluidArgs.ConsumedWithinArgv | fluid/fluid.cxx:1754-1765 | with `-h` guarded like `-o`, no switch uses arguments past `argc` |
| FluidArgs.CommandLine.constructor | fluid/fluid.cxx:96-174 | the option flags start at 0, neither file name is set from the command line, and the file names are the default extensions ".cxx" and ".h" |
| FluidArgs.CommandLine.ArgAsWritten | fluid/fluid.cxx:1749-1767 | returns the count `arg` returns, advances `i` by it, and sets the flags and file name of the recognised switch (a null name for a trailing `-h`) |
| FluidArgs.CommandLine.Arg | fluid/fluid.cxx:1749-1767 | the same with the guard on `-h`: `i` never passes `argc` |
| FluidFiles.Sanitize | fluid/fluid.cxx:430-434 | every white-space character of the name becomes '_' and every other character is kept |
| FluidFiles.SafeNameIsSafe | fluid/fluid.cxx:432-434 | a sanitised name has no white space, and sanitising it again changes nothing |
| FluidFiles.Truncate | fluid/fluid.cxx:430 | `strlcpy`/`strlcat` keep a prefix of at most `size - 1` characters, and the whole string when it fits |
| FluidFiles.TruncateTwice | fluid/fluid.cxx:440-444 | appending to an already truncated buffer gives the truncation of the whole concatenation |
| FluidFiles.TemplateFile | fluid/fluid.cxx:426-453 | an empty template name is refused; a name that leaves fewer than 5 bytes for the extension is refused as too long; otherwise the file is the user-data "templates/" folder, then the sanitised name, then ".fl" |
| FluidFiles.NextMarker | fluid/fluid.cxx:814 | `strstr` finds the first `@INSTANCE@` at or after the scan position, or reports that there is none |
| FluidFiles.Substitute | fluid/fluid.cxx:813-819 | the text written for a template line is `Substituted`: the text before each marker, the instance name, and the rest after the last marker |
| FluidFiles.NoMarkerNoChange | fluid/fluid.cxx:813-819 | a line without a marker is written unchanged |
| FluidFiles.MarkerForItself | fluid/fluid.cxx:814-817 | scanning resumes after the marker, not after the inserted name: substituting the marker for itself gives the line back |
| FluidFiles.SubstitutedLength | fluid/fluid.cxx:814-817 | each marker found is replaced once: the output length is the input length plus `|iname| - 10` per marker |
| FluidFiles.SourceDir | fluid/fluid.cxx:221-228 | no directory change when an earlier call already changed into it, without a file name, or for a name in the current directory; otherwise the path prefix before the base name without its final separator, except that a one-character prefix is kept whole |
| FluidFiles.SourceDirSplitsPath | fluid/fluid.cxx:224-228 | with '/' separators the source directory is "/" or the directory that, with '/' and the base name, gives back the file name |
| FluidFiles.OutputName | fluid/fluid.cxx:866-877 | a setting that starts with '.' and has no '/' is an extension put on the design's base name; any other setting is the file name itself |
| FluidFiles.DefaultOutputsDistinct | fluid/fluid.cxx:864-877 | with the default settings ".cxx" and ".h", the code, header and strings files are all derived from the base name and are pairwise distinct, given that `fl_filename_setext` (the parameter `setExt`) gives different names for different extensions |
| FluidFiles.StringsExt | fluid/fluid.cxx:909 | each i18n type's strings file extension is an extension (leading '.', no '/') |
| FluidFiles.StringsExtDistinct | fluid/fluid.cxx:909-916 | different i18n types give different strings file extensions |
| DesignTree.SubtreeEnd | fluid/Fl_Group_Type.cxx:56 | one past an entry's subtree: every entry between them is deeper, and the entry at it (if any) is not |
| DesignTree.SubtreeEndUnique | fluid/Fl_Group_Type.cxx:100 | any index with those two properties is the subtree end |
| DesignTree.Parent | fluid/Fl_Group_Type.cxx:94 | the parent comes before the entry, is shallower, and has the entry inside its subtree |
| DesignTree.WidgetAncestor | fluid/Fl_Group_Type.cxx:70 | the widget search returns the entry itself when it is a widget that is not a menu item; otherwise the nearest such widget among its ancestors (no entry between them on the parent chain is one); and none exactly when no entry on the chain is one |
| DesignTree.EnclosingOfParent | fluid/Fl_Group_Type.cxx:70 | every ancestor of an entry is its parent or an ancestor of the parent, so the `parent` walk meets every ancestor |
| DesignTree.NoEnclosingWithoutParent | fluid/Fl_Group_Type.cxx:70 | an entry without a parent has no ancestor |
| DesignTree.Union | fluid/Fl_Group_Type.cxx:59-62 | one step of the loop: the box contains both boxes and each of its edges is an edge of one of them |
| DesignTree.CoverIsUnion | fluid/Fl_Group_Type.cxx:52-64 | the group's new box contains its own box and every plain widget's box in its subtree, and each of its edges is attained by one of them |
| DesignTree.TakenBlock | fluid/Fl_Group_Type.cxx:83-84 | a selected entry at the group's level moves into the group with its whole subtree, one level deeper and in order |
| DesignTree.TakenRoots | fluid/Fl_Group_Type.cxx:80-86 | the direct children of the new group are exactly the selected entries that were at the group's level, in their original order |
| DesignTree.KeptHasNoCandidate | fluid/Fl_Group_Type.cxx:81-82 | no selected entry at the group's level is left outside the group |
| GroupType.FixedSize | fluid/Fl_Group_Type.cxx:49-65 | a missing entry or one that is not a group leaves the design unchanged; otherwise only the group's box changes, and it becomes the cover of its subtree |
| GroupType.CoveringBox | fluid/Fl_Group_Type.cxx:52-63 | the loop's `X`, `Y`, `R`, `B` give the cover, which contains the group's box and every plain widget's box in its subtree |
| GroupType.Design.FixGroupSize | fluid/Fl_Group_Type.cxx:49-65 | the design becomes `FixedSize` of the old one and stays a pre-order listing |
| GroupType.Design.WidgetOf | fluid/Fl_Group_Type.cxx:70 | the parent walk ends at the widget ancestor of the current entry |
| GroupType.GroupTarget | fluid/Fl_Group_Type.cxx:69-74 | the widget grouped around is the current entry's widget ancestor (`WidgetAncestor`), and it is found exactly when that widget exists, is at level 1 or deeper and is not a level-1 widget class; there is none without a current entry |
| GroupType.UngroupTarget | fluid/Fl_Group_Type.cxx:92-98 | the group dissolved is the parent of the current entry's widget ancestor (line 93), found exactly when that parent exists, is at level 1 or deeper and is not a level-1 widget class |
| GroupType.Design.GroupCb | fluid/Fl_Group_Type.cxx:67-88 | refused with nothing changed exactly when there is no suitable widget; otherwise the design becomes `Grouped`: the kept entries, the new group (a group widget, as the factory makes) where the widget stood, the moved subtrees as its children, and the group's box fixed; the design stays a pre-order listing |
| GroupType.WalkedWellFormed | fluid/Fl_Group_Type.cxx:79-86 | after the walk the design is still a pre-order listing: the moved subtrees start one level below the new group, and the entry after them is not deeper than the group |
| GroupType.GroupedWellFormed | fluid/Fl_Group_Type.cxx:67-88 | grouping keeps every level within one of the level before it, for every well-formed design |
| GroupType.SplitAll | fluid/Fl_Group_Type.cxx:79-86 | over any prefix of a well-formed design, the entries that stay and the entries that move each form a pre-order listing, and the moved ones start one level below the new group |
| GroupType.FirstKeptAfter | fluid/Fl_Group_Type.cxx:79-86 | the first entry that stays from the widget's position on is not deeper than the widget |
| GroupType.Design.MoveSelected | fluid/Fl_Group_Type.cxx:80-86 | the loop leaves the design as `Walked`: every selected entry at the group's level, with its subtree, is the group's child in original order, and all else keeps its order |
| GroupType.Design.WalkStep | fluid/Fl_Group_Type.cxx:81-85 | one turn of the loop keeps the walk's invariant and makes progress |
| GroupType.Design.MoveStep | fluid/Fl_Group_Type.cxx:83-85 | removing a selected entry and adding it to the group keeps the walk's invariant and passes over the entry's whole subtree |
| GroupType.Design.AllChildrenSelected | fluid/Fl_Group_Type.cxx:100-105 | the check passes exactly when every direct child of the group is selected |
| GroupType.Design.HoistChildren | fluid/Fl_Group_Type.cxx:106-110 | the loop moves the group's whole subtree, one level up and in order, in front of the group; the group ends at the last position of its old subtree, and the entry after it (if any) is not deeper, so it is left standing alone |
| GroupType.Design.UngroupCb | fluid/Fl_Group_Type.cxx:90-112 | refused with nothing changed when there is no group (first message) or a direct child is unselected (second message); otherwise the design is `Ungrouped`; the listing stays well formed either way |
| GroupType.UngroupedWellFormed | fluid/Fl_Group_Type.cxx:106-111 | dissolving a group keeps every level within one of the level before it |
| GroupType.Without | fluid/Fl_Group_Type.cxx:300-304 | `Fl_Group::remove` takes out one occurrence of the child: the contents lose exactly that child and nothing else |
| GroupType.WithoutUnique | fluid/Fl_Group_Type.cxx:300-304 | a group without duplicates no longer holds the removed child and still has no duplicates |
| GroupType.TabsType.RemoveChild | fluid/Fl_Group_Type.cxx:306-311 | a removed child that was the shown tab leaves no tab shown; the child is then removed and the tab group stays valid |
| FluidTable.ColumnLabel | fluid/Fl_Group_Type.cxx:184 | a column label is one character |
| FluidTable.ColumnLabelsDistinct | fluid/Fl_Group_Type.cxx:184 | column `c` is labelled by the character `'A' + c`, and no two columns below the character-range limit share a label |
| FluidTable.SampleColumns | fluid/Fl_Group_Type.cxx:143-144 | the seven sample columns are labelled "A" to "G" |
| FluidTable.RowLabel | fluid/Fl_Group_Type.cxx:188 | a row label has at least four characters and ends in ':' |
| FluidTable.RowLabelRoundTrip | fluid/Fl_Group_Type.cxx:188 | a row label starts with '-' exactly for a negative row, and its digits read back as the row number |
| FluidTable.PaddedRoundTrip | fluid/Fl_Group_Type.cxx:188 | a zero-padded number is all digits and reads back as the number |
| FluidTable.RowLabelWidth | fluid/Fl_Group_Type.cxx:188 | rows 0 to 999 get labels of exactly four characters |
| FluidTable.SignedRoundTrip | fluid/Fl_Group_Type.cxx:192 | a cell's text starts with '-' exactly for a negative value and reads back as the value |
| FluidTable.CellWidth | fluid/Fl_Group_Type.cxx:203-205 | the sample values print with four or five digits |
| FluidTable.Table.constructor | fluid/Fl_Group_Type.cxx:200-216 | cell `(r, c)` holds `1000 + 1000*r + c`; there are 14 rows of height 20 with headers and no resizing, and 7 columns of width 80 with headers and resizing |
| FluidTable.Table.CellText | fluid/Fl_Group_Type.cxx:177-198 | column headers print the letter, row headers print the row label, cells print their value, and the other contexts print nothing |
| CText.AfterLast | fluid/fluid.cxx:1596 | `strrchr(s, c) + 1`: the suffix of the string after its last `c`, without any `c` |
| CText.CDiv | fluid/fluid.cxx:1001 | C's division by a positive divisor truncates toward zero: the remainder has the dividend's sign and is smaller than the divisor |
| CText.DecimalRoundTrip | fluid/Fl_Group_Type.cxx:192 | reading back what `%d` printed gives the number |
| CText.DecimalLength | fluid/Fl_Group_Type.cxx:188 | `%d` prints at most `k` digits exactly for numbers below 10 to the power `k` |
| CText.LeadingZerosIgnored | fluid/Fl_Group_Type.cxx:188 | the zero padding of `%03d` does not change the value read back |
| GraphicsDriver.Floor | FL/Fl_Graphics_Driver.H:430 | `floor(x, s)` is within 1 of `x*s + 0.001`: not above it when that is non-negative, not below it when that is negative (truncation toward zero) |
| GraphicsDriver.Trunc | FL/Fl_Graphics_Driver.H:430 | C's conversion to `int` truncates toward zero: below the value for positive arguments, above it for negative ones, by less than 1 |
| GraphicsDriver.TruncMonotone | FL/Fl_Graphics_Driver.H:430 | the conversion never decreases when its argument grows |
| GraphicsDriver.FloorNonNegative | FL/Fl_Graphics_Driver.H:430 | for a non-negative coordinate and positive scale, `floor(x, s)` is the largest integer not above `x*s + 0.001` |
| GraphicsDriver.FloorMonotone | FL/Fl_Graphics_Driver.H:430 | a larger coordinate never gets a smaller scaled coordinate |
| GraphicsDriver.FloorIntegral | FL/Fl_Graphics_Driver.H:430 | a non-negative integral product is kept exactly |
| GraphicsDriver.FloorNegativeIntegral | FL/Fl_Graphics_Driver.H:430 | a negative integral product `n` is rounded up to `n + 1` |
| GraphicsDriver.FloorOfNegative | FL/Fl_Graphics_Driver.H:430 | an illustration of `FloorNegativeIntegral`: `floor(-3, 1)` is -2, not the mathematical floor |
| GraphicsDriver.FloorExamples | FL/Fl_Graphics_Driver.H:430 | scale 1 keeps non-negative coordinates; `floor(2, 1.5)` is 3 as an illustration of `FloorIntegral` |
| GraphicsDriver.ChangeImageSize | FL/Fl_Graphics_Driver.H:203-206 | the image's width and height are set, and its depth and line size are unchanged |
| GraphicsDriver.Driver.constructor | FL/Fl_Graphics_Driver.H:166-174 | the matrix stack holds 32 entries and the region stack 10, one more than `region_stack_max` |
| GraphicsDriver.Driver.Scale | FL/Fl_Graphics_Driver.H:249 | `scale()` is the driver's `scale_` |
| GraphicsDriver.Driver.FloorAt | FL/Fl_Graphics_Driver.H:431 | the one-argument `floor` is the two-argument one at the driver's scale |
| GraphicsDriver.FloorAtProperties | FL/Fl_Graphics_Driver.H:430-431 | with a positive scale the one-argument `floor` keeps coordinates from 0 on non-negative and in order, and is the identity at scale 1 |

## Left out

- Floating point: `scale_`, `0.001f` and the product `x * s` are exact reals, so `float` rounding is not modelled.
- Integer width: C `int` arithmetic (the paste offset, box edges, counters) is unbounded, so overflow is not modelled.
- `FL_PATH_MAX` is not defined in these files. It is the parameter `size` where a buffer length matters, and history slots and file names are not truncated to it.
- FluidEditor.Title: `set_modflag` prints the title with `snprintf` into a `static char title[FL_PATH_MAX]` buffer, so a long title is cut short. The model's title is never truncated.
- `isspace` and `tolower` follow the "C" locale. Other locales are not modelled.
- Preferences, file reading and writing, `fl_message`/`fl_alert`/`fl_choice` dialogs, `fl_beep`, undo checkpoints, redraws, `chdir` and `getcwd` are I/O. Their inputs become parameters, and their effects are left out.
- FluidFiles.TemplateFile: the existence check and overwrite question, the write of the `.fl` file and the screenshot are not modelled.
- FluidFiles.Substitute: works on one line; `fgets` splitting lines at 1023 characters is not modelled.
- FluidEditor.Editor.Cut: `delete_all` and the re-selection of the nearest unselected parent belong to fluid/Fl_Type.cxx, which is not part of this model.
- FluidEditor.Editor.Delete: `delete_all` and the re-selection of the parent are not modelled, for the same reason.
- FluidEditor.Editor.SetModflag: the Source View timer is a GUI effect and is not modelled.
- GroupType.Design.GroupCb: the group factory `make()`, `move_before` and `force_parent = 1` are not modelled. The new entry is the parameter `made`, placed where `q` stood at `q`'s level.
- GroupType.TabsType.RemoveChild: `Fl_Group::remove` is modelled by what it does to the child list (`Without`). Redraws are not modelled.
- `Fl_Group_Type::remove_child`'s redraw and `delete q`'s destructor side effects are not modelled beyond removing the entry.
- The remaining members of `Fl_Graphics_Driver` are virtual drawing operations without bodies in this header and are not modelled.
- `print_menu_cb` of fluid/fluid.cxx is left out: it computes a floating page scale and drives the printer. The help, shell, source-view and `main` code is left out as UI and I/O.
- Live mode (`enter_live_mode`, `copy_properties`), `write_code2` and `click_test` of fluid/Fl_Group_Type.cxx are left out: they build widgets, emit code or run an event loop through code outside these files.
- The `matrix` entries of the driver's stack are stored but never transformed: the push/pop code and matrix arithmetic have no bodies in this header.
- FluidFiles.SourceDir: the `in_source_dir` flag is the parameter `inSourceDir`; saving `pwd`, the `chdir` itself and setting the flag afterwards are I/O and are not modelled.
- The Windows `'\\'` separator is the `windows` flag of `FluidEditor.Basename`. `SourceDir` takes the base-name position (`fl_filename_name`) as a parameter.

## Findings

| source | as written | input that shows it | evidently intended | confidence | as-written member | corrected member |
|---|---|---|---|---|---|---|
| fluid/fluid.cxx:1760-1765 | `-h` is taken as a two-argument switch without checking `i+1 < argc`, unlike `-o` at 1754 | `fluid -h` (argc 2, i 1): `header_file_name = argv[2]` is the null pointer, and `i` becomes 3, past `argc`; `FluidArgs.TrailingHeaderOverruns` exhibits it | `-h` needs a following argument like `-o`, so no switch uses arguments past `argc` (`FluidArgs.ConsumedWithinArgv`) | not executed | FluidArgs.CommandLine.ArgAsWritten | FluidArgs.CommandLine.Arg |
