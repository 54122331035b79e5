/** The file names FLUID derives in fluid/fluid.cxx: template file names,
    the instance-name substitution applied to a template, the source
    directory it changes into, and the names of the generated code, header
    and strings files. Buffer sizes are the parameter `size` (`FL_PATH_MAX`),
    and the path helpers of FLTK (`fl_filename_setext`) are parameters. */
module FluidFiles {
  import opened CText

  // ---- Template names

  /** A template name with every white-space character replaced by '_'. */
  function SafeName(name: string): (s: string)
    ensures |s| == |name|
  {
    seq(|name|, k requires 0 <= k < |name| => if IsSpace(name[k]) then '_' else name[k])
  }

  /** The sanitising loop over the `safename` buffer: each white-space
      character becomes '_', every other character is kept. */
  method Sanitize(name: string) returns (safe: string)
    ensures |safe| == |name|
    ensures forall k :: 0 <= k < |name| && IsSpace(name[k]) ==> safe[k] == '_'
    ensures forall k :: 0 <= k < |name| && !IsSpace(name[k]) ==> safe[k] == name[k]
    ensures safe == SafeName(name)
  {
    var buf := new char[|name|](k requires 0 <= k < |name| => name[k]);
    var i := 0;
    while i < buf.Length
      invariant 0 <= i <= buf.Length
      invariant forall k :: 0 <= k < i && IsSpace(name[k]) ==> buf[k] == '_'
      invariant forall k :: 0 <= k < i && !IsSpace(name[k]) ==> buf[k] == name[k]
      invariant forall k :: i <= k < buf.Length ==> buf[k] == name[k]
    {
      if IsSpace(buf[i]) {
        buf[i] := '_';
      }
      i := i + 1;
    }
    safe := buf[..];
  }

  /** A sanitised name has no white space left, and sanitising it again changes nothing. */
  lemma {:induction false} SafeNameIsSafe(name: string)
    ensures forall k :: 0 <= k < |name| ==> !IsSpace(SafeName(name)[k])
    ensures SafeName(SafeName(name)) == SafeName(name)
  {
  }

  /** `strlcpy`/`strlcat` into a buffer of `size` bytes keep at most `size - 1` characters. */
  function Truncate(s: string, size: nat): (r: string)
    requires size >= 1
    ensures |r| <= |s| && |r| <= size - 1 && r == s[..|r|]
    ensures |s| < size ==> r == s
  {
    if |s| < size then s else s[..size - 1]
  }

  datatype TemplateError = EmptyName | TooLong

  datatype Outcome = Saved(path: string) | Refused(why: TemplateError)

  /** Where "Save As Template" writes the template `name`: in the
      "templates" folder of the user data directory `userdata`, with its
      white space turned into '_' and ".fl" appended; refused when the name
      is empty or when the buffer of `size` bytes leaves fewer than 5 bytes
      for the extension. */
  function TemplateFile(userdata: string, name: string, size: nat): (r: Outcome)
    requires size > 5
    ensures r == Refused(EmptyName) <==> name == []
    ensures name != [] ==> (r == Refused(TooLong) <==> |userdata| + 10 + |name| >= size - 5)
    ensures r.Saved? ==> r.path == userdata + "templates/" + SafeName(name) + ".fl" && |r.path| < size - 2
  {
    if name == [] then Refused(EmptyName)
    else
      var safe := SafeName(Truncate(name, size));
      var dir := Truncate(Truncate(userdata, size) + "templates", size);
      var path := Truncate(Truncate(dir + "/", size) + safe, size);
      TruncateTwice(userdata, "templates", size);
      TruncateTwice(userdata + "templates", "/", size);
      TruncateTwice(userdata + "templates/", safe, size);
      assert userdata + "templates" + "/" == userdata + "templates/";
      assert path == Truncate(userdata + "templates/" + safe, size);
      if |path| >= size - 5 then Refused(TooLong) else Saved(path + ".fl")
  }

  /** Appending to a truncated buffer truncates the whole. */
  lemma {:induction false} TruncateTwice(a: string, b: string, size: nat)
    requires size >= 1
    ensures Truncate(Truncate(a, size) + b, size) == Truncate(a + b, size)
  {
    if |a| >= size {
      assert (a + b)[..size - 1] == a[..size - 1];
      assert (a[..size - 1] + b)[..size - 1] == a[..size - 1];
    } else if |a + b| >= size {
      assert Truncate(a, size) == a;
    }
  }

  // ---- Template instance names

  const MARKER := "@INSTANCE@"

  predicate MarkerAt(s: string, k: nat)
  {
    k + |MARKER| <= |s| && s[k..k + |MARKER|] == MARKER
  }

  /** `strstr(s + from, MARKER)`: the first marker at or after `from`, -1 when there is none. */
  function NextMarker(s: string, from: nat): (k: int)
    requires from <= |s|
    ensures k == -1 || (from <= k && MarkerAt(s, k))
    ensures k == -1 ==> forall j: nat :: from <= j ==> !MarkerAt(s, j)
    ensures k >= 0 ==> forall j: nat :: from <= j < k ==> !MarkerAt(s, j)
    decreases |s| - from
  {
    if from + |MARKER| > |s| then -1
    else if MarkerAt(s, from) then from
    else NextMarker(s, from + 1)
  }

  /** The text written for `line[from..]`: each marker replaced by `iname`,
      scanning on after the marker, so the inserted text is not looked at again. */
  function Substituted(line: string, iname: string, from: nat := 0): string
    requires from <= |line|
    decreases |line| - from
  {
    var k := NextMarker(line, from);
    if k < 0 then line[from..]
    else line[from..k] + iname + Substituted(line, iname, k + |MARKER|)
  }

  /** The substitution loop: write the text before each marker, then the
      instance name, and go on after the marker; finally write the rest.
      The caller runs it only for a non-empty instance name (otherwise the
      template is copied unchanged); with an empty `iname` this model would
      delete every marker, a case the program never reaches. */
  method Substitute(line: string, iname: string) returns (out: string)
    ensures out == Substituted(line, iname)
  {
    out := [];
    var ptr := 0;
    var next := NextMarker(line, ptr);
    while next >= 0
      invariant 0 <= ptr <= |line|
      invariant next == NextMarker(line, ptr)
      invariant out + Substituted(line, iname, ptr) == Substituted(line, iname)
      decreases |line| - ptr
    {
      SubstitutedStep(out, line, iname, ptr, next);
      out := out + line[ptr..next] + iname;
      ptr := next + |MARKER|;
      next := NextMarker(line, ptr);
    }
    out := out + line[ptr..];
  }

  /** One turn of the substitution loop keeps the text still to be written in step. */
  lemma {:induction false} SubstitutedStep(out: string, line: string, iname: string, ptr: nat, next: int)
    requires ptr <= |line| && next == NextMarker(line, ptr) && next >= 0
    ensures (out + line[ptr..next] + iname) + Substituted(line, iname, next + |MARKER|)
            == out + Substituted(line, iname, ptr)
  {
    assert Substituted(line, iname, ptr) == line[ptr..next] + iname + Substituted(line, iname, next + |MARKER|);
  }

  /** A line without a marker is copied unchanged. */
  lemma {:induction false} NoMarkerNoChange(line: string, iname: string)
    requires forall j: nat :: !MarkerAt(line, j)
    ensures Substituted(line, iname) == line
  {
  }

  /** Substituting the marker for itself gives the line back: each inserted
      name is written once and never rescanned. */
  lemma {:induction false} MarkerForItself(line: string, from: nat)
    requires from <= |line|
    ensures Substituted(line, MARKER, from) == line[from..]
    decreases |line| - from
  {
    var k := NextMarker(line, from);
    if k >= 0 {
      MarkerForItself(line, k + |MARKER|);
      assert line[k..k + |MARKER|] == MARKER;
      assert line[from..] == line[from..k] + line[k..k + |MARKER|] + line[k + |MARKER|..];
    }
  }

  /** How many markers the scan of `line[from..]` finds. */
  function Markers(line: string, from: nat := 0): nat
    requires from <= |line|
    decreases |line| - from
  {
    var k := NextMarker(line, from);
    if k < 0 then 0 else 1 + Markers(line, k + |MARKER|)
  }

  /** Every marker found is replaced once: the text grows by
      `|iname| - |MARKER|` per marker. */
  lemma {:induction false} SubstitutedLength(line: string, iname: string, from: nat)
    requires from <= |line|
    ensures |Substituted(line, iname, from)| == |line| - from + Markers(line, from) * (|iname| - |MARKER|)
    decreases |line| - from
  {
    var k := NextMarker(line, from);
    var d := |iname| - |MARKER|;
    if k >= 0 {
      var after := k + |MARKER|;
      SubstitutedLength(line, iname, after);
      var m := Markers(line, after);
      assert Markers(line, from) == 1 + m;
      var tail := Substituted(line, iname, after);
      assert Substituted(line, iname, from) == line[from..k] + iname + tail;
      assert |line[from..k] + iname + tail| == (k - from) + |iname| + |tail|;
      OneMore(m, d);
    } else {
      assert Markers(line, from) * d == 0;
    }
  }

  lemma {:induction false} OneMore(m: int, d: int)
    ensures (1 + m) * d == d + m * d
  {
  }

  // ---- Source directory

  /** The directory `goto_source_dir` changes into, for the design file
      `filename` whose base name (`fl_filename_name`) starts at `nameStart`:
      none when an earlier call already changed into it (`inSourceDir`), for
      a missing or empty name, or for a name in the current directory;
      otherwise the text before the base name without its final separator,
      except that a one-character prefix (the root "/") is kept whole. */
  function SourceDir(inSourceDir: bool, filename: Option<string>, nameStart: nat): (d: Option<string>)
    requires filename.Some? ==> nameStart <= |filename.value|
    ensures d.Some? <==> !inSourceDir && filename.Some? && filename.value != [] && nameStart > 0
    ensures d.Some? ==> |d.value| <= |filename.value| && d.value == filename.value[..|d.value|]
    ensures d.Some? ==> |d.value| == if nameStart > 1 then nameStart - 1 else 1
  {
    if inSourceDir then None
    else match filename
    case None => None
    case Some(f) =>
      if f == [] || nameStart == 0 then None
      else
        var n := if nameStart > 1 then nameStart - 1 else nameStart;
        Some(f[..n])
  }

  /** With '/' as the only separator, the first change of directory goes to
      the path before the last '/', which the design file name then extends. */
  lemma {:induction false} SourceDirSplitsPath(f: string)
    requires '/' in f
    ensures var name := AfterLast(f, '/');
            var d := SourceDir(false, Some(f), |f| - |name|);
            d.Some? &&
            (d.value == "/" || d.value + "/" + name == f)
  {
    var name := AfterLast(f, '/');
    var start := |f| - |name|;
    assert start >= 1 && f[start - 1] == '/';
    if start > 1 {
      var d := f[..start - 1];
      assert d + "/" + name == f[..start - 1] + f[start - 1..start] + f[start..];
      assert f == f[..start - 1] + f[start - 1..start] + f[start..];
    } else {
      assert f[..1] == "/";
    }
  }

  // ---- Output file names

  /** An output setting names only an extension when it starts with '.'
      and holds no '/'. */
  predicate IsExtension(setting: string)
  {
    |setting| > 0 && setting[0] == '.' && '/' !in setting
  }

  /** The code or header file `write_code_files` writes for the setting
      `setting` (`code_file_name` / `header_file_name`): an extension is put
      on the design's base name `base` with `setExt` (`fl_filename_setext`);
      any other setting is the file name itself. */
  function OutputName(setting: string, base: string, setExt: (string, string) -> string): (r: string)
    ensures IsExtension(setting) ==> r == setExt(base, setting)
    ensures !IsExtension(setting) ==> r == setting
  {
    if IsExtension(setting) then setExt(base, setting) else setting
  }

  /** The strings file extension for each i18n type (none, gettext, catgets). */
  function StringsExt(i18nType: nat): (e: string)
    requires i18nType < 3
    ensures IsExtension(e)
  {
    [".txt", ".po", ".msg"][i18nType]
  }

  /** With the default settings the code, header and strings files all
      derive from the design's base name and differ from each other, as
      long as `setExt` tells different extensions apart. */
  lemma {:induction false} DefaultOutputsDistinct(base: string, setExt: (string, string) -> string, i18nType: nat)
    requires i18nType < 3
    requires forall e1, e2 :: IsExtension(e1) && IsExtension(e2) && e1 != e2 ==> setExt(base, e1) != setExt(base, e2)
    ensures OutputName(".cxx", base, setExt) == setExt(base, ".cxx")
    ensures OutputName(".h", base, setExt) == setExt(base, ".h")
    ensures OutputName(".cxx", base, setExt) != OutputName(".h", base, setExt)
    ensures setExt(base, StringsExt(i18nType)) != OutputName(".cxx", base, setExt)
    ensures setExt(base, StringsExt(i18nType)) != OutputName(".h", base, setExt)
  {
    assert IsExtension(".cxx") && IsExtension(".h");
    var e := StringsExt(i18nType);
    assert e != ".cxx" && e != ".h" by {
      assert e[1] in "tpm";
    }
  }

  /** Different i18n types give different strings files. */
  lemma {:induction false} StringsExtDistinct(t1: nat, t2: nat)
    requires t1 < 3 && t2 < 3 && t1 != t2
    ensures StringsExt(t1) != StringsExt(t2)
  {
    assert StringsExt(t1)[1] != StringsExt(t2)[1];
  }
}
