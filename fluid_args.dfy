/** FLUID's own command-line switches (`arg` in fluid/fluid.cxx), which the
    FLTK argument loop offers each argument to before its standard switches.
    An argument is recognised by its characters from index 1 on; index 0 is
    never looked at. */
module FluidArgs {
  import opened CText

  /** The switches `arg` knows, and the verdict for any other argument. */
  datatype Switch = Debug | Update | Compile | CompileStrings | Output | Header | Unsupported

  /** `argv[i][k]` as C reads it: strings end at their NUL terminator. */
  predicate Spells(a: string, tail: string)
  {
    (forall k :: 0 <= k < |tail| ==> At(a, k + 1) == tail[k]) && At(a, |tail| + 1) == '\0'
  }

  /** The switch `arg` sees in `a` as written: `-o` needs a following
      argument (`hasNext`, i.e. `i+1 < argc`), `-h` takes one without checking,
      so `-h` is recognised whether or not an argument follows. */
  function SwitchAsWritten(a: string, hasNext: bool): (s: Switch)
    ensures s == Output ==> hasNext
    ensures s != Unsupported ==> At(a, 1) in "duccoh" && At(a, 2) in "\0s"
    ensures s == Output <==> Spells(a, "o") && hasNext
    ensures s == Header <==> Spells(a, "h")
  {
    SpellsOne(a, 'o');
    SpellsOne(a, 'h');
    if At(a, 1) == 'd' && At(a, 2) == '\0' then Debug
    else if At(a, 1) == 'u' && At(a, 2) == '\0' then Update
    else if At(a, 1) == 'c' && At(a, 2) == '\0' then Compile
    else if At(a, 1) == 'c' && At(a, 2) == 's' && At(a, 3) == '\0' then CompileStrings
    else if At(a, 1) == 'o' && At(a, 2) == '\0' && hasNext then Output
    else if At(a, 1) == 'h' && At(a, 2) == '\0' then Header
    else Unsupported
  }

  /** The intended switch: `-h`, like `-o`, only when a file name follows. */
  function SwitchOf(a: string, hasNext: bool): (s: Switch)
    ensures s == Output || s == Header ==> hasNext
    ensures s != Unsupported ==> At(a, 1) in "duccoh" && At(a, 2) in "\0s"
  {
    if At(a, 1) == 'd' && At(a, 2) == '\0' then Debug
    else if At(a, 1) == 'u' && At(a, 2) == '\0' then Update
    else if At(a, 1) == 'c' && At(a, 2) == '\0' then Compile
    else if At(a, 1) == 'c' && At(a, 2) == 's' && At(a, 3) == '\0' then CompileStrings
    else if At(a, 1) == 'o' && At(a, 2) == '\0' && hasNext then Output
    else if At(a, 1) == 'h' && At(a, 2) == '\0' && hasNext then Header
    else Unsupported
  }

  /** How many arguments a switch consumes (`arg`'s return value; 0: not supported). */
  function Consumed(s: Switch): (n: nat)
    ensures n <= 2
    ensures n == 0 <==> s == Unsupported
  {
    match s
    case Debug | Update | Compile | CompileStrings => 1
    case Output | Header => 2
    case Unsupported => 0
  }

  /** The two parsers differ exactly on a `-h` with nothing after it. */
  lemma {:induction false} OnlyTrailingHeaderDiffers(a: string, hasNext: bool)
    ensures SwitchOf(a, hasNext) != SwitchAsWritten(a, hasNext) <==>
            !hasNext && SwitchAsWritten(a, hasNext) == Header
    ensures SwitchOf(a, hasNext) != SwitchAsWritten(a, hasNext) ==> SwitchOf(a, hasNext) == Unsupported
  {
  }

  /** With the check in place every switch consumes only arguments that exist. */
  lemma {:induction false} ConsumedWithinArgv(args: seq<string>, i: nat)
    requires i < |args|
    ensures i + Consumed(SwitchOf(args[i], i + 1 < |args|)) <= |args|
  {
    var s := SwitchOf(args[i], i + 1 < |args|);
    if s == Output || s == Header {
      assert i + 1 < |args|;
    }
  }

  /** As written, `fluid -h` (the switch last on the line) consumes two
      arguments of a one-argument tail: `i` ends past `argc`. */
  lemma {:induction false} TrailingHeaderOverruns()
    ensures var args := ["fluid", "-h"];
            SwitchAsWritten(args[1], 1 + 1 < |args|) == Header &&
            1 + Consumed(SwitchAsWritten(args[1], 1 + 1 < |args|)) == |args| + 1
  {
  }

  /** Each switch is recognised exactly by its spelling after the first character. */
  lemma {:induction false} SpellingDecides(a: string, hasNext: bool)
    ensures SwitchOf(a, hasNext) == Debug <==> Spells(a, "d")
    ensures SwitchOf(a, hasNext) == Update <==> Spells(a, "u")
    ensures SwitchOf(a, hasNext) == Compile <==> Spells(a, "c")
    ensures SwitchOf(a, hasNext) == CompileStrings <==> Spells(a, "cs")
    ensures SwitchOf(a, hasNext) == Output <==> Spells(a, "o") && hasNext
    ensures SwitchOf(a, hasNext) == Header <==> Spells(a, "h") && hasNext
  {
    SpellsOne(a, 'd');
    SpellsOne(a, 'u');
    SpellsOne(a, 'c');
    SpellsTwo(a, 'c', 's');
    SpellsOne(a, 'o');
    SpellsOne(a, 'h');
  }

  lemma {:induction false} SpellsOne(a: string, x: char)
    ensures Spells(a, [x]) <==> At(a, 1) == x && At(a, 2) == '\0'
  {
    if Spells(a, [x]) {
      assert At(a, 0 + 1) == [x][0];
    }
  }

  lemma {:induction false} SpellsTwo(a: string, x: char, y: char)
    ensures Spells(a, [x, y]) <==> At(a, 1) == x && At(a, 2) == y && At(a, 3) == '\0'
  {
    if Spells(a, [x, y]) {
      assert At(a, 0 + 1) == [x, y][0];
      assert At(a, 1 + 1) == [x, y][1];
    }
  }

  /** The first character plays no part: "xc" is taken for "-c". */
  lemma {:induction false} FirstCharacterIgnored(a: string, b: string, hasNext: bool)
    requires |a| >= 1 && |b| >= 1 && a[1..] == b[1..]
    ensures SwitchOf(a, hasNext) == SwitchOf(b, hasNext)
    ensures SwitchAsWritten(a, hasNext) == SwitchAsWritten(b, hasNext)
  {
    forall k: nat | 1 <= k
      ensures At(a, k) == At(b, k)
    {
      if k < |a| {
        assert a[k] == a[1..][k - 1];
      }
    }
  }

  /** The switch settings `arg` writes (globals in the source). */
  class CommandLine {
    var gDebug: int
    var updateFile: int
    var compileFile: int
    var compileStrings: int
    var batchMode: int
    /** `code_file_name` / `header_file_name`; `None` is a null pointer. */
    var codeFileName: Option<string>
    var headerFileName: Option<string>
    var codeFileSet: int
    var headerFileSet: int

    constructor ()
      ensures gDebug == 0 && updateFile == 0 && compileFile == 0 && compileStrings == 0 && batchMode == 0
      ensures codeFileName == Some(".cxx") && headerFileName == Some(".h")
      ensures codeFileSet == 0 && headerFileSet == 0
    {
      gDebug, updateFile, compileFile, compileStrings, batchMode := 0, 0, 0, 0, 0;
      codeFileName, headerFileName := Some(".cxx"), Some(".h");
      codeFileSet, headerFileSet := 0, 0;
    }

    /** `arg(argc, argv, i)` as written: the file name after `-h` is
        `argv[i+1]`, which is the null pointer `argv[argc]` when `-h` is last. */
    method ArgAsWritten(args: seq<string>, i: nat) returns (used: nat, next: nat)
      requires i < |args|
      modifies this
      ensures used == Consumed(SwitchAsWritten(args[i], i + 1 < |args|)) && next == i + used
      ensures Applied(SwitchAsWritten(args[i], i + 1 < |args|), if i + 1 < |args| then Some(args[i + 1]) else None)
    {
      var s := SwitchAsWritten(args[i], i + 1 < |args|);
      used := Consumed(s);
      next := i + used;
      Apply(s, if i + 1 < |args| then Some(args[i + 1]) else None);
    }

    /** `arg` with `-h` guarded like `-o`: `next` never passes `argc`. */
    method Arg(args: seq<string>, i: nat) returns (used: nat, next: nat)
      requires i < |args|
      modifies this
      ensures used == Consumed(SwitchOf(args[i], i + 1 < |args|)) && next == i + used
      ensures next <= |args|
      ensures Applied(SwitchOf(args[i], i + 1 < |args|), if i + 1 < |args| then Some(args[i + 1]) else None)
    {
      var s := SwitchOf(args[i], i + 1 < |args|);
      ConsumedWithinArgv(args, i);
      used := Consumed(s);
      next := i + used;
      Apply(s, if i + 1 < |args| then Some(args[i + 1]) else None);
    }

    /** The settings after switch `s`, given the previous ones; `value` is
        the argument after the switch. */
    twostate predicate Applied(s: Switch, value: Option<string>)
      reads this
    {
      && gDebug == (if s == Debug then 1 else old(gDebug))
      && updateFile == old(updateFile) + (if s == Update then 1 else 0)
      && compileFile == old(compileFile) + (if s == Compile || s == CompileStrings then 1 else 0)
      && compileStrings == old(compileStrings) + (if s == CompileStrings then 1 else 0)
      && batchMode == old(batchMode) + (if s in {Update, Compile, CompileStrings} then 1 else 0)
      && codeFileName == (if s == Output then value else old(codeFileName))
      && codeFileSet == (if s == Output then 1 else old(codeFileSet))
      && headerFileName == (if s == Header then value else old(headerFileName))
      && headerFileSet == (if s == Header then 1 else old(headerFileSet))
    }

    method Apply(s: Switch, value: Option<string>)
      modifies this
      ensures Applied(s, value)
    {
      match s
      case Debug =>
        gDebug := 1;
      case Update =>
        updateFile, batchMode := updateFile + 1, batchMode + 1;
      case Compile =>
        compileFile, batchMode := compileFile + 1, batchMode + 1;
      case CompileStrings =>
        compileFile, compileStrings, batchMode := compileFile + 1, compileStrings + 1, batchMode + 1;
      case Output =>
        codeFileName, codeFileSet := value, 1;
      case Header =>
        headerFileName, headerFileSet := value, 1;
      case Unsupported =>
    }
  }
}
