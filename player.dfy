/**
  The player object (obj/player/player.c): the command table it rebuilds from
  the listing of the command directory, the hook that dispatches every verb
  through that table, entering the game, and the short description.
 */
module PlayerObject {
  import opened Lpc
  import opened Sscanf

  /** BIN_DIR: the directory holding the command files (cmds/say.c lives there). */
  const BinDir: string := "/cmds"

  /** `%s.c` */
  const CommandFormat: seq<Piece> := [Field, Lit(".c")]

  lemma {:induction false} CommandFormatShape(name: string)
    ensures WellFormed(CommandFormat) && Fields(CommandFormat) == 1
    ensures Print(CommandFormat, [name]) == name + ".c"
    ensures Separated(CommandFormat, [name]) <==> FindFirst(name + ".c", ".c") == Some(|name|)
  {
    var f := CommandFormat;
    assert f[1..] == [Lit(".c")] && f[1..][1..] == [];
    assert [name][1..] == [];
    assert Print(f[1..], []) == ".c" + Print(f[1..][1..], []);
  }

  /**
    The verb a command file answers to: the text before the first ".c", or
    the whole name when it holds none.
   */
  function CommandKey(file: string): (verb: string)
    ensures IsPrefix(verb, file)
    ensures verb == file || MatchAt(file, ".c", |verb|)
    ensures forall j: nat :: j < |verb| ==> !MatchAt(file, ".c", j)
    ensures verb == file ==> forall j: nat :: !MatchAt(file, ".c", j)
  {
    match FindFirst(file, ".c")
    case Some(i) => file[..i]
    case None => file
  }

  /**
    The key is what `sscanf(com, "%s.c", com)` leaves in `com`: the value
    read when the one field is filled, `com` as it was otherwise.
   */
  lemma {:induction false} CommandKeyIsScan(file: string)
    ensures WellFormed(CommandFormat)
    ensures var vals := Scan(file, CommandFormat);
      CommandKey(file) == if |vals| == 1 then vals[0] else file
  {
    CommandFormatShape(file);
    var f := CommandFormat;
    assert f[1..] == [Lit(".c")] && f[1..][1..] == [];
    match FindFirst(file, ".c")
    case None =>
    case Some(i) =>
      assert IsPrefix(".c", file[i..]);
      assert Scan(file[i..], f[1..]) == Scan(file[i..][2..], f[1..][1..]) == [];
  }

  /** A file name `verb.c` answers to `verb` when ".c" first occurs at its end. */
  lemma {:induction false} CommandKeyStripsSuffix(verb: string)
    requires FindFirst(verb + ".c", ".c") == Some(|verb|)
    ensures CommandKey(verb + ".c") == verb
  {
  }

  /** The handler file for a listed command file. */
  function Handler(file: string): (h: string)
    ensures IsPrefix(BinDir + "/", h) && h[|BinDir| + 1..] == file
  {
    BinDir + "/" + file
  }

  /**
    The table the loop of add_commands leaves after the files in `files`, in
    order: each file sets the entry of its verb, so a later file with the same
    verb replaces an earlier one.
   */
  function CommandTable(files: seq<string>): (table: map<string, string>)
    ensures forall verb :: verb in table ==> IsPrefix(BinDir + "/", table[verb])
    ensures |table| <= |files|
  {
    if files == [] then map[]
    else
      var before := CommandTable(files[..|files| - 1]);
      var f := files[|files| - 1];
      assert before[CommandKey(f) := Handler(f)].Keys == before.Keys + {CommandKey(f)};
      before[CommandKey(f) := Handler(f)]
  }

  /** The verbs the listed files answer to, in order. */
  function Verbs(files: seq<string>): (verbs: seq<string>)
    ensures |verbs| == |files|
    ensures forall i :: 0 <= i < |files| ==> verbs[i] == CommandKey(files[i])
  {
    seq(|files|, i requires 0 <= i < |files| => CommandKey(files[i]))
  }

  /** The index of the last occurrence of `v` in `vs`. */
  function LastIndex(vs: seq<string>, v: string): (r: Option<nat>)
    ensures r.Some? ==> r.value < |vs| && vs[r.value] == v
    ensures r.Some? ==> forall j :: r.value < j < |vs| ==> vs[j] != v
    ensures r.None? ==> v !in vs
  {
    if vs == [] then None
    else if vs[|vs| - 1] == v then Some(|vs| - 1)
    else
      var init := vs[..|vs| - 1];
      assert vs == init + [vs[|vs| - 1]];
      LastIndex(init, v)
  }

  /**
    A verb is in the table exactly when some listed file answers to it, and
    its handler is the last such file.
   */
  lemma {:induction false} CommandTableLookup(files: seq<string>, verb: string)
    ensures verb in CommandTable(files) <==> LastIndex(Verbs(files), verb).Some?
    ensures verb in CommandTable(files) ==> CommandTable(files)[verb] == Handler(files[LastIndex(Verbs(files), verb).value])
  {
    if files != [] {
      var n := |files| - 1;
      var init := files[..n];
      assert Verbs(files)[..n] == Verbs(init);
      if CommandKey(files[n]) != verb {
        CommandTableLookup(init, verb);
      }
    }
  }

  /** What command_hook does with a verb. */
  datatype HookResult =
    | NoCommand
      /** call_other(handler, "main", verb, arg); the hook returns what main returns */
    | CallMain(handler: string, verb: string, arg: Option<string>)

  class Player {
    /** real_name, 0 until the player enters the game */
    var realName: Option<string>
    /** the `commands` mapping: verb to handler file */
    var commands: map<string, string>
    /** the environment the player was moved to */
    var location: Option<string>
    /** add_action("command_hook", "", 1) has been done */
    var hookInstalled: bool

    /** A freshly cloned player: no name, an empty table, nowhere. */
    constructor ()
      ensures realName == None && commands == map[] && location == None && !hookInstalled
    {
      realName := None;
      commands := map[];
      location := None;
      hookInstalled := false;
    }

    /**
      add_commands. `files` is the listing of the .c files in BIN_DIR that get_dir gives.
      The table is emptied first, so nothing from an earlier call survives.
     */
    method AddCommands(files: seq<string>)
      modifies this
      ensures commands == CommandTable(files)
      ensures hookInstalled
      ensures realName == old(realName) && location == old(location)
    {
      commands := map[];
      var i := 0;
      while i < |files|
        invariant 0 <= i <= |files|
        invariant commands == CommandTable(files[..i])
        invariant realName == old(realName) && location == old(location)
      {
        var com := CommandKey(files[i]);
        assert files[..i + 1][..i] == files[..i];
        commands := commands[com := Handler(files[i])];
        i := i + 1;
      }
      assert files[..i] == files;
      hookInstalled := true;
    }

    /** command_hook: the current verb is looked up in the table. */
    function CommandHook(verb: string, arg: Option<string>): (r: HookResult)
      reads this
      ensures r == NoCommand <==> verb !in commands
      ensures r.CallMain? ==> r.handler == commands[verb] && r.verb == verb && r.arg == arg
    {
      if verb in commands then CallMain(commands[verb], verb, arg) else NoCommand
    }

    /**
      enter_game: the name is set before the saved state is restored (a no-op
      here), the commands are built and the player is moved to `start` (START).
     */
    method EnterGame(myName: string, files: seq<string>, start: string)
      modifies this
      ensures realName == Some(myName)
      ensures commands == CommandTable(files) && hookInstalled
      ensures location == Some(start)
    {
      realName := Some(myName);
      AddCommands(files);
      location := Some(start);
    }

    /** query_short: the name capitalised; capitalize(0) is an error, given as None. */
    function QueryShort(): (r: Option<string>)
      reads this
      ensures r.Some? <==> realName.Some?
      ensures r.Some? ==> (|r.value| == |realName.value| &&
        (realName.value == [] || (r.value[0] == UpperChar(realName.value[0]) && r.value[1..] == realName.value[1..])))
    {
      match realName
      case None => None
      case Some(n) => Some(Capitalize(n))
    }
  }

  /**
    After add_commands, a verb reaches a handler exactly when some listed file
    answers to it, and then the handler of the last such file.
   */
  lemma {:induction false} DispatchAfterAddCommands(files: seq<string>, verb: string)
    ensures verb in CommandTable(files) <==> exists i :: 0 <= i < |files| && CommandKey(files[i]) == verb
    ensures verb in CommandTable(files) ==> exists i :: 0 <= i < |files| && CommandTable(files)[verb] == Handler(files[i])
  {
    CommandTableLookup(files, verb);
    var vs := Verbs(files);
    if exists i :: 0 <= i < |files| && CommandKey(files[i]) == verb {
      var i :| 0 <= i < |files| && CommandKey(files[i]) == verb;
      assert vs[i] == verb;
    }
  }

  /** The say command file answers to the verb "say". */
  lemma {:induction false} SayFileKey()
    ensures CommandKey("say.c") == "say"
  {
    var f := "say.c";
    assert f[3..5] == ".c";
    assert f[0..2] != ".c" by { assert f[0..2][0] == 's'; }
    assert f[1..3] != ".c" by { assert f[1..3][0] == 'a'; }
    assert f[2..4] != ".c" by { assert f[2..4][0] == 'y'; }
    FirstMatchAt(f, ".c", 3);
    assert f[..3] == "say";
  }
}
