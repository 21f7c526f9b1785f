# A verified model of a minimal LPMud mudlib

This project models the core of a minimal mudlib for the amylaar LPMud game driver:

- **The master object.** It answers the driver's questions: who may read or write a file, whether an object may be destructed, what uid a new object gets, what to do after a runtime error.
- **The master skeleton.** It documents how the driver reads those answers and holds a `flag()` evaluator for the driver's `-f` option.
- **The login object.** It greets a new connection and promotes it to a player.
- **The player object.** It dispatches every typed verb through a command table built from the command directory.
- **The `say` command.**

The modules follow those files:

- `Lpc` holds the LPC values and string efuns the code relies on.
  - Only the number 0 is false.
  - `string + int` gives decimal text.
  - `lower_case` and `capitalize` work on ASCII.
  - Prefix search and splitting at a separator are defined here too.
- `Sscanf` gives one exact reading of the `sscanf` shapes the mudlib uses:
  - Literal text must match where it stands.
  - A `%s` runs up to the first occurrence of the literal after it.
  - A final `%s` takes the rest of the input.
  - Scanning printed values gives them back when each value ends before the first occurrence of the literal that follows it.
  - A scan of a format with at least one field that fills every field read text that begins with the printed shape of its values. When the format ends with a field, the text is exactly that shape.
- `MasterConventions` (secure/master_skeleton.c) decodes the master's answers as the driver reads them. It also models `flag` and the include-directory patterns.
- `Master` (secure/master.c) is the concrete, fully open policy. Each hook is a function whose contract states what the driver does with its answer. The error reports are texts with parsers that read them back.
- `PlayerObject` (obj/player/player.c) is a `Player` class.
  - `AddCommands` rebuilds the `commands` map in a loop, proved against the specification function `CommandTable`.
  - `CommandHook` looks a verb up in that map.
- `Session` (secure/login.c with the master's `connect`) is a `Driver` class holding the live objects, the connection bindings, the text written and a trace of lifecycle events. Its methods:
  - `Connect`, `Logon` and `Accept` bring in a new connection.
  - `Exec` and `Destruct` model the efuns, each gated by the master.
  - `GetName` promotes the login object to a player.
- `SayCommand` (cmds/say.c) routes a spoken line to the objects of a room. It returns the `catch_message` calls made.

## Model

| member | source | states |
|---|---|---|
| Lpc.FindFirst | secure/master_skeleton.c:307 | the position found is a match of the literal and no earlier position is; no position matches when none is found (the search sscanf does for the text after a `%s`) |
| Lpc.SplitFirstJoin | secure/master.c:15 | splitting `a + sep + b` at the first separator gives back `a` and `b` when `a` holds no separator |
| Lpc.SplitLastJoin | secure/master.c:32-33 | splitting `a + sep + b` at the last separator gives back `a` and `b` when `b` holds no separator |
| Lpc.LowerCase | secure/login.c:28 | `lower_case` keeps the length, lowers each character and leaves no upper-case letter |
| Lpc.Capitalize | obj/player/player.c:71 | `capitalize` keeps the length, upper-cases the first character and keeps the rest |
| Lpc.DecimalRoundTrip | secure/master.c:15 | the decimal text LPC makes of an int (`string + int`) reads back as that int |
| Sscanf.Scan | secure/master_skeleton.c:307 | sscanf never assigns more values than the format has fields |
| Sscanf.ScanPrint | secure/master_skeleton.c:307 | scanning the printed shape of values, each ending before the first occurrence of the literal after it, returns exactly those values |
| Sscanf.ScanSound | secure/master_skeleton.c:307 | a scan of a format with at least one field that fills every field read a text that begins with the printed shape of its values, and is exactly that shape when the format ends with a field |
| Sscanf.SameFirstMatch | secure/master_skeleton.c:307 | two texts that agree up to the end of the first match of a literal have their first match at the same place |
| MasterConventions.DecodePrivilege | secure/master_skeleton.c:716-719 | a privilege_violation answer allows when > 0, reports a misled caller when 0 and is a real violation otherwise (a negative number or a string) |
| MasterConventions.EncodePrivilege | secure/master_skeleton.c:716-719 | every decision has an answer that decodes to it |
| MasterConventions.DecodeFileAccess | secure/master_skeleton.c:912-915 | a valid_read/valid_write answer that is a string names the full path, 1 means the path unchanged, 0 means not allowed |
| MasterConventions.EncodeFileAccess | secure/master_skeleton.c:912-915 | every access has an answer that decodes to it |
| MasterConventions.OperatedPath | secure/master_skeleton.c:912-915 | the file operated on is the returned path, the requested path for 1, none when denied |
| MasterConventions.DecodePrepareDestruct | secure/master_skeleton.c:537-541 | 0 means ready and anything else aborts; a string aborts with that string as the error message |
| MasterConventions.EncodePrepareDestruct | secure/master_skeleton.c:537-541 | every destruct outcome has an answer that decodes to it |
| MasterConventions.RestartsHeartBeat | secure/master_skeleton.c:659-664 | a heart_beat_error answer restarts the heart beat exactly when it is not 0 |
| MasterConventions.Permits | secure/master_skeleton.c:888-897 | a yes/no validator allows exactly when its answer is not 0 |
| MasterConventions.ResolveCreation | secure/master_skeleton.c:836-840 | a creator_file answer that is not a string refuses the object; a string becomes its uid unless it is the backbone uid, which gives way to the uid of the cloning or loading object |
| MasterConventions.BackboneNeverOwnsItself | secure/master_skeleton.c:862-868 | a new object gets the backbone uid only when the object that made it held it |
| MasterConventions.Flag | secure/master_skeleton.c:299-315 | `flag` shuts down exactly for "shutdown", and an unknown flag carries the argument it was given |
| MasterConventions.FlagOutput | secure/master_skeleton.c:309-314 | flag writes nothing exactly for shutdown, `master: Unknown flag <arg>` plus a newline for an unknown flag, and for a call `obj->fun("rest") = `, the result's text and a newline, with a missing rest written as 0 |
| MasterConventions.FlagCallOutput | secure/master_skeleton.c:307-313 | `call <obj> <fun> <rest>` with no blank in obj or fun writes `obj->fun("rest") = `, the result's text and a newline |
| MasterConventions.FlagCallComplete | secure/master_skeleton.c:307-313 | `call <obj> <fun> <rest>` with no blank in obj or fun calls obj->fun(rest) |
| MasterConventions.FlagCallSound | secure/master_skeleton.c:307-313 | every flag taken as a call has exactly the shape `call <obj> <fun> <rest>`, with rest present and no blank in obj or fun |
| MasterConventions.CallScanNeverTwo | secure/master_skeleton.c:307 | the `call %s %s %s` scan never stops at exactly two values, so the `>= 2` test admits only complete calls |
| MasterConventions.FlagCallWithoutArgument | secure/master_skeleton.c:307-314 | `call <obj> <fun>` without an argument is reported as an unknown flag |
| MasterConventions.IncludeCandidate | secure/master_skeleton.c:324-326 | a pattern gives a file name exactly when it holds `%s`, the place where the included name goes |
| MasterConventions.IncludeCandidateOfDir | secure/master_skeleton.c:324-326 | a pattern `dir%s` looks an include file up as dir followed by the name |
| MasterConventions.SkeletonIncludeLookup | secure/master_skeleton.c:331 | the skeleton looks `<name>` up as `sys/<name>` and `lib/<name>` |
| Master.GetRootUid | secure/master.c:48 | the root uid is ROOT_EUID |
| Master.GetBbUid | secure/master.c:50 | the backbone uid differs from the root uid |
| Master.ValidSeteuid | secure/master.c:44 | every seteuid is allowed |
| Master.ValidShadow | secure/master.c:46 | every shadow is allowed |
| Master.ValidRead | secure/master.c:63 | every read goes ahead on the path as requested |
| Master.ValidWrite | secure/master.c:64 | every write goes ahead on the path as requested |
| Master.ValidExec | secure/master.c:66 | every exec is allowed |
| Master.ValidHide | secure/master.c:68-70 | no object may be hidden |
| Master.PrepareDestruct | secure/master.c:109-110 | every object is ready for destruction; none is vetoed |
| Master.CreatorFile | secure/master.c:99-102 | every object gets a creator string that is not the backbone uid |
| Master.DomainFile | secure/master.c:94-97 | the domain answer is never 0 |
| Master.AuthorFile | secure/master.c:104-107 | the author answer is never 0 |
| Master.EveryCreationOwnedByFoo | secure/master.c:99-102 | no new object is refused, and each is owned by "foo" whoever loads it |
| Master.IncludeLookup | secure/master.c:52 | the master looks `<name>` up as `/include/<name>` |
| Master.RuntimeError | secure/master.c:11-18 | the same text `curobj:prg:line`, newline, message is shown and appended to runtime.err |
| Master.RuntimeErrorTextRoundTrip | secure/master.c:15 | object, program, line and message are read back from that text when object and program hold no colon |
| Master.LogError | secure/master.c:20-27 | the same text `file`, newline, message is shown and appended to compile.err |
| Master.LogErrorTextRoundTrip | secure/master.c:24 | file and message are read back from that text when the file name holds no newline |
| Master.HeartBeatError | secure/master.c:29-35 | the heart beat is never restarted, and culprit, message, program, object and line go to the heart_beat log, each ended by a newline |
| Master.HeartBeatTextRoundTrip | secure/master.c:32-33 | all five parts are read back from the heart_beat entry, even a message with newlines of its own, when culprit, program and object hold no newline |
| Master.Crash | secure/master.c:37-41 | the crash entry goes to the crashes log and is the printed shape of `CRASHED on: %s ERROR: %s` plus a newline |
| Master.CrashRoundTrip | secure/master.c:39-40 | the time and error text are read back from the crash entry by that sscanf format, when the time text holds " ERROR: " only at its end and the error text holds no newline |
| PlayerObject.CommandKey | obj/player/player.c:39-40 | a file's verb is the text before the first ".c" in its name (no earlier ".c" occurs), or the whole name when it holds no ".c" |
| PlayerObject.CommandKeyIsScan | obj/player/player.c:40 | the verb is what `sscanf(com, "%s.c", com)` leaves in `com` |
| PlayerObject.CommandKeyStripsSuffix | obj/player/player.c:40 | `verb.c` answers to `verb` when ".c" first occurs at its end |
| PlayerObject.SayFileKey | obj/player/player.c:40 | `say.c` answers to the verb `say` |
| PlayerObject.Handler | obj/player/player.c:41 | a handler is BIN_DIR, a slash and the listed file name |
| PlayerObject.CommandTable | obj/player/player.c:37-42 | every handler in the table starts with BIN_DIR and a slash, and the table has no more entries than files listed |
| PlayerObject.LastIndex | obj/player/player.c:37-42 | finds the last file answering to a verb, with no later one answering to it |
| PlayerObject.CommandTableLookup | obj/player/player.c:37-42 | a verb is in the table exactly when some listed file answers to it, and it maps to the handler of the last such file |
| PlayerObject.DispatchAfterAddCommands | obj/player/player.c:46-57 | after add_commands a verb reaches a handler exactly when a listed file answers to it, and that handler belongs to a listed file |
| PlayerObject.Player.constructor | obj/player/player.c:6 | a new player has no name, an empty command table and no environment |
| PlayerObject.Player.AddCommands | obj/player/player.c:28-44 | the table is emptied and rebuilt from the listing, so no earlier entry survives, and the command hook is installed; nothing else changes |
| PlayerObject.Player.CommandHook | obj/player/player.c:46-57 | a verb without an entry is not handled (0); one with an entry calls `main(verb, arg)` in its handler |
| PlayerObject.Player.EnterGame | obj/player/player.c:59-66 | the player takes the given name, gets the command table of the listing and is moved to START |
| PlayerObject.Player.QueryShort | obj/player/player.c:68-72 | the short description is the name capitalised; it fails when there is no name |
| Session.Login.Create | secure/login.c:4-8 | a new login object has the root euid, which valid_seteuid grants |
| Session.Rebind | secure/login.c:30 | exec moves every connection of the old object to the new one, swaps one of the new object's back to the old one, and leaves the others alone |
| Session.RebindTwice | secure/login.c:30 | doing the same exchange twice gives every connection its object back |
| Session.Unbind | secure/login.c:32 | a destructed object loses its connections and no other connection changes |
| Session.HandOver | secure/login.c:30-32 | exec of a fresh object onto the only connection of the login object changes just that connection, and the login object then drives none |
| Session.Driver.constructor | secure/master.c:6-8 | the empty world in which connect clones the first login object: no objects, connections, text or events; no source line builds it, it is the starting state of the efun model |
| Session.Driver.Connect | secure/master.c:6-8 | connect returns a newly cloned login object with the root euid, never an existing one |
| Session.Driver.Logon | secure/login.c:10-16 | the welcome text, then the `Login: ` prompt, then get_name is armed for the next line |
| Session.Driver.Accept | secure/login.c:10-16 | a new connection is bound to a fresh login object that greeted it and waits in get_name |
| Session.Driver.Exec | secure/login.c:30 | exec, granted by valid_exec, moves the connection when the old object has one, and fails otherwise |
| Session.Driver.Destruct | secure/login.c:32 | prepare_destruct is always ready, so the object is gone with its connections |
| Session.Driver.ClonePlayer | secure/login.c:29 | clone_object gives a new player with no name, an empty table and no environment, which no connection drives; only the live set and the event trace change |
| Session.Driver.Promote | secure/login.c:29-32 | a fresh player is cloned, takes over the connection, enters the game and the login object is gone, in that order |
| Session.Driver.GetName | secure/login.c:18-33 | a zero name re-prompts and re-arms get_name, then fails in lower_case with nothing cloned; any other name moves the connection to a fresh player of the lower-cased name, and the login object destructs itself last |
| Session.LoginToPlayer | secure/login.c:10-33 | from a new connection to a player: greeting, prompt, then the promotion, with the events in order |
| SayCommand.SayFun | cmds/say.c:12-25 | say_fun returns 0; the speaker gets `You say: <mess>` and a newline whether interactive or not; another interactive object gets `<Name> says: <mess>` and a newline; any other object gets nothing |
| SayCommand.Deliveries | cmds/say.c:6-7 | there are no more messages than objects in the room, and every message goes to an object in the room (EachHearsOnce gives one text per object) |
| SayCommand.Main | cmds/say.c:1-10 | main returns 1 and sends what say_fun sends for each object of the room |
| SayCommand.TextsToAppend | cmds/say.c:7 | the texts an object gets from two runs of messages are those of the first run, then those of the second |
| SayCommand.NothingOutsideRoom | cmds/say.c:6-7 | an object that is not in the room hears nothing |
| SayCommand.EachHearsOnce | cmds/say.c:6-23 | in a room where each object appears once, the speaker hears exactly its echo, every other interactive object exactly the speaker's line, and every other object nothing |

## Left out

- `process_input` (secure/master.c:78-92) writes the input line into a file, compiles and runs it under the "Root" euid, and deletes it. That is dynamic evaluation through the file system.
- `logon` of the master (secure/master.c:72-75) only prints the WELCOME file, and the driver never calls it on the master.
- `get_simul_efun`, `valid_socket` and `valid_override` load objects or handle sockets.
- The documentation-only parts of secure/master_skeleton.c have no body to compare against. These include `quota_demon`, `slow_shut_down`, `receive_imp`, `compile_object`, ed support, `disconnect`, `remove_player` and the snoop and shadow checks.
- `privilege_violation` is not defined by secure/master.c. Only its documented result convention is modelled.
- `restore_me` and `save_me` do nothing, and `move_player` is inherited from /obj/living, which is not part of this model. Entering the game sets `location`.
- `catch_message` passes the text to `tell_object`. The say model returns the calls it makes.
- The output sinks `write`, `cat`, `log_file`, `printf` and `tell_object` are left out. The model keeps only the texts and, where the login sequence needs them, the messages written to a connection.
- The clock is left out: `crash` gets the `ctime(time())` text as a parameter.
- Master.Crash: the `now` text is a parameter, so the round trip is stated only for time texts in which " ERROR: " first occurs at their end, and for error texts without a newline.
- The header config.h is not part of this model. ROOT_EUID is taken to be "Root", the euid `process_input` uses. BIN_DIR is "/cmds", LOGIN_OBJ "/secure/login" and PLAYER_OBJ "/obj/player/player". START and the WELCOME text are parameters.
- `get_dir`'s listing is a parameter of `AddCommands`. The handler's `main` is not run: `CommandHook` returns the call it makes.
- MasterConventions.DecodeFileAccess: a valid_read/valid_write answer other than a string, 0 or 1 has no documented meaning. The model treats it as a denial.
- MasterConventions.Permits: the skeleton documents the "0 refuses, anything else allows" reading for valid_exec and valid_seteuid only. It documents neither valid_shadow nor valid_hide (its shadow check is query_allow_shadow, which secure/master.c does not define). The model assumes the same reading for both, so the rows for Master.ValidShadow and Master.ValidHide rest on that assumption.
- MasterConventions.ResolveCreation: the skeleton gives a meaning only to a string and to 0 (secure/master_skeleton.c:860-864). A non-zero number has no documented meaning; the model refuses the object, as it does for 0.
- MasterConventions.IncludeCandidate: how the driver walks the include pattern list is not modelled, only the name each pattern produces. The skeleton's comment speaks of /sys/ and /lib/, but its code returns "sys/%s" and "lib/%s"; the model follows the code.
- Sscanf.Scan: it models only the `%s` and literal shapes the mudlib uses, under one reading of the efun. Formats must alternate between literals and fields. A `%s` before a literal that never occurs ends the scan.
- Session.Driver.GetName: the zero-name path assumes `lower_case(0)` raises a runtime error, as an efun given a number where it expects a string does. The master's `runtime_error` report of it is not linked here.
- Session.Driver.Accept: the result of the login object's logon is not modelled. The skeleton's note on connect (secure/master_skeleton.c:441-442) says logon has to return non-zero to succeed, but secure/login.c:10-11 declares it void, so it returns 0. The model follows the login object's code: the connection stays with the login object and goes on to get_name.
- Session.Driver.Exec: only the exec shape get_name needs is proved in detail. Exec of an object onto itself and the driver's own checks on exec are not modelled.
- Lpc.Capitalize, Lpc.LowerCase: ASCII only, with no locale.
- PlayerObject.Player.QueryShort: `capitalize(0)` is taken to be an error, given as None.
- The `result` text of a called function in `flag` is a parameter. Calling the function is left out.
