/**
  The login sequence: the master's connect() clones a login object, the
  login object's create() gives it the root euid, logon() greets the new
  connection and asks for a name, and get_name() promotes the connection to a
  freshly cloned player (secure/login.c). The driver side of the efuns
  involved (clone_object, exec, destruct, input_to, write) is a small world:
  the live objects, which object each connection drives, the text written to
  each connection and a trace of the lifecycle events.
 */
module Session {
  import opened Lpc
  import opened MasterConventions
  import opened Master
  import opened PlayerObject

  /** LOGIN_OBJ and PLAYER_OBJ; the header that defines them is not part of this model. */
  const LoginObj: string := "/secure/login"
  const PlayerObj: string := "/obj/player/player"
  /** The program name valid_exec is given for exec() called from the login object. */
  const LoginProgram: string := "secure/login.c"

  class Login {
    var euid: Option<string>
    /** the function the last input_to armed, if it is still waiting */
    var inputTo: Option<string>

    /** create(): seteuid(ROOT_EUID), which the master's valid_seteuid grants. */
    constructor Create()
      ensures euid == Some(RootEuid) && inputTo == None
    {
      euid := if Permits(ValidSeteuid(LoginObj, RootEuid)) then Some(RootEuid) else None;
      inputTo := None;
    }
  }

  /** The lifecycle steps, in the order the driver carries them out. */
  datatype Event =
    | Cloned(file: string)
    | Rebound(file: string)
    | EnteredGame(name: string)
    | Destructed(file: string)
      /** a runtime error raised by the efun `efun`, which ends the running code */
    | Failed(efun: string)

  /** Text written to a connection. */
  datatype Message = Message(conn: nat, text: string)

  /**
    exec(to, from): every connection driving `from` now drives `to`, and one
    driving `to` (if any) takes `from` in exchange.
   */
  function Rebind(b: map<nat, object>, from: object, to: object): (r: map<nat, object>)
    ensures r.Keys == b.Keys
    ensures forall c :: c in b && b[c] == from ==> r[c] == to
    ensures forall c :: c in b && b[c] != from && b[c] == to ==> r[c] == from
    ensures forall c :: c in b && b[c] != from && b[c] != to ==> r[c] == b[c]
  {
    map c | c in b :: if b[c] == from then to else if b[c] == to then from else b[c]
  }

  /** Doing the same exchange twice gives every connection its object back. */
  lemma {:induction false} RebindTwice(b: map<nat, object>, from: object, to: object)
    ensures Rebind(Rebind(b, from, to), from, to) == b
  {
    var r := Rebind(b, from, to);
    var rr := Rebind(r, from, to);
    assert rr.Keys == b.Keys;
    forall c | c in b ensures rr[c] == b[c] {
      if b[c] == from {
        assert r[c] == to;
      } else if b[c] == to {
        assert r[c] == from;
      }
    }
  }

  /** A destructed object loses its connections. */
  function Unbind(b: map<nat, object>, ob: object): (r: map<nat, object>)
    ensures r.Keys == set c | c in b && b[c] != ob
    ensures forall c :: c in r ==> r[c] == b[c]
  {
    map c | c in b && b[c] != ob :: b[c]
  }

  /** No object is driven by two connections. */
  predicate Injective(b: map<nat, object>) {
    forall c, d :: c in b && d in b && b[c] == b[d] ==> c == d
  }

  /**
    exec of a fresh object onto the connection of `from`, then destruct of
    `from`: the connection alone changes hands, `from` drives nothing, and
    destructing it leaves the connections alone.
   */
  lemma {:induction false} HandOver(b: map<nat, object>, conn: nat, from: object, to: object)
    requires Injective(b) && conn in b && b[conn] == from && to !in b.Values
    ensures from in b.Values
    ensures Rebind(b, from, to) == b[conn := to]
    ensures Injective(b[conn := to]) && from !in b[conn := to].Values
    ensures Unbind(b[conn := to], from) == b[conn := to]
  {
    assert b[conn] in b.Values;
    var r := b[conn := to];
    forall c | c in b && c != conn ensures b[c] != from && b[c] != to && r[c] == b[c] {
      assert b[c] in b.Values;
    }
    assert Rebind(b, from, to) == r;
    assert from !in r.Values;
    assert Unbind(r, from) == r;
  }

  lemma {:induction false} AppendFour<T>(e: seq<T>, a: T, b: T, c: T, d: T)
    ensures e + [a] + [b] + [c] + [d] == e + [a, b, c, d]
  {
  }

  class Driver {
    /** the objects that exist */
    var live: set<object>
    /** which object each connection drives */
    var bindings: map<nat, object>
    /** the text written to the connections, in order */
    var output: seq<Message>
    var events: seq<Event>

    /** Connections drive live objects, one object per connection. */
    ghost predicate Valid()
      reads this
    {
      && (forall c :: c in bindings ==> bindings[c] in live)
      && Injective(bindings)
    }

    constructor ()
      ensures Valid()
      ensures live == {} && bindings == map[] && output == [] && events == []
    {
      live := {};
      bindings := map[];
      output := [];
      events := [];
    }

    /** The master's connect(): a new login object, not any existing one. */
    method Connect() returns (l: Login)
      requires Valid()
      modifies this
      ensures Valid()
      ensures fresh(l) && l !in old(live)
      ensures l.euid == Some(RootEuid) && l.inputTo == None
      ensures live == old(live) + {l}
      ensures bindings == old(bindings) && output == old(output)
      ensures events == old(events) + [Cloned(LoginObj)]
    {
      l := new Login.Create();
      live := live + {l};
      events := events + [Cloned(LoginObj)];
    }

    /**
      logon() of the login object: the welcome text (the contents of WELCOME),
      the prompt, and get_name armed for the next input line.
     */
    method Logon(conn: nat, l: Login, welcome: string)
      requires conn in bindings && bindings[conn] == l
      modifies this, l
      ensures output == old(output) + [Message(conn, welcome), Message(conn, "Login: ")]
      ensures l.inputTo == Some("get_name") && l.euid == old(l.euid)
      ensures live == old(live) && bindings == old(bindings) && events == old(events)
    {
      output := output + [Message(conn, welcome), Message(conn, "Login: ")];
      l.inputTo := Some("get_name");
    }

    /** A new connection: connect() in the master, the binding, then logon(). */
    method Accept(conn: nat, welcome: string) returns (l: Login)
      requires Valid() && conn !in bindings
      modifies this
      ensures Valid()
      ensures fresh(l) && l.euid == Some(RootEuid) && l.inputTo == Some("get_name")
      ensures live == old(live) + {l}
      ensures bindings == old(bindings)[conn := l]
      ensures output == old(output) + [Message(conn, welcome), Message(conn, "Login: ")]
      ensures events == old(events) + [Cloned(LoginObj)]
    {
      l := Connect();
      bindings := bindings[conn := l];
      Logon(conn, l, welcome);
    }

    /**
      exec(to, from) called from `program`: granted by valid_exec, it moves the
      connection of `from` to `to`; it fails when `from` drives none.
     */
    method Exec(to: object, from: object, toFile: string, program: string) returns (ok: bool)
      requires Valid() && to in live
      modifies this
      ensures Valid()
      ensures ok <==> Permits(ValidExec(program)) && from in old(bindings).Values
      ensures bindings == if ok then Rebind(old(bindings), from, to) else old(bindings)
      ensures events == old(events) + if ok then [Rebound(toFile)] else []
      ensures live == old(live) && output == old(output)
    {
      ok := Permits(ValidExec(program)) && from in bindings.Values;
      if ok {
        var b := bindings;
        bindings := Rebind(b, from, to);
        forall c, d | c in bindings && d in bindings && bindings[c] == bindings[d]
          ensures c == d
        {
          assert b[c] == b[d];
        }
        assert Injective(bindings);
        events := events + [Rebound(toFile)];
      }
    }

    /**
      destruct(ob) for an object of `file`: prepare_destruct is asked first;
      the master always answers ready, so the object is gone together with
      its connections.
     */
    method Destruct(ob: object, file: string) returns (done: bool)
      requires Valid()
      modifies this
      ensures Valid()
      ensures done && DecodePrepareDestruct(PrepareDestruct(file)) == Ready
      ensures live == old(live) - {ob}
      ensures bindings == Unbind(old(bindings), ob)
      ensures events == old(events) + [Destructed(file)]
      ensures output == old(output)
    {
      done := DecodePrepareDestruct(PrepareDestruct(file)) == Ready;
      if done {
        live := live - {ob};
        bindings := Unbind(bindings, ob);
        events := events + [Destructed(file)];
      }
    }

    /** clone_object(PLAYER_OBJ): a new player that no connection drives yet. */
    method ClonePlayer() returns (np: Player)
      requires Valid()
      modifies this
      ensures Valid()
      ensures fresh(np) && np !in old(live) && np !in bindings.Values
      ensures np.realName == None && np.commands == map[] && np.location == None && !np.hookInstalled
      ensures live == old(live) + {np}
      ensures bindings == old(bindings) && output == old(output)
      ensures events == old(events) + [Cloned(PlayerObj)]
    {
      np := new Player();
      live := live + {np};
      events := events + [Cloned(PlayerObj)];
    }

    /**
      The part of get_name after the name is known: clone a player, exec it
      onto the login object's connection, enter the game, destruct the login
      object.
     */
    method Promote(conn: nat, l: Login, lname: string, files: seq<string>, start: string)
      returns (np: Player)
      requires Valid() && l in live && conn in bindings && bindings[conn] == l
      modifies this
      ensures Valid()
      ensures fresh(np)
      ensures live == old(live) - {l} + {np}
      ensures bindings == old(bindings)[conn := np]
      ensures np.realName == Some(lname) && np.commands == CommandTable(files) && np.hookInstalled
      ensures np.location == Some(start)
      ensures output == old(output)
      ensures events == old(events) + [Cloned(PlayerObj), Rebound(PlayerObj), EnteredGame(lname), Destructed(LoginObj)]
    {
      np := ClonePlayer();
      ghost var b0 := bindings;
      ghost var e1 := events;
      HandOver(b0, conn, l, np);
      var ok := Exec(np, l, PlayerObj, LoginProgram);
      assert ok;
      np.EnterGame(lname, files, start);
      events := events + [EnteredGame(lname)];
      var gone := Destruct(l, LoginObj);
      AppendFour(old(events), Cloned(PlayerObj), Rebound(PlayerObj), EnteredGame(lname), Destructed(LoginObj));
    }

    /**
      get_name(name) of the login object `l`, which drives `conn`. A name of
      0 re-prompts and re-arms input_to, and since nothing returns there the
      code goes on to lower_case(0), which stops it with a runtime error:
      nothing is cloned. Otherwise a fresh player is cloned, takes over the
      connection, enters the game under the lower-cased name (`files` is the
      command directory listing, `start` is START) and the login object
      destructs itself.
     */
    method GetName(conn: nat, l: Login, name: Option<string>, files: seq<string>, start: string)
      returns (p: Option<Player>)
      requires Valid() && l in live && conn in bindings && bindings[conn] == l
      modifies this, l
      ensures Valid()
      ensures name.None? ==>
        && p.None?
        && output == old(output) + [Message(conn, "Login: ")]
        && l.inputTo == Some("get_name") && l.euid == old(l.euid)
        && live == old(live) && bindings == old(bindings)
        && events == old(events) + [Failed("lower_case")]
      ensures name.Some? ==>
        && p.Some? && fresh(p.value)
        && live == old(live) - {l} + {p.value}
        && bindings == old(bindings)[conn := p.value]
        && l !in bindings.Values
        && p.value.realName == Some(LowerCase(name.value))
        && p.value.commands == CommandTable(files) && p.value.hookInstalled
        && p.value.location == Some(start)
        && output == old(output)
        && events == old(events) +
          [Cloned(PlayerObj), Rebound(PlayerObj), EnteredGame(LowerCase(name.value)), Destructed(LoginObj)]
    {
      if name.None? {
        output := output + [Message(conn, "Login: ")];
        l.inputTo := Some("get_name");
        events := events + [Failed("lower_case")];
        p := None;
        return;
      }
      var np := Promote(conn, l, LowerCase(name.value), files, start);
      p := Some(np);
    }
  }

  /**
    The whole promotion from a new connection: after accept and a name, the
    connection drives a player of that name in lower case, the login object is
    gone, and the player's commands are the directory's.
   */
  method LoginToPlayer(d: Driver, conn: nat, welcome: string, name: string, files: seq<string>, start: string)
    returns (p: Player)
    requires d.Valid() && conn !in d.bindings
    modifies d
    ensures d.Valid()
    ensures fresh(p) && d.bindings == old(d.bindings)[conn := p]
    ensures p in d.live && d.live - {p} == old(d.live)
    ensures p.realName == Some(LowerCase(name)) && p.commands == CommandTable(files)
    ensures d.output == old(d.output) + [Message(conn, welcome), Message(conn, "Login: ")]
    ensures d.events == old(d.events) +
      [Cloned(LoginObj), Cloned(PlayerObj), Rebound(PlayerObj), EnteredGame(LowerCase(name)), Destructed(LoginObj)]
  {
    var l := d.Accept(conn, welcome);
    var r := d.GetName(conn, l, Some(name), files, start);
    p := r.value;
  }
}
