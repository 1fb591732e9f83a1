/**
 The registry of migrating keys in redis_migrate.cpp: the command rm.migrate adds keys, the command filter strips the
 arguments of every command whose first argument is a migrating key.
 */
module MigrationRegistry {
  import opened Bytes

  type Key = seq<byte>

  const MAX_MIGRATEING_NUM := 50
  const TIMEOUT := 10000
  const SIZE_T: int := 0x1_0000_0000_0000_0000

  /** The fields of migrateObj that the command sets; host and key are copies of the argument strings. */
  datatype MigrateObj = MigrateObj(host: seq<byte>, port: nat, slot: nat, key: Key, timeout: int, isCache: bool)

  /** What findMigrating returns for a key that is not registered. */
  const NOT_FOUND := MigrateObj([], 0, 0, [], 0, false)

  datatype Reply = OK | ArgsNumberFailed | InvalidPort | TooManyKeys | TryAgainLater

  /** RedisModule_StringToDouble with the cast to int: None when the string is no number. */
  type ToInt = seq<byte> -> Option<int>

  /** An int stored in a size_t. */
  function SizeT(i: int): (r: nat)
    ensures r < SIZE_T
  {
    i % SIZE_T
  }

  datatype State = State(migrating: map<Key, MigrateObj>, isMigrating: bool)

  /** Arguments of this key are withheld. */
  predicate Blocked(s: State, key: Key) {
    key in s.migrating && s.migrating[key].host != []
  }

  /** The answer to rm.migrate, in the order of its checks. */
  function ReplyTo(s: State, argv: seq<seq<byte>>, keysRequest: bool, toInt: ToInt): Reply {
    if |argv| != 5 then ArgsNumberFailed
    else if keysRequest then OK
    else if toInt(argv[2]) == None then InvalidPort
    else if toInt(argv[3]) == None then InvalidPort
    else if |s.migrating| >= MAX_MIGRATEING_NUM then TooManyKeys
    else if Blocked(s, argv[4]) then TryAgainLater
    else OK
  }

  /** The command adds or overwrites an entry. */
  predicate Registers(s: State, argv: seq<seq<byte>>, keysRequest: bool, toInt: ToInt) {
    !keysRequest && ReplyTo(s, argv, keysRequest, toInt) == OK
  }

  function ObjectOf(argv: seq<seq<byte>>, toInt: ToInt): MigrateObj
    requires |argv| == 5 && toInt(argv[2]) != None && toInt(argv[3]) != None
  {
    MigrateObj(argv[1], SizeT(toInt(argv[2]).value), SizeT(toInt(argv[3]).value), argv[4], TIMEOUT, false)
  }

  function AfterCommand(s: State, argv: seq<seq<byte>>, keysRequest: bool, toInt: ToInt): State {
    if Registers(s, argv, keysRequest, toInt) then State(s.migrating[argv[4] := ObjectOf(argv, toInt)], true) else s
  }

  /** What the filter leaves of a command. */
  function Filtered(s: State, args: seq<seq<byte>>): seq<seq<byte>> {
    if |args| >= 2 && Blocked(s, args[1]) then [args[0]] else args
  }

  /** RedisModuleCommandFilterCtx. */
  class FilterContext {
    var args: seq<seq<byte>>

    constructor (args: seq<seq<byte>>)
      ensures this.args == args
    {
      this.args := args;
    }

    method ArgDelete(pos: nat)
      requires pos < |args|
      modifies this
      ensures args == old(args[..pos] + args[pos + 1..])
    {
      args := args[..pos] + args[pos + 1..];
    }
  }

  class Registry {
    var migrating: map<Key, MigrateObj>
    var isMigrating: bool

    function Value(): State
      reads this
    {
      State(migrating, isMigrating)
    }

    constructor ()
      ensures Value() == State(map[], false)
    {
      migrating, isMigrating := map[], false;
    }

    method FindMigrating(key: Key) returns (m: MigrateObj)
      ensures m == if key in migrating then migrating[key] else NOT_FOUND
    {
      if key in migrating {
        return migrating[key];
      }
      return NOT_FOUND;
    }

    /** rm_migrateCommand. */
    method MigrateCommand(argv: seq<seq<byte>>, keysRequest: bool, toInt: ToInt) returns (reply: Reply)
      modifies this
      ensures Value() == AfterCommand(old(Value()), argv, keysRequest, toInt)
      ensures reply == ReplyTo(old(Value()), argv, keysRequest, toInt)
    {
      if |argv| != 5 { return ArgsNumberFailed; }
      if keysRequest { return OK; }
      var host := argv[1];
      var port := toInt(argv[2]);
      if port == None { return InvalidPort; }
      var slot := toInt(argv[3]);
      if slot == None { return InvalidPort; }
      var key := argv[4];
      if |migrating| >= MAX_MIGRATEING_NUM { return TooManyKeys; }
      var m := FindMigrating(key);
      if |m.host| > 0 { return TryAgainLater; }
      m := CreateMigrateObject(host, port.value, slot.value, key, m);
      migrating := migrating[key := m];
      isMigrating := true;
      return OK;
    }

    /** createMigrateObject. */
    method CreateMigrateObject(host: seq<byte>, port: int, slot: int, key: Key, m0: MigrateObj) returns (m: MigrateObj)
      ensures m == MigrateObj(host, SizeT(port), SizeT(slot), key, TIMEOUT, false)
    {
      m := m0.(port := SizeT(port), slot := SizeT(slot));
      m := m.(timeout := TIMEOUT, isCache := false);
      m := m.(host := host, key := key);
    }

    /** rm_migrateFilter: arguments are deleted while the list is scanned. */
    method MigrateFilter(filter: FilterContext)
      requires isMigrating <==> migrating != map[]
      modifies filter
      ensures filter.args == Filtered(Value(), old(filter.args))
    {
      if !isMigrating { return; }
      var pos := 0;
      var isMigratingKey := false;
      ghost var args := filter.args;
      assert args[..0] == [];
      while pos < |filter.args|
        invariant 0 <= pos <= |filter.args| && migrating == old(migrating) && isMigrating == old(isMigrating)
        invariant isMigratingKey ==> |args| >= 2 && Blocked(Value(), args[1]) && pos == 1 && filter.args[0] == args[0]
        invariant !isMigratingKey ==> filter.args == args && (pos >= 2 ==> !Blocked(Value(), args[1]))
        decreases |filter.args| - pos
      {
        var arg := filter.args[pos];
        if isMigratingKey {
          filter.ArgDelete(pos);
          continue;
        }
        if pos == 1 {
          var m := FindMigrating(arg);
          if |m.host| > 0 {
            isMigratingKey := true;
            filter.ArgDelete(pos);
            continue;
          }
        }
        pos := pos + 1;
      }
    }
  }

  // ---- Whole runs ----

  datatype Event = Command(argv: seq<seq<byte>>, keysRequest: bool)

  function After(s: State, events: seq<Event>, toInt: ToInt): State
    decreases |events|
  {
    if events == [] then s
    else After(AfterCommand(s, events[0].argv, events[0].keysRequest, toInt), events[1..], toInt)
  }

  predicate Valid(s: State) {
    && |s.migrating| <= MAX_MIGRATEING_NUM
    && (s.isMigrating <==> s.migrating != map[])
    && (forall k :: k in s.migrating ==> s.migrating[k].key == k && s.migrating[k].timeout == TIMEOUT)
  }

  const FRESH := State(map[], false)

  lemma {:induction false} CommandKeeps(s: State, argv: seq<seq<byte>>, keysRequest: bool, toInt: ToInt)
    requires Valid(s)
    ensures Valid(AfterCommand(s, argv, keysRequest, toInt))
  {
    if Registers(s, argv, keysRequest, toInt) {
      var s' := AfterCommand(s, argv, keysRequest, toInt);
      assert s'.migrating.Keys == s.migrating.Keys + {argv[4]};
      assert |s'.migrating.Keys| <= |s.migrating.Keys| + 1;
      assert argv[4] in s'.migrating;
    }
  }

  /** At most 50 keys; the flag says whether there is one; every entry carries its own key. */
  lemma {:induction false} ValidOverRuns(s: State, events: seq<Event>, toInt: ToInt)
    requires Valid(s)
    ensures Valid(After(s, events, toInt))
    decreases |events|
  {
    if events != [] {
      CommandKeeps(s, events[0].argv, events[0].keysRequest, toInt);
      ValidOverRuns(AfterCommand(s, events[0].argv, events[0].keysRequest, toInt), events[1..], toInt);
    }
  }

  /** No run drops a key, or changes an entry that has a host. */
  lemma {:induction false} EntriesStay(s: State, events: seq<Event>, toInt: ToInt, key: Key)
    requires key in s.migrating
    ensures key in After(s, events, toInt).migrating
    ensures s.migrating[key].host != [] ==> After(s, events, toInt).migrating[key] == s.migrating[key]
    decreases |events|
  {
    if events != [] {
      EntriesStay(AfterCommand(s, events[0].argv, events[0].keysRequest, toInt), events[1..], toInt, key);
    }
  }

  /** Once rm.migrate accepted a key with a host, every later command on it is reduced to its name. */
  lemma {:induction false} BlockedForGood(
    s: State, argv: seq<seq<byte>>, events: seq<Event>, toInt: ToInt, args: seq<seq<byte>>)
    requires Registers(s, argv, false, toInt) && argv[1] != []
    requires |args| >= 2 && args[1] == argv[4]
    ensures Filtered(After(AfterCommand(s, argv, false, toInt), events, toInt), args) == [args[0]]
  {
    EntriesStay(AfterCommand(s, argv, false, toInt), events, toInt, argv[4]);
  }

  /** An accepted command protects its key exactly when it gives a host. */
  lemma {:induction false} AcceptedBlocksIff(s: State, argv: seq<seq<byte>>, toInt: ToInt)
    requires Registers(s, argv, false, toInt)
    ensures Blocked(AfterCommand(s, argv, false, toInt), argv[4]) <==> argv[1] != []
  {
  }

  /** The event is accepted in state s and gives the key a host. */
  predicate Protects(s: State, e: Event, toInt: ToInt, key: Key) {
    Registers(s, e.argv, e.keysRequest, toInt) && e.argv[4] == key && e.argv[1] != []
  }

  /** A key is protected if and only if it was before, or some accepted command gave it a host. */
  lemma {:induction false} BlockedIff(s: State, events: seq<Event>, toInt: ToInt, key: Key)
    ensures Blocked(After(s, events, toInt), key) <==>
            Blocked(s, key)
            || exists i :: 0 <= i < |events| && Protects(After(s, events[..i], toInt), events[i], toInt, key)
    decreases |events|
  {
    if events != [] {
      var e, rest := events[0], events[1..];
      var s' := AfterCommand(s, e.argv, e.keysRequest, toInt);
      BlockedIff(s', rest, toInt, key);
      assert events[..0] == [];
      assert Blocked(s', key) <==> Blocked(s, key) || Protects(After(s, events[..0], toInt), e, toInt, key);
      forall i | 0 <= i < |rest| ensures After(s', rest[..i], toInt) == After(s, events[..i + 1], toInt) {
        assert events[..i + 1][0] == e && events[..i + 1][1..] == rest[..i];
      }
      if i :| 0 <= i < |rest| && Protects(After(s', rest[..i], toInt), rest[i], toInt, key) {
        assert Protects(After(s, events[..i + 1], toInt), events[i + 1], toInt, key);
      }
      if i :| 0 <= i < |events| && Protects(After(s, events[..i], toInt), events[i], toInt, key) {
        assert i > 0 ==> Protects(After(s', rest[..i - 1], toInt), rest[i - 1], toInt, key);
      }
    }
  }

  /** A command passes untouched if and only if no accepted command gave its first argument a host. */
  lemma {:induction false} OthersPass(events: seq<Event>, toInt: ToInt, args: seq<seq<byte>>)
    requires |args| >= 2
    ensures Filtered(After(FRESH, events, toInt), args) == args <==>
            forall i :: 0 <= i < |events| ==>
              !Protects(After(FRESH, events[..i], toInt), events[i], toInt, args[1])
  {
    BlockedIff(FRESH, events, toInt, args[1]);
  }

  /** With 50 keys registered the registry never changes again. */
  lemma {:induction false} FullForGood(s: State, events: seq<Event>, toInt: ToInt)
    requires |s.migrating| >= MAX_MIGRATEING_NUM
    ensures After(s, events, toInt) == s
    decreases |events|
  {
    if events != [] {
      FullForGood(s, events[1..], toInt);
    }
  }

  /** A key registered with an empty host is counted, but not protected, and can be registered again. */
  lemma {:induction false} EmptyHostPasses(s: State, argv: seq<seq<byte>>, toInt: ToInt, args: seq<seq<byte>>)
    requires Registers(s, argv, false, toInt) && argv[1] == []
    requires |args| >= 2 && args[1] == argv[4]
    ensures var s' := AfterCommand(s, argv, false, toInt);
            && s'.isMigrating && argv[4] in s'.migrating && Filtered(s', args) == args
            && |s'.migrating| == |s.migrating| + (if argv[4] in s.migrating then 0 else 1)
            && (Registers(s', argv, false, toInt) <==> |s'.migrating| < MAX_MIGRATEING_NUM)
  {
    var s' := AfterCommand(s, argv, false, toInt);
    assert s'.migrating.Keys == s.migrating.Keys + {argv[4]};
    if argv[4] in s.migrating {
      assert s'.migrating.Keys == s.migrating.Keys;
    } else {
      assert |s.migrating.Keys + {argv[4]}| == |s.migrating.Keys| + 1;
    }
  }

  // ---- Commands of clients, which pass the filter first ----

  /** isMigrate: the name of the command is rm.migrate. */
  datatype ClientCommand = ClientCommand(isMigrate: bool, argv: seq<seq<byte>>)

  function AfterClient(s: State, c: ClientCommand, toInt: ToInt): State {
    if c.isMigrate then AfterCommand(s, Filtered(s, c.argv), false, toInt) else s
  }

  function AfterClients(s: State, cs: seq<ClientCommand>, toInt: ToInt): State
    decreases |cs|
  {
    if cs == [] then s else AfterClients(AfterClient(s, cs[0], toInt), cs[1..], toInt)
  }

  /** The filter, then the handler: None is the answer of another command, which is not modelled. */
  method Serve(registry: Registry, c: ClientCommand, toInt: ToInt) returns (args: seq<seq<byte>>, reply: Option<Reply>)
    requires Valid(registry.Value())
    modifies registry
    ensures registry.Value() == AfterClient(old(registry.Value()), c, toInt) && Valid(registry.Value())
    ensures args == Filtered(old(registry.Value()), c.argv)
    ensures reply == if c.isMigrate then Some(ReplyTo(old(registry.Value()), args, false, toInt)) else None
  {
    var filter := new FilterContext(c.argv);
    registry.MigrateFilter(filter);
    args := filter.args;
    reply := None;
    if c.isMigrate {
      CommandKeeps(registry.Value(), args, false, toInt);
      var r := registry.MigrateCommand(args, false, toInt);
      reply := Some(r);
    }
  }

  /** rm.migrate itself loses its arguments when its host is a protected key, and is refused. */
  lemma {:induction false} HostThatIsAKey(s: State, argv: seq<seq<byte>>, toInt: ToInt)
    requires |argv| >= 2
    ensures Registers(s, Filtered(s, argv), false, toInt) <==>
            Registers(s, argv, false, toInt) && !Blocked(s, argv[1])
    ensures Blocked(s, argv[1]) ==> ReplyTo(s, Filtered(s, argv), false, toInt) == ArgsNumberFailed
  {
  }

  /** The client command is accepted in state s and gives the key a host. */
  predicate ClientProtects(s: State, c: ClientCommand, toInt: ToInt, key: Key) {
    && c.isMigrate && Protects(s, Command(c.argv, false), toInt, key)
    && !Blocked(s, c.argv[1])
  }

  /**
   With the filter in between: a key is protected if and only if it was before, or some rm.migrate gave it a host that
   was not a protected key itself.
   */
  lemma {:induction false} ClientsBlockedIff(s: State, cs: seq<ClientCommand>, toInt: ToInt, key: Key)
    ensures Blocked(AfterClients(s, cs, toInt), key) <==>
            Blocked(s, key)
            || exists i :: 0 <= i < |cs| && ClientProtects(AfterClients(s, cs[..i], toInt), cs[i], toInt, key)
    decreases |cs|
  {
    if cs != [] {
      var c, rest := cs[0], cs[1..];
      var s' := AfterClient(s, c, toInt);
      ClientsBlockedIff(s', rest, toInt, key);
      if |c.argv| >= 2 {
        HostThatIsAKey(s, c.argv, toInt);
      }
      assert cs[..0] == [];
      assert Blocked(s', key) <==> Blocked(s, key) || ClientProtects(AfterClients(s, cs[..0], toInt), c, toInt, key);
      forall i | 0 <= i < |rest| ensures AfterClients(s', rest[..i], toInt) == AfterClients(s, cs[..i + 1], toInt) {
        assert cs[..i + 1][0] == c && cs[..i + 1][1..] == rest[..i];
      }
      if i :| 0 <= i < |rest| && ClientProtects(AfterClients(s', rest[..i], toInt), rest[i], toInt, key) {
        assert ClientProtects(AfterClients(s, cs[..i + 1], toInt), cs[i + 1], toInt, key);
      }
      if i :| 0 <= i < |cs| && ClientProtects(AfterClients(s, cs[..i], toInt), cs[i], toInt, key) {
        assert i > 0 ==> ClientProtects(AfterClients(s', rest[..i - 1], toInt), rest[i - 1], toInt, key);
      }
    }
  }

  /** The calls of the handler that the commands of clients amount to. */
  function Reaching(s: State, cs: seq<ClientCommand>, toInt: ToInt): seq<Event>
    decreases |cs|
  {
    if cs == [] then []
    else
      (if cs[0].isMigrate then [Command(Filtered(s, cs[0].argv), false)] else [])
      + Reaching(AfterClient(s, cs[0], toInt), cs[1..], toInt)
  }

  /** Every run of clients is a run of the handler, so what holds over those holds over these. */
  lemma {:induction false} ClientsAreARun(s: State, cs: seq<ClientCommand>, toInt: ToInt)
    ensures AfterClients(s, cs, toInt) == After(s, Reaching(s, cs, toInt), toInt)
    decreases |cs|
  {
    if cs != [] {
      var s', rest := AfterClient(s, cs[0], toInt), Reaching(AfterClient(s, cs[0], toInt), cs[1..], toInt);
      ClientsAreARun(s', cs[1..], toInt);
      if cs[0].isMigrate {
        var events := Reaching(s, cs, toInt);
        assert events == [Command(Filtered(s, cs[0].argv), false)] + rest;
        assert events[1..] == rest;
      } else {
        assert [] + rest == rest;
      }
    }
  }

  /** A protected key stays protected whatever clients send. */
  lemma {:induction false} ClientsCannotUnblock(s: State, cs: seq<ClientCommand>, toInt: ToInt, args: seq<seq<byte>>)
    requires Valid(s) && |args| >= 2 && Blocked(s, args[1])
    ensures Valid(AfterClients(s, cs, toInt)) && Filtered(AfterClients(s, cs, toInt), args) == [args[0]]
  {
    ClientsAreARun(s, cs, toInt);
    ValidOverRuns(s, Reaching(s, cs, toInt), toInt);
    EntriesStay(s, Reaching(s, cs, toInt), toInt, args[1]);
  }

  // ---- Answers and entries, spelt out ----

  /** When rm.migrate answers what, and what it stores. */
  lemma {:induction false} CommandSpeltOut(s: State, argv: seq<seq<byte>>, toInt: ToInt)
    ensures var reply, s' := ReplyTo(s, argv, false, toInt), AfterCommand(s, argv, false, toInt);
            && (reply == ArgsNumberFailed <==> |argv| != 5)
            && (|argv| == 5 ==>
                  var numbers := toInt(argv[2]) != None && toInt(argv[3]) != None;
                  var taken := argv[4] in s.migrating && s.migrating[argv[4]].host != [];
                  && (reply == InvalidPort <==> !numbers)
                  && (reply == TooManyKeys <==> numbers && |s.migrating| >= 50)
                  && (reply == TryAgainLater <==> numbers && |s.migrating| < 50 && taken)
                  && (reply == OK <==> numbers && |s.migrating| < 50 && !taken))
            && (reply != OK ==> s' == s)
            && (reply == OK ==>
                  && s'.isMigrating && argv[4] in s'.migrating
                  && (forall k :: k != argv[4] ==> (k in s'.migrating <==> k in s.migrating)
                                                   && (k in s.migrating ==> s'.migrating[k] == s.migrating[k]))
                  && var m := s'.migrating[argv[4]];
                     && m.host == argv[1] && m.key == argv[4] && m.timeout == 10000 && !m.isCache
                     && m.port == toInt(argv[2]).value % 0x1_0000_0000_0000_0000
                     && m.slot == toInt(argv[3]).value % 0x1_0000_0000_0000_0000)
  {
  }

  /** A request for key positions stores nothing; what the filter leaves of a command. */
  lemma {:induction false} FilterSpeltOut(s: State, args: seq<seq<byte>>, toInt: ToInt)
    ensures AfterCommand(s, args, true, toInt) == s
    ensures Filtered(s, args)
         == if |args| >= 2 && args[1] in s.migrating && s.migrating[args[1]].host != [] then [args[0]] else args
  {
  }
}
