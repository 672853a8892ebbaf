/** The hot-reloading command registry and its three maps
    (packages/wazeko/src/plugins/command-loader.ts). */
module Registry {

  import opened Options

  /** A command definition; an empty file path stands for none, and paths are already resolved.
      `body` stands for the handler. */
  datatype Command = Command(name: string, aliases: seq<string>, filePath: string, body: int)

  datatype State = State(commands: map<string, Command>, aliases: map<string, string>,
                         fileMap: map<string, seq<string>>)

  /** `toLowerCase` on ASCII letters. */
  function LowerChar(c: char): char {
    if 'A' <= c <= 'Z' then (c as int + 32) as char else c
  }

  function Lower(s: string): string {
    seq(|s|, i requires 0 <= i < |s| => LowerChar(s[i]))
  }

  lemma LowerTwice(s: string)
    ensures Lower(Lower(s)) == Lower(s)
  {}

  function SetAliases(m: map<string, string>, aliases: seq<string>, name: string): map<string, string>
    decreases |aliases|
  {
    if aliases == [] then m else SetAliases(m[Lower(aliases[0]) := name], aliases[1..], name)
  }

  function DropAliases(m: map<string, string>, aliases: seq<string>): map<string, string>
    decreases |aliases|
  {
    if aliases == [] then m else DropAliases(m - {Lower(aliases[0])}, aliases[1..])
  }

  function Without(names: seq<string>, name: string): seq<string> {
    if names == [] then [] else (if names[0] == name then [] else [names[0]]) + Without(names[1..], name)
  }

  function Register(s: State, c: Command): State {
    var name := Lower(c.name);
    State(
      s.commands[name := c],
      SetAliases(s.aliases, c.aliases, name),
      if c.filePath == "" then s.fileMap
      else s.fileMap[c.filePath := (if c.filePath in s.fileMap then s.fileMap[c.filePath] else []) + [name]])
  }

  function Unregister(s: State, name: string): State {
    var lower := Lower(name);
    if lower !in s.commands then s
    else
      var c := s.commands[lower];
      State(
        s.commands - {lower},
        DropAliases(s.aliases, c.aliases),
        if c.filePath != "" && c.filePath in s.fileMap
        then s.fileMap[c.filePath := Without(s.fileMap[c.filePath], lower)] else s.fileMap)
  }

  function GetCommand(s: State, query: string): Option<Command> {
    var lower := Lower(query);
    if lower in s.commands then Some(s.commands[lower])
    else if lower in s.aliases && s.aliases[lower] != "" && s.aliases[lower] in s.commands
    then Some(s.commands[s.aliases[lower]])
    else None
  }

  function UnregisterAll(s: State, names: seq<string>): State
    decreases |names|
  {
    if names == [] then s else UnregisterAll(Unregister(s, names[0]), names[1..])
  }

  /** The first phase of `loadModule`: forget what was loaded from the file. */
  function Unload(s: State, file: string): State {
    if file in s.fileMap then UnregisterAll(s, s.fileMap[file]) else s
  }

  function RegisterAll(s: State, items: seq<Command>, file: string): State
    decreases |items|
  {
    if items == [] then s
    else RegisterAll(if items[0].name != "" then Register(s, items[0].(filePath := file)) else s, items[1..], file)
  }

  /** The commands `loadModule` reports: the exported ones with a name. */
  function Accepted(items: seq<Command>, file: string): seq<Command> {
    if items == [] then []
    else (if items[0].name != "" then [items[0].(filePath := file)] else []) + Accepted(items[1..], file)
  }

  /** `loadModule`, given what the import yields; `None` is an import that throws. */
  function LoadModule(s: State, file: string, imported: Option<seq<Command>>): State {
    match imported
    case None => Unload(s, file)
    case Some(items) => RegisterAll(Unload(s, file), items, file)
  }

  // ---------------------------------------------------------------- invariant of every run

  /** Commands stand under their own name, and a command with a file is listed under it. */
  ghost predicate Consistent(s: State) {
    && (forall k :: k in s.commands ==> Lower(s.commands[k].name) == k)
    && (forall k :: k in s.commands && s.commands[k].filePath != "" ==>
          s.commands[k].filePath in s.fileMap && k in s.fileMap[s.commands[k].filePath])
  }

  lemma {:induction false} WithoutKeeps(names: seq<string>, name: string)
    ensures forall x :: x in Without(names, name) <==> x in names && x != name
  {
    if names != [] { WithoutKeeps(names[1..], name); }
  }

  lemma RegisterConsistent(s: State, c: Command)
    requires Consistent(s)
    ensures Consistent(Register(s, c))
  {
    hide SetAliases, Lower;
    var name, t := Lower(c.name), Register(s, c);
    if c.filePath != "" { assert t.fileMap[c.filePath][|t.fileMap[c.filePath]| - 1] == name; }
  }

  lemma UnregisterConsistent(s: State, name: string)
    requires Consistent(s)
    ensures Consistent(Unregister(s, name))
  {
    var lower := Lower(name);
    if lower in s.commands && s.commands[lower].filePath in s.fileMap {
      WithoutKeeps(s.fileMap[s.commands[lower].filePath], lower);
    }
    hide DropAliases, Lower, Without;
  }

  lemma {:induction false} UnregisterAllConsistent(s: State, names: seq<string>)
    requires Consistent(s)
    ensures Consistent(UnregisterAll(s, names))
    decreases |names|
  {
    hide Consistent, Unregister;
    if names != [] {
      UnregisterConsistent(s, names[0]);
      UnregisterAllConsistent(Unregister(s, names[0]), names[1..]);
    }
  }

  lemma {:induction false} RegisterAllConsistent(s: State, items: seq<Command>, file: string)
    requires Consistent(s)
    ensures Consistent(RegisterAll(s, items, file))
    decreases |items|
  {
    hide Consistent, Register;
    if items != [] {
      var item := items[0].(filePath := file);
      RegisterConsistent(s, item);
      RegisterAllConsistent(if item.name != "" then Register(s, item) else s, items[1..], file);
    }
  }

  datatype Call =
    | DoRegister(command: Command)
    | DoUnregister(name: string)
    | DoLoad(file: string, imported: Option<seq<Command>>)

  function Apply(s: State, call: Call): State {
    match call
    case DoRegister(c) => Register(s, c)
    case DoUnregister(name) => Unregister(s, name)
    case DoLoad(file, imported) => LoadModule(s, file, imported)
  }

  function Run(calls: seq<Call>): State {
    if calls == [] then State(map[], map[], map[]) else Apply(Run(calls[..|calls| - 1]), calls[|calls| - 1])
  }

  lemma LoadConsistent(s: State, file: string, imported: Option<seq<Command>>)
    requires Consistent(s)
    ensures Consistent(Unload(s, file)) && Consistent(LoadModule(s, file, imported))
  {
    hide Consistent;
    if file in s.fileMap { UnregisterAllConsistent(s, s.fileMap[file]); }
    if imported.Some? { RegisterAllConsistent(Unload(s, file), imported.value, file); }
  }

  lemma {:induction false} RunConsistent(calls: seq<Call>)
    ensures Consistent(Run(calls))
  {
    hide Register, Unregister, LoadModule;
    if calls != [] {
      var s, call := Run(calls[..|calls| - 1]), calls[|calls| - 1];
      RunConsistent(calls[..|calls| - 1]);
      hide Consistent;
      match call {
        case DoRegister(c) => RegisterConsistent(s, c);
        case DoUnregister(name) => UnregisterConsistent(s, name);
        case DoLoad(file, imported) => LoadConsistent(s, file, imported);
      }
    }
  }

  // ---------------------------------------------------------------- unloading a file

  /** Unregistering a list of names removes exactly the commands of those names. */
  lemma {:induction false} UnregisterAllRemoves(s: State, names: seq<string>)
    ensures UnregisterAll(s, names).commands == map k | k in s.commands && !Named(names, k) :: s.commands[k]
    decreases |names|
  {
    if names != [] {
      UnregisterAllRemoves(Unregister(s, names[0]), names[1..]);
      assert forall k :: Named(names, k) <==> Lower(names[0]) == k || Named(names[1..], k) by { NamedFirst(names); }
      hide Named, Lower, DropAliases, Without;
    }
  }

  ghost predicate Named(names: seq<string>, k: string) {
    exists i :: 0 <= i < |names| && Lower(names[i]) == k
  }

  lemma NamedFirst(names: seq<string>)
    requires names != []
    ensures forall k :: Named(names, k) <==> Lower(names[0]) == k || Named(names[1..], k)
  {
    hide Lower;
    forall k ensures Named(names, k) <==> Lower(names[0]) == k || Named(names[1..], k) {
      if Named(names[1..], k) {
        var i :| 0 <= i < |names[1..]| && Lower(names[1..][i]) == k;
        assert Lower(names[i + 1]) == k;
      }
      if Named(names, k) && Lower(names[0]) != k {
        var i :| 0 <= i < |names| && Lower(names[i]) == k;
        assert Lower(names[1..][i - 1]) == k;
      }
    }
  }

  /** Hot reload: after any run, the unregister phase of loading a file leaves no live command
      from that file, and no new one. */
  lemma UnloadComplete(calls: seq<Call>, file: string)
    requires file != ""
    ensures var s, t := Run(calls), Unload(Run(calls), file);
            && (forall k :: k in t.commands ==> k in s.commands && t.commands[k] == s.commands[k])
            && (forall k :: k in t.commands ==> t.commands[k].filePath != file)
  {
    RunConsistent(calls);
    var s := Run(calls);
    hide Run, Lower;
    if file in s.fileMap {
      var names := s.fileMap[file];
      UnregisterAllRemoves(s, names);
      forall k | k in s.commands && s.commands[k].filePath == file ensures Named(names, k) {
        var i :| 0 <= i < |names| && names[i] == k;
        LowerName(s, k);
        assert Lower(names[i]) == k;
      }
    }
  }

  lemma LowerName(s: State, k: string)
    requires Consistent(s) && k in s.commands
    ensures Lower(k) == k
  {
    LowerTwice(s.commands[k].name);
  }

  /** Unloading the file removes that file's commands and no others. */
  ghost predicate UnloadsOwn(s: State, file: string) {
    forall k :: k in s.commands ==> (k in Unload(s, file).commands <==> s.commands[k].filePath != file)
  }

  ghost predicate ReloadsExact(s: State) { forall file :: file != "" ==> UnloadsOwn(s, file) }

  /** It removes exactly that file's commands if and only if no other live command is still listed
      under the file: one that took over the name of a command from it. */
  lemma UnloadExact(s: State, file: string)
    requires Consistent(s) && file != "" && file in s.fileMap
    ensures UnloadsOwn(s, file)
            <==> (forall k :: k in s.commands && Named(s.fileMap[file], k) ==> s.commands[k].filePath == file)
  {
    hide Lower;
    var names := s.fileMap[file];
    UnregisterAllRemoves(s, names);
    forall k | k in s.commands && s.commands[k].filePath == file ensures Named(names, k) {
      var i :| 0 <= i < |names| && names[i] == k;
      LowerName(s, k);
      assert Lower(names[i]) == k;
    }
    hide UnregisterAll;
  }

  /** Such a take-over: a second file registers the same name, and reloading the first file
      unregisters the second file's command. */
  lemma TakenOverIsRemoved()
    ensures var first, second := Command("a", [], "F", 1), Command("a", [], "G", 2);
            var s := Register(Register(State(map[], map[], map[]), first), second);
            GetCommand(s, "a") == Some(second) && GetCommand(Unload(s, "F"), "a") == None
  {
    var first, second := Command("a", [], "F", 1), Command("a", [], "G", 2);
    var s := Register(Register(State(map[], map[], map[]), first), second);
    assert Lower("a") == "a";
    assert s.fileMap["F"] == ["a"];
    UnregisterAllRemoves(s, ["a"]);
    assert Lower(["a"][0]) == "a";
    assert Named(["a"], "a");
  }

  /** A file lists only live commands of its own. */
  ghost predicate Listed(s: State) {
    && "" !in s.fileMap
    && forall f, k :: f in s.fileMap && k in s.fileMap[f] ==> k in s.commands && s.commands[k].filePath == f
  }

  lemma ListedReloads(s: State)
    requires Consistent(s) && Listed(s)
    ensures ReloadsExact(s)
  {
    hide Lower, UnregisterAll;
    forall file | file != "" ensures UnloadsOwn(s, file) {
      if file in s.fileMap {
        UnloadExact(s, file);
        forall k | k in s.commands && Named(s.fileMap[file], k) ensures s.commands[k].filePath == file {
          var i :| 0 <= i < |s.fileMap[file]| && Lower(s.fileMap[file][i]) == k;
          LowerName(s, s.fileMap[file][i]);
        }
      }
    }
  }

  /** The command takes the live name of a command from another file. */
  predicate TakesOver(s: State, c: Command) {
    var name := Lower(c.name);
    name in s.commands && s.commands[name].filePath != "" && s.commands[name].filePath != c.filePath
  }

  /** After a take-over, reloading the other file would unregister the new command. */
  lemma TakeOverShows(s: State, c: Command)
    requires Consistent(s) && TakesOver(s, c)
    ensures !ReloadsExact(Register(s, c))
  {
    hide SetAliases, UnregisterAll;
    var name, t := Lower(c.name), Register(s, c);
    var file := s.commands[name].filePath;
    RegisterConsistent(s, c);
    UnloadExact(t, file);
    LowerTwice(c.name);
    hide Lower, Consistent;
    var i :| 0 <= i < |s.fileMap[file]| && s.fileMap[file][i] == name;
    assert t.fileMap[file] == s.fileMap[file] && Lower(t.fileMap[file][i]) == name;
    assert Named(t.fileMap[file], name) && t.commands[name] == c;
    assert !UnloadsOwn(t, file);
  }

  /** Registering keeps the lists, and the reloads, exact if and only if it takes nothing over. */
  lemma TakeOverExactly(s: State, c: Command)
    requires Consistent(s) && Listed(s)
    ensures Listed(Register(s, c)) <==> !TakesOver(s, c)
    ensures ReloadsExact(Register(s, c)) <==> !TakesOver(s, c)
  {
    RegisterConsistent(s, c);
    if TakesOver(s, c) { TakeOverShows(s, c); }
    hide SetAliases, Lower, ReloadsExact;
    var name, t := Lower(c.name), Register(s, c);
    if TakesOver(s, c) { assert name in t.fileMap[s.commands[name].filePath]; }
    if Listed(t) { ListedReloads(t); }
  }

  lemma UnregisterListed(s: State, name: string)
    requires Listed(s)
    ensures Listed(Unregister(s, name))
  {
    var lower := Lower(name);
    if lower in s.commands && s.commands[lower].filePath in s.fileMap {
      WithoutKeeps(s.fileMap[s.commands[lower].filePath], lower);
    }
    hide DropAliases, Lower, Without;
    forall f, k | f in Unregister(s, name).fileMap && k in Unregister(s, name).fileMap[f]
      ensures k in Unregister(s, name).commands && Unregister(s, name).commands[k].filePath == f
    {
      assert k in s.fileMap[f];
    }
  }

  lemma {:induction false} UnregisterAllListed(s: State, names: seq<string>)
    requires Listed(s)
    ensures Listed(UnregisterAll(s, names))
    decreases |names|
  {
    hide Listed, Unregister;
    if names != [] {
      UnregisterListed(s, names[0]);
      UnregisterAllListed(Unregister(s, names[0]), names[1..]);
    }
  }

  ghost predicate NoneTakesOver(s: State, items: seq<Command>, file: string)
    decreases |items|
  {
    items != [] ==>
      var item := items[0].(filePath := file);
      && (item.name != "" ==> !TakesOver(s, item))
      && NoneTakesOver(if item.name != "" then Register(s, item) else s, items[1..], file)
  }

  /** Reloads are exact after every registration of a module. */
  ghost predicate AllReloadsExact(s: State, items: seq<Command>, file: string)
    decreases |items|
  {
    items != [] ==>
      var item := items[0].(filePath := file);
      && (item.name != "" ==> ReloadsExact(Register(s, item)))
      && AllReloadsExact(if item.name != "" then Register(s, item) else s, items[1..], file)
  }

  lemma {:induction false} AllListed(s: State, items: seq<Command>, file: string)
    requires Consistent(s) && Listed(s)
    ensures AllReloadsExact(s, items, file) <==> NoneTakesOver(s, items, file)
    ensures NoneTakesOver(s, items, file) ==> Listed(RegisterAll(s, items, file))
    decreases |items|
  {
    hide Listed, Consistent, Register, ReloadsExact, TakesOver;
    if items != [] {
      var item := items[0].(filePath := file);
      TakeOverExactly(s, item);
      RegisterConsistent(s, item);
      var t := if item.name != "" then Register(s, item) else s;
      if Listed(t) { AllListed(t, items[1..], file); }
    }
  }

  /** No registration of the run, direct or by a module, takes a live name of another file. */
  ghost predicate NoTakeOver(calls: seq<Call>) {
    calls != [] ==>
      var s, call := Run(calls[..|calls| - 1]), calls[|calls| - 1];
      && NoTakeOver(calls[..|calls| - 1])
      && (call.DoRegister? ==> !TakesOver(s, call.command))
      && (call.DoLoad? && call.imported.Some? ==> NoneTakesOver(Unload(s, call.file), call.imported.value, call.file))
  }

  /** At every moment of the run, reloading any file would be exact. */
  ghost predicate ReloadsExactThroughout(calls: seq<Call>) {
    && ReloadsExact(Run(calls))
    && (calls != [] ==>
          var s, call := Run(calls[..|calls| - 1]), calls[|calls| - 1];
          && ReloadsExactThroughout(calls[..|calls| - 1])
          && (call.DoLoad? && call.imported.Some? ==>
                AllReloadsExact(Unload(s, call.file), call.imported.value, call.file)))
  }

  /** Reloads are exact throughout a run if and only if no registration takes a live name of another
      file; a module may register a name of its own file again. */
  lemma {:induction false} ReloadExactly(calls: seq<Call>)
    ensures ReloadsExactThroughout(calls) <==> NoTakeOver(calls)
    ensures NoTakeOver(calls) ==> Listed(Run(calls))
  {
    RunConsistent(calls);
    if calls == [] {
      ListedReloads(Run(calls));
    } else {
      var s, call := Run(calls[..|calls| - 1]), calls[|calls| - 1];
      ReloadExactly(calls[..|calls| - 1]);
      RunConsistent(calls[..|calls| - 1]);
      hide Consistent, Listed, Register, Unregister, NoneTakesOver, AllReloadsExact, ReloadsExact, TakesOver;
      if Listed(s) {
        match call {
          case DoRegister(c) => TakeOverExactly(s, c);
          case DoUnregister(name) => UnregisterListed(s, name);
          case DoLoad(file, imported) =>
            LoadConsistent(s, file, None);
            if file in s.fileMap { UnregisterAllListed(s, s.fileMap[file]); }
            if imported.Some? { AllListed(Unload(s, file), imported.value, file); }
        }
      }
      if Listed(Run(calls)) { ListedReloads(Run(calls)); }
    }
  }

  /** So after a run without take-overs, unloading a file removes that file's commands and no others. */
  lemma ReloadExact(calls: seq<Call>, file: string)
    requires NoTakeOver(calls) && file != ""
    ensures var s := Run(calls);
            forall k :: k in s.commands ==> (k in Unload(s, file).commands <==> s.commands[k].filePath != file)
  {
    ReloadExactly(calls);
    hide Run, Unload, NoTakeOver;
    assert UnloadsOwn(Run(calls), file);
  }

  // ---------------------------------------------------------------- aliases

  lemma {:induction false} SetAliasesMeans(m: map<string, string>, aliases: seq<string>, name: string)
    ensures forall a :: a in SetAliases(m, aliases, name) <==> a in m || Named(aliases, a)
    ensures forall a :: a in SetAliases(m, aliases, name) ==>
              SetAliases(m, aliases, name)[a] == if Named(aliases, a) then name else m[a]
    decreases |aliases|
  {
    if aliases != [] {
      SetAliasesMeans(m[Lower(aliases[0]) := name], aliases[1..], name);
      NamedFirst(aliases);
      hide Lower, Named;
    }
  }

  lemma {:induction false} DropAliasesMeans(m: map<string, string>, aliases: seq<string>)
    ensures DropAliases(m, aliases) == map a | a in m && !Named(aliases, a) :: m[a]
    decreases |aliases|
  {
    if aliases != [] {
      DropAliasesMeans(m - {Lower(aliases[0])}, aliases[1..]);
      NamedFirst(aliases);
      hide Lower, Named;
    }
  }

  /** The alias map is exactly the union of the live commands' aliases. */
  ghost predicate AliasesExact(s: State) {
    && (forall a :: a in s.aliases ==> s.aliases[a] in s.commands && Named(s.commands[s.aliases[a]].aliases, a))
    && (forall k, a :: k in s.commands && Named(s.commands[k].aliases, a) ==> a in s.aliases && s.aliases[a] == k)
  }

  /** No alias is taken from another command, and a command that is replaced leaves no alias behind. */
  ghost predicate Suits(s: State, c: Command) {
    var name := Lower(c.name);
    && (forall a :: Named(c.aliases, a) && a in s.aliases ==> s.aliases[a] == name)
    && (name in s.commands ==> forall a :: Named(s.commands[name].aliases, a) ==> Named(c.aliases, a))
  }

  /** Registering keeps the alias map exact if and only if the command suits it. */
  lemma RegisterExactly(s: State, c: Command)
    requires AliasesExact(s)
    ensures AliasesExact(Register(s, c)) <==> Suits(s, c)
  {
    var name, t := Lower(c.name), Register(s, c);
    SetAliasesMeans(s.aliases, c.aliases, name);
    hide SetAliases, Named, Lower;
    assert forall k :: k in s.commands && k != name ==> k in t.commands && t.commands[k] == s.commands[k];
  }

  /** An alias taken over: unregistering its new owner leaves the first command without it. */
  lemma AliasStolen()
    ensures var first, second := Command("a", ["x"], "", 1), Command("b", ["x"], "", 2);
            var s := Register(Register(State(map[], map[], map[]), first), second);
            && !AliasesExact(s) && GetCommand(s, "x") == Some(second)
            && GetCommand(Unregister(s, "b"), "a") == Some(first) && GetCommand(Unregister(s, "b"), "x") == None
  {
    var first, second := Command("a", ["x"], "", 1), Command("b", ["x"], "", 2);
    assert Lower("a") == "a" && Lower("b") == "b" && Lower("x") == "x";
    assert Lower(["x"][0]) == "x";
    assert Named(["x"], "x");
    assert SetAliases(map[], ["x"], "a") == map["x" := "a"];
    assert SetAliases(map["x" := "a"], ["x"], "b") == map["x" := "b"];
    assert DropAliases(map["x" := "b"], ["x"]) == map["x" := "b"] - {"x"} == map[];
    hide Lower, SetAliases, DropAliases, Named;
    var s := Register(Register(State(map[], map[], map[]), first), second);
    assert "b" != "a" && "x" != "a" && "x" != "b";
    assert s == State(map["a" := first, "b" := second], map["x" := "b"], map[]);
    assert s.commands["a"] == first && s.aliases["x"] == "b";
    var t := Unregister(s, "b");
    assert t == State(map["a" := first, "b" := second] - {"b"}, map[], map[]);
  }

  /** An alias left behind: a command registered again without it is still found under it. */
  lemma AliasLeft()
    ensures var first, second := Command("a", ["x"], "", 1), Command("a", [], "", 2);
            var s := Register(Register(State(map[], map[], map[]), first), second);
            !AliasesExact(s) && GetCommand(s, "x") == Some(second)
  {
    var first, second := Command("a", ["x"], "", 1), Command("a", [], "", 2);
    assert Lower("a") == "a" && Lower("x") == "x";
    assert SetAliases(map[], ["x"], "a") == map["x" := "a"] && SetAliases(map["x" := "a"], [], "a") == map["x" := "a"];
    var s := Register(Register(State(map[], map[], map[]), first), second);
    hide Lower, SetAliases;
    assert "x" != "a";
    assert s == State(map["a" := second], map["x" := "a"], map[]);
    assert !Named([], "x");
    assert s.aliases["x"] == "a" && s.commands["a"] == second;
  }

  lemma UnregisterExact(s: State, name: string)
    requires AliasesExact(s)
    ensures AliasesExact(Unregister(s, name))
  {
    var lower := Lower(name);
    if lower in s.commands {
      DropAliasesMeans(s.aliases, s.commands[lower].aliases);
      hide DropAliases, Named, Lower, Without;
      var t := Unregister(s, name);
      forall a | a in t.aliases
        ensures t.aliases[a] in t.commands && Named(t.commands[t.aliases[a]].aliases, a)
      {
        assert a in s.aliases;
      }
      forall k, a | k in t.commands && Named(t.commands[k].aliases, a) ensures a in t.aliases && t.aliases[a] == k {
        assert a in s.aliases && s.aliases[a] == k != lower;
        assert !Named(s.commands[lower].aliases, a);
      }
    }
  }

  lemma {:induction false} UnregisterAllExact(s: State, names: seq<string>)
    requires AliasesExact(s)
    ensures AliasesExact(UnregisterAll(s, names))
    decreases |names|
  {
    hide AliasesExact, Unregister;
    if names != [] {
      UnregisterExact(s, names[0]);
      UnregisterAllExact(Unregister(s, names[0]), names[1..]);
    }
  }

  /** Every registration of a module suits the state it meets. */
  ghost predicate AllSuit(s: State, items: seq<Command>, file: string)
    decreases |items|
  {
    items != [] ==>
      var item := items[0].(filePath := file);
      && (item.name != "" ==> Suits(s, item))
      && AllSuit(if item.name != "" then Register(s, item) else s, items[1..], file)
  }

  /** The alias map is exact after every registration of a module. */
  ghost predicate AllExact(s: State, items: seq<Command>, file: string)
    decreases |items|
  {
    items != [] ==>
      var item := items[0].(filePath := file);
      && (item.name != "" ==> AliasesExact(Register(s, item)))
      && AllExact(if item.name != "" then Register(s, item) else s, items[1..], file)
  }

  lemma {:induction false} AllExactly(s: State, items: seq<Command>, file: string)
    requires AliasesExact(s)
    ensures AllExact(s, items, file) <==> AllSuit(s, items, file)
    ensures AllExact(s, items, file) ==> AliasesExact(RegisterAll(s, items, file))
    decreases |items|
  {
    hide AliasesExact, Register, Suits;
    if items != [] {
      var item := items[0].(filePath := file);
      RegisterExactly(s, item);
      var t := if item.name != "" then Register(s, item) else s;
      if AliasesExact(t) { AllExactly(t, items[1..], file); }
    }
  }

  /** Every registration of the run, direct or by a module, suits the state it meets. */
  ghost predicate SuitableRun(calls: seq<Call>) {
    calls != [] ==>
      var s, call := Run(calls[..|calls| - 1]), calls[|calls| - 1];
      && SuitableRun(calls[..|calls| - 1])
      && (call.DoRegister? ==> Suits(s, call.command))
      && (call.DoLoad? && call.imported.Some? ==> AllSuit(Unload(s, call.file), call.imported.value, call.file))
  }

  /** The alias map is exact after every registration of the run. */
  ghost predicate ExactThroughout(calls: seq<Call>) {
    calls != [] ==>
      var s, call := Run(calls[..|calls| - 1]), calls[|calls| - 1];
      && ExactThroughout(calls[..|calls| - 1])
      && (call.DoRegister? ==> AliasesExact(Register(s, call.command)))
      && (call.DoLoad? && call.imported.Some? ==> AllExact(Unload(s, call.file), call.imported.value, call.file))
  }

  /** The alias map stays the union of the live commands' aliases throughout a run if and only if
      every registration suits; unregistering never harms it. */
  lemma {:induction false} RunExact(calls: seq<Call>)
    ensures ExactThroughout(calls) <==> SuitableRun(calls)
    ensures ExactThroughout(calls) ==> AliasesExact(Run(calls))
  {
    if calls != [] {
      var s, call := Run(calls[..|calls| - 1]), calls[|calls| - 1];
      RunExact(calls[..|calls| - 1]);
      hide AliasesExact, Register, Unregister, Suits, AllSuit, AllExact;
      if AliasesExact(s) {
        match call {
          case DoRegister(c) => RegisterExactly(s, c);
          case DoUnregister(name) => UnregisterExact(s, name);
          case DoLoad(file, imported) =>
            if file in s.fileMap { UnregisterAllExact(s, s.fileMap[file]); }
            if imported.Some? { AllExactly(Unload(s, file), imported.value, file); }
        }
      }
    }
  }

  /** With an exact alias map a query finds the live command of that name, or else the one live
      command that declares the alias. */
  lemma LookupMeans(s: State, query: string, c: Command)
    requires Consistent(s) && AliasesExact(s) && "" !in s.commands
    ensures var q := Lower(query);
            GetCommand(s, query) == Some(c) <==>
            if q in s.commands then c == s.commands[q]
            else exists k :: k in s.commands && s.commands[k] == c && Named(c.aliases, q)
  {
    hide Lower, Named;
  }

  /** Unregistering undoes registering for every query if and only if the name was not live and
      no alias of the command resolved to another command before. */
  lemma UnregisterUndoes(s: State, c: Command)
    requires Consistent(s)
    ensures (forall q :: GetCommand(Unregister(Register(s, c), c.name), q) == GetCommand(s, q))
            <==> Lower(c.name) !in s.commands
                 && forall a :: Named(c.aliases, a) ==> a in s.commands || GetCommand(s, a) == None
  {
    var name := Lower(c.name);
    var t := Unregister(Register(s, c), c.name);
    SetAliasesMeans(s.aliases, c.aliases, name);
    DropAliasesMeans(SetAliases(s.aliases, c.aliases, name), c.aliases);
    assert t.commands == s.commands - {name};
    assert t.aliases == map a | a in s.aliases && !Named(c.aliases, a) :: s.aliases[a];
    NamedLower(c.aliases);
    LowerTwice(c.name);
    hide SetAliases, DropAliases, Register, Unregister, Named, Lower;
    if name in s.commands {
      assert GetCommand(s, name) == Some(s.commands[name]);
      assert GetCommand(t, name) != Some(s.commands[name]);
    } else {
      assert t.commands == s.commands;
      forall a | Named(c.aliases, a) ensures a !in s.commands ==> GetCommand(t, a) == None {}
    }
  }

  lemma NamedLower(names: seq<string>)
    ensures forall a :: Named(names, a) ==> Lower(a) == a
  {
    forall a | Named(names, a) ensures Lower(a) == a {
      var i :| 0 <= i < |names| && Lower(names[i]) == a;
      LowerTwice(names[i]);
    }
  }

  // ---------------------------------------------------------------- what a load brings

  /** The last named item of a module with the given lower-case name. */
  function LastNamed(items: seq<Command>, k: string): Option<Command> {
    if items == [] then None
    else
      var last := items[|items| - 1];
      if last.name != "" && Lower(last.name) == k then Some(last) else LastNamed(items[..|items| - 1], k)
  }

  /** The name of the last named item of a module that declares the alias. */
  ghost function LastAliased(items: seq<Command>, a: string): Option<string> {
    if items == [] then None
    else
      var last := items[|items| - 1];
      if last.name != "" && Named(last.aliases, a) then Some(Lower(last.name))
      else LastAliased(items[..|items| - 1], a)
  }

  lemma {:induction false} RegisterAllAppend(s: State, items: seq<Command>, last: Command, file: string)
    ensures var t, c := RegisterAll(s, items, file), last.(filePath := file);
            RegisterAll(s, items + [last], file) == if c.name != "" then Register(t, c) else t
    decreases |items|
  {
    hide Register;
    if items == [] {
      assert [] + [last] == [last] && [last][1..] == [];
    } else {
      assert (items + [last])[1..] == items[1..] + [last];
      var c := items[0].(filePath := file);
      RegisterAllAppend(if c.name != "" then Register(s, c) else s, items[1..], last, file);
    }
  }

  /** After registering the items, a name belongs to the last item that has it, and an alias to the last
      item that declares it; all else is as before. */
  lemma {:induction false} RegisterAllMeans(s: State, items: seq<Command>, file: string, k: string)
    ensures var t, item := RegisterAll(s, items, file), LastNamed(items, k);
            if item.Some? then k in t.commands && t.commands[k] == item.value.(filePath := file)
            else (k in t.commands <==> k in s.commands) && (k in s.commands ==> t.commands[k] == s.commands[k])
    ensures var t, name := RegisterAll(s, items, file), LastAliased(items, k);
            if name.Some? then k in t.aliases && t.aliases[k] == name.value
            else (k in t.aliases <==> k in s.aliases) && (k in s.aliases ==> t.aliases[k] == s.aliases[k])
    decreases |items|
  {
    if items != [] {
      var rest, last := items[..|items| - 1], items[|items| - 1];
      assert items == rest + [last];
      RegisterAllAppend(s, rest, last, file);
      RegisterAllMeans(s, rest, file, k);
      var t := RegisterAll(s, rest, file);
      SetAliasesMeans(t.aliases, last.aliases, Lower(last.name));
      hide RegisterAll, SetAliases, Lower, Named;
    }
  }

  /** What a load brings, in any state: of the names the module exports each belongs to the last item
      that has it, and of all other commands exactly those listed under the file are gone. */
  lemma LoadBrings(s: State, file: string, items: seq<Command>, k: string)
    ensures var t, item := LoadModule(s, file, Some(items)), LastNamed(items, k);
            var gone := file in s.fileMap && Named(s.fileMap[file], k);
            if item.Some? then k in t.commands && t.commands[k] == item.value.(filePath := file)
            else if k in s.commands && !gone then k in t.commands && t.commands[k] == s.commands[k]
            else k !in t.commands
  {
    RegisterAllMeans(Unload(s, file), items, file, k);
    if file in s.fileMap { UnregisterAllRemoves(s, s.fileMap[file]); }
    hide RegisterAll, UnregisterAll, LastNamed, LastAliased, Named, Lower;
  }

  /** A load whose import fails forgets the same commands and brings none. */
  lemma FailedLoadForgets(s: State, file: string, k: string)
    ensures var t := LoadModule(s, file, None);
            var gone := file in s.fileMap && Named(s.fileMap[file], k);
            if k in s.commands && !gone then k in t.commands && t.commands[k] == s.commands[k] else k !in t.commands
  {
    hide UnregisterAll, Named, Lower, RegisterAll;
    if file in s.fileMap {
      UnregisterAllRemoves(s, s.fileMap[file]);
      assert LoadModule(s, file, None) == UnregisterAll(s, s.fileMap[file]);
    }
  }

  /** No named item behind the i-th declares the alias. */
  ghost predicate LastToDeclare(items: seq<Command>, i: nat, a: string) {
    forall j :: i < j < |items| && items[j].name != "" ==> !Named(items[j].aliases, a)
  }

  /** So an item is found under its name afterwards if no later item of the module has that name, and
      under an alias that is no command's name if no later item declares it. */
  lemma LoadFinds(s: State, file: string, items: seq<Command>, i: nat)
    requires i < |items| && items[i].name != ""
    requires forall j :: i < j < |items| && items[j].name != "" ==> Lower(items[j].name) != Lower(items[i].name)
    ensures var t := LoadModule(s, file, Some(items));
            && GetCommand(t, items[i].name) == Some(items[i].(filePath := file))
            && (forall a :: a in items[i].aliases && Lower(a) !in t.commands && LastToDeclare(items, i, Lower(a))
                            && Lower(items[i].name) != "" ==>
                  GetCommand(t, a) == Some(items[i].(filePath := file)))
  {
    var name := Lower(items[i].name);
    LastNamedIs(items, i, name);
    LoadBrings(s, file, items, name);
    var t := LoadModule(s, file, Some(items));
    forall a | a in items[i].aliases && Lower(a) !in t.commands && LastToDeclare(items, i, Lower(a)) && name != ""
      ensures GetCommand(t, a) == Some(items[i].(filePath := file))
    {
      var n :| 0 <= n < |items[i].aliases| && items[i].aliases[n] == a;
      assert Named(items[i].aliases, Lower(a));
      LastAliasedIs(items, i, Lower(a));
      RegisterAllMeans(Unload(s, file), items, file, Lower(a));
      hide RegisterAll, Unload, LastNamed, LastAliased, Named, Lower;
    }
  }

  lemma {:induction false} LastNamedIs(items: seq<Command>, i: nat, k: string)
    requires i < |items| && items[i].name != "" && Lower(items[i].name) == k
    requires forall j :: i < j < |items| && items[j].name != "" ==> Lower(items[j].name) != k
    ensures LastNamed(items, k) == Some(items[i])
    decreases |items|
  {
    hide Lower;
    if i < |items| - 1 { LastNamedIs(items[..|items| - 1], i, k); }
  }

  lemma {:induction false} LastAliasedIs(items: seq<Command>, i: nat, a: string)
    requires i < |items| && items[i].name != "" && Named(items[i].aliases, a) && LastToDeclare(items, i, a)
    ensures LastAliased(items, a) == Some(Lower(items[i].name))
    decreases |items|
  {
    hide Lower, Named;
    if i < |items| - 1 { LastAliasedIs(items[..|items| - 1], i, a); }
  }

  /** What a load reports: an item with a name as itself, one without not at all, in order. */
  lemma {:induction false} AcceptedMeans(items: seq<Command>, more: seq<Command>, item: Command, file: string)
    ensures Accepted([item], file) == if item.name == "" then [] else [item.(filePath := file)]
    ensures Accepted(items + more, file) == Accepted(items, file) + Accepted(more, file)
    decreases |items|
  {
    assert [item][1..] == [];
    if items == [] {
      assert items + more == more;
    } else {
      assert (items + more)[1..] == items[1..] + more;
      AcceptedMeans(items[1..], more, item, file);
    }
  }

  // ---------------------------------------------------------------- the registry

  class CommandRegistry {
    var commands: map<string, Command>
    var aliases: map<string, string>
    var fileMap: map<string, seq<string>>

    ghost function View(): State
      reads this
    {
      State(commands, aliases, fileMap)
    }

    constructor ()
      ensures View() == State(map[], map[], map[])
    {
      commands, aliases, fileMap := map[], map[], map[];
    }

    method RegisterCommand(command: Command)
      modifies this
      ensures View() == Register(old(View()), command)
    {
      var name := Lower(command.name);
      commands := commands[name := command];
      for i := 0 to |command.aliases|
        invariant commands == old(commands)[name := command] && fileMap == old(fileMap)
        invariant SetAliases(aliases, command.aliases[i..], name) == SetAliases(old(aliases), command.aliases, name)
      {
        assert command.aliases[i..][1..] == command.aliases[i + 1..];
        aliases := aliases[Lower(command.aliases[i]) := name];
      }
      if command.filePath != "" {
        var existing := if command.filePath in fileMap then fileMap[command.filePath] else [];
        fileMap := fileMap[command.filePath := existing + [name]];
      }
    }

    method UnregisterCommand(name: string) returns (found: bool)
      modifies this
      ensures View() == Unregister(old(View()), name)
      ensures found <==> Lower(name) in old(commands)
    {
      var lower := Lower(name);
      if lower !in commands { return false; }
      var command := commands[lower];
      commands := commands - {lower};
      for i := 0 to |command.aliases|
        invariant commands == old(commands) - {lower} && fileMap == old(fileMap)
        invariant DropAliases(aliases, command.aliases[i..]) == DropAliases(old(aliases), command.aliases)
      {
        assert command.aliases[i..][1..] == command.aliases[i + 1..];
        aliases := aliases - {Lower(command.aliases[i])};
      }
      if command.filePath != "" && command.filePath in fileMap {
        fileMap := fileMap[command.filePath := Without(fileMap[command.filePath], lower)];
      }
      return true;
    }

    method FindCommand(query: string) returns (command: Option<Command>)
      ensures command == GetCommand(View(), query)
    {
      var lower := Lower(query);
      if lower in commands { return Some(commands[lower]); }
      if lower in aliases {
        var resolvedName := aliases[lower];
        if resolvedName != "" {
          return if resolvedName in commands then Some(commands[resolvedName]) else None;
        }
      }
      return None;
    }

    /** `imported` is what the module exports, flattened; `None` when the import throws. */
    method Load(file: string, imported: Option<seq<Command>>) returns (loaded: seq<Command>)
      modifies this
      ensures View() == LoadModule(old(View()), file, imported)
      ensures imported.Some? ==> loaded == Accepted(imported.value, file)
    {
      hide Register, Unregister, Lower;
      if file in fileMap {
        var oldCommands := fileMap[file];
        ghost var s := View();
        for i := 0 to |oldCommands|
          invariant UnregisterAll(View(), oldCommands[i..]) == UnregisterAll(s, oldCommands)
        {
          assert oldCommands[i..][1..] == oldCommands[i + 1..];
          var found := UnregisterCommand(oldCommands[i]);
        }
      }
      assert View() == Unload(old(View()), file);
      hide UnregisterAll;
      loaded := [];
      if imported.Some? {
        var items := imported.value;
        ghost var s := View();
        for i := 0 to |items|
          invariant RegisterAll(View(), items[i..], file) == RegisterAll(s, items, file)
          invariant loaded + Accepted(items[i..], file) == Accepted(items, file)
        {
          assert items[i..][1..] == items[i + 1..];
          if items[i].name != "" {
            var item := items[i].(filePath := file);
            RegisterCommand(item);
            loaded := loaded + [item];
          }
        }
      }
    }
  }
}
