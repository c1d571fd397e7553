// Applying tool assignments to one runtime's JSON config (apps/api/src/agent-tools.ts). An object's members keep their
// order; a member is found and replaced by its key.

module JsonTools {
  import opened Options
  import opened TomlLexer
  import opened TomlConfig
  import opened TomlValues
  import opened ManagedToml
  import opened ApplyTools

  datatype Json = Obj(fields: seq<Field>) | Arr(items: seq<Json>) | Str(text: string) | Null | Other(text: string)

  datatype Field = Field(key: string, value: Json)

  function Lookup(fields: seq<Field>, key: string): Option<Json> {
    if fields == [] then None else if fields[0].key == key then Some(fields[0].value) else Lookup(fields[1..], key)
  }

  function Put(fields: seq<Field>, key: string, value: Json): seq<Field> {
    if fields == [] then [Field(key, value)]
    else if fields[0].key == key then [Field(key, value)] + fields[1..]
    else [fields[0]] + Put(fields[1..], key, value)
  }

  predicate IsObj(value: Option<Json>) {
    value.Some? && value.value.Obj?
  }

  function FieldsOf(value: Option<Json>): seq<Field> {
    if IsObj(value) then value.value.fields else []
  }

  lemma {:induction false} LookupPut(fields: seq<Field>, key: string, value: Json, other: string)
    ensures Lookup(Put(fields, key, value), other) == if other == key then Some(value) else Lookup(fields, other)
  {
    if fields != [] && fields[0].key != key { LookupPut(fields[1..], key, value, other); }
  }

  // ---------------------------------------------------------------- key paths

  function GetByKeyPath(current: Option<Json>, path: seq<string>): Option<Json>
    decreases |path|
  {
    if path == [] then current
    else if IsObj(current) then GetByKeyPath(Lookup(current.value.fields, path[0]), path[1..])
    else None
  }

  function SetByKeyPath(root: seq<Field>, path: seq<string>, value: Json): seq<Field>
    requires path != []
    decreases |path|
  {
    if |path| == 1 then if path[0] == "" then root else Put(root, path[0], value)
    else Put(root, path[0], Obj(SetByKeyPath(FieldsOf(Lookup(root, path[0])), path[1..], value)))
  }

  // What is set is read back, and what lies elsewhere stays.
  lemma {:induction false} GetSet(root: seq<Field>, path: seq<string>, value: Json)
    requires path != [] && path[|path| - 1] != ""
    ensures GetByKeyPath(Some(Obj(SetByKeyPath(root, path, value))), path) == Some(value)
    decreases |path|
  {
    if |path| == 1 {
      LookupPut(root, path[0], value, path[0]);
      assert path[1..] == [];
    } else {
      var inner := Obj(SetByKeyPath(FieldsOf(Lookup(root, path[0])), path[1..], value));
      LookupPut(root, path[0], inner, path[0]);
      GetSet(FieldsOf(Lookup(root, path[0])), path[1..], value);
    }
  }

  lemma SetElsewhere(root: seq<Field>, path: seq<string>, value: Json, other: seq<string>)
    requires path != [] && other != [] && path[0] != other[0]
    ensures GetByKeyPath(Some(Obj(SetByKeyPath(root, path, value))), other) == GetByKeyPath(Some(Obj(root)), other)
  {
    var inner := if |path| == 1 then value else Obj(SetByKeyPath(FieldsOf(Lookup(root, path[0])), path[1..], value));
    LookupPut(root, path[0], inner, other[0]);
  }

  // ---------------------------------------------------------------- entries

  function Strings(items: seq<Json>): (texts: seq<string>)
  {
    if items == [] then [] else (if items[0].Str? then [items[0].text] else []) + Strings(items[1..])
  }

  predicate AreStrings(items: seq<Json>) {
    forall item <- items :: item.Str?
  }

  function EnvOf(fields: seq<Field>): seq<Pair> {
    if fields == [] then []
    else
      var f := fields[|fields| - 1];
      var known := EnvOf(fields[..|fields| - 1]);
      if f.value.Str? then SetPair(known, Pair(f.key, f.value.text)) else known
  }

  function TextOrNone(value: Option<Json>): Option<string> {
    if value.Some? && value.value.Str? && value.value.text != "" then Some(value.value.text) else None
  }

  function JsonMcpEntry(fields: seq<Field>): Definition {
    var command := Lookup(fields, "command");
    var list := if command.Some? && command.value.Arr? && AreStrings(command.value.items)
                then Some(Strings(command.value.items)) else None;
    var first := if list.Some? && list.value != [] then Some(list.value[0]) else TextOrNone(command);
    var url := TextOrNone(Lookup(fields, "url"));
    var items := Lookup(fields, "args");
    var args := if list.Some? then (if list.value == [] then [] else list.value[1..])
                else if items.Some? && items.value.Arr? then Strings(items.value.items) else [];
    var environment :=
      if IsObj(Lookup(fields, "environment")) then Lookup(fields, "environment") else Lookup(fields, "env");
    var env := EnvOf(FieldsOf(environment));
    Definition(url.Some?, if url.Some? then None else first, if args != [] then Some(args) else None, url,
               if env != [] then Some(env) else None)
  }

  function Quote(texts: seq<string>): (items: seq<Json>)
    ensures |items| == |texts|
    ensures forall i :: 0 <= i < |texts| ==> items[i] == Str(texts[i])
  {
    seq(|texts|, i requires 0 <= i < |texts| => Str(texts[i]))
  }

  function EnvFields(env: seq<Pair>): (fields: seq<Field>)
    ensures |fields| == |env|
    ensures forall i :: 0 <= i < |env| ==> fields[i] == Field(env[i].key, Str(env[i].value))
  {
    seq(|env|, i requires 0 <= i < |env| => Field(env[i].key, Str(env[i].value)))
  }

  function Nullable(text: Option<string>): Json {
    if text.Some? then Str(text.value) else Null
  }

  const OPENCODE_KEYS := {"command", "args", "env", "url", "type", "environment"}

  function Preserved(existing: seq<Field>): seq<Field> {
    if existing == [] then []
    else (if existing[0].key in OPENCODE_KEYS then [] else [existing[0]]) + Preserved(existing[1..])
  }

  // What is written for a server over an existing entry.
  function WrittenEntry(existing: seq<Field>, d: Definition, runtimeId: string): seq<Field> {
    if runtimeId == "cli:opencode" then
      var preserved := Preserved(existing);
      if d.http then Put(Put(preserved, "type", Str("remote")), "url", Nullable(d.url))
      else
        var command := [Nullable(d.command)] + Quote(if d.args.Some? then d.args.value else []);
        var local := Put(Put(preserved, "type", Str("local")), "command", Arr(command));
        if d.env.Some? then Put(local, "environment", Obj(EnvFields(d.env.value))) else local
    else
      var named :=
        if d.command.Some? && d.command.value != "" then Put(existing, "command", Str(d.command.value)) else existing;
      if d.args.Some? then Put(named, "args", Arr(Quote(d.args.value))) else named
  }

  // ---------------------------------------------------------------- applying

  // Members that the catalog does not know.
  function Foreign(current: seq<Field>, catalog: seq<Server>): seq<Field> {
    if current == [] then []
    else
      var f := current[|current| - 1];
      var known := Foreign(current[..|current| - 1], catalog);
      if HasServer(catalog, f.key) then known else Put(known, f.key, f.value)
  }

  function IsWanted(s: Server, current: seq<Field>, assignments: seq<Assignment>, runtimeId: string): bool {
    Or(Decision(assignments, McpToolId(s.name), runtimeId), IsObj(Lookup(current, s.name)))
  }

  function Managed(catalog: seq<Server>, current: seq<Field>, assignments: seq<Assignment>, runtimeId: string,
                   rebuilt: seq<Field>): seq<Field> {
    if catalog == [] then rebuilt
    else
      var s := catalog[|catalog| - 1];
      var known := Managed(catalog[..|catalog| - 1], current, assignments, runtimeId, rebuilt);
      if IsWanted(s, current, assignments, runtimeId)
      then Put(known, s.name, Obj(WrittenEntry(FieldsOf(Lookup(current, s.name)), s.definition, runtimeId)))
      else known
  }

  function Rebuilt(current: seq<Field>, catalog: seq<Server>, assignments: seq<Assignment>,
                   runtimeId: string): seq<Field> {
    Managed(catalog, current, assignments, runtimeId, Foreign(current, catalog))
  }

  method ApplyJson(config: seq<Field>, objectKey: seq<string>, catalog: seq<Server>, assignments: seq<Assignment>,
                   runtimeId: string) returns (written: seq<Field>)
    requires objectKey != []
    ensures var current := FieldsOf(GetByKeyPath(Some(Obj(config)), objectKey));
      written == SetByKeyPath(config, objectKey, Obj(Rebuilt(current, catalog, assignments, runtimeId)))
  {
    hide IsWanted, WrittenEntry, SetByKeyPath, GetByKeyPath;
    var current := FieldsOf(GetByKeyPath(Some(Obj(config)), objectKey));
    var rebuilt := [];
    for i := 0 to |current|
      invariant rebuilt == Foreign(current[..i], catalog)
    {
      assert current[..i + 1][..i] == current[..i];
      if !HasServer(catalog, current[i].key) { rebuilt := Put(rebuilt, current[i].key, current[i].value); }
    }
    assert current[..|current|] == current;
    ghost var foreign := rebuilt;
    for i := 0 to |catalog|
      invariant rebuilt == Managed(catalog[..i], current, assignments, runtimeId, foreign)
    {
      assert catalog[..i + 1][..i] == catalog[..i];
      var s := catalog[i];
      if IsWanted(s, current, assignments, runtimeId) {
        rebuilt := Put(rebuilt, s.name, Obj(WrittenEntry(FieldsOf(Lookup(current, s.name)), s.definition, runtimeId)));
      }
    }
    assert catalog[..|catalog|] == catalog;
    written := SetByKeyPath(config, objectKey, Obj(rebuilt));
  }

  // ---------------------------------------------------------------- presence

  ghost predicate HasDistinctKeys(fields: seq<Field>) {
    forall i, j :: 0 <= i < j < |fields| ==> fields[i].key != fields[j].key
  }

  lemma {:induction false} LookupLast(fields: seq<Field>, key: string)
    requires fields != [] && HasDistinctKeys(fields)
    ensures var n := |fields| - 1;
      Lookup(fields, key) == if fields[n].key == key then Some(fields[n].value) else Lookup(fields[..n], key)
  {
    if |fields| > 1 {
      LookupLast(fields[1..], key);
      assert fields[1..][..|fields| - 2] == fields[..|fields| - 1][1..];
    }
  }

  lemma {:induction false} ForeignStays(current: seq<Field>, catalog: seq<Server>, name: string)
    requires HasDistinctKeys(current)
    ensures Lookup(Foreign(current, catalog), name) == if HasServer(catalog, name) then None else Lookup(current, name)
    decreases |current|
  {
    hide HasServer;
    if current != [] {
      var n := |current| - 1;
      ForeignStays(current[..n], catalog, name);
      LookupLast(current, name);
      LookupPut(Foreign(current[..n], catalog), current[n].key, current[n].value, name);
    }
  }

  lemma {:induction false} ManagedHolds(catalog: seq<Server>, current: seq<Field>, assignments: seq<Assignment>,
                                        runtimeId: string, rebuilt: seq<Field>, name: string)
    requires DistinctNames(catalog)
    ensures Lookup(Managed(catalog, current, assignments, runtimeId, rebuilt), name)
         == var s := FindServer(catalog, name);
            if s.Some? && IsWanted(s.value, current, assignments, runtimeId)
            then Some(Obj(WrittenEntry(FieldsOf(Lookup(current, name)), s.value.definition, runtimeId)))
            else Lookup(rebuilt, name)
    decreases |catalog|
  {
    hide IsWanted, WrittenEntry;
    if catalog != [] {
      var n := |catalog| - 1;
      var s := catalog[n];
      ManagedHolds(catalog[..n], current, assignments, runtimeId, rebuilt, name);
      FindLast(catalog, name);
      NotAmong(catalog, n);
      LookupPut(Managed(catalog[..n], current, assignments, runtimeId, rebuilt), s.name,
                Obj(WrittenEntry(FieldsOf(Lookup(current, s.name)), s.definition, runtimeId)), name);
    }
  }

  lemma {:induction false} FindLast(servers: seq<Server>, name: string)
    requires servers != [] && DistinctNames(servers)
    ensures var n := |servers| - 1;
      FindServer(servers, name) == if servers[n].name == name then Some(servers[n]) else FindServer(servers[..n], name)
  {
    if |servers| > 1 {
      FindLast(servers[1..], name);
      assert servers[1..][..|servers| - 2] == servers[..|servers| - 1][1..];
    }
  }

  // The servers that readers of the config see.
  predicate IsListed(config: seq<Field>, objectKey: seq<string>, name: string) {
    IsObj(Lookup(FieldsOf(GetByKeyPath(Some(Obj(config)), objectKey)), name))
  }

  // Main result: after applying, re-reading the config shows each server exactly as its assignment says, and each
  // unassigned one exactly if it was there before; other members of the section stay as they were.
  lemma JsonPresence(config: seq<Field>, objectKey: seq<string>, tools: seq<Runtime>, r: nat,
                     assignments: seq<Assignment>, name: string)
    requires objectKey != [] && objectKey[|objectKey| - 1] != "" && r < |tools|
    requires HasDistinctKeys(FieldsOf(GetByKeyPath(Some(Obj(config)), objectKey)))
    requires forall n :: HasServer(tools[r].servers, n) <==> IsListed(config, objectKey, n)
    ensures var current := FieldsOf(GetByKeyPath(Some(Obj(config)), objectKey));
      var written := SetByKeyPath(config, objectKey, Obj(Rebuilt(current, CatalogOf(tools), assignments, tools[r].id)));
      && (IsListed(written, objectKey, name) <==>
            match AssignmentFor(assignments, McpToolId(name))
            case Some(a) =>
              HasServer(CatalogOf(tools), name)
              && (a.scope == Common || (a.scope == Specific && tools[r].id in a.runtimeIds))
            case None => IsListed(config, objectKey, name))
      && (!HasServer(CatalogOf(tools), name) ==>
            Lookup(FieldsOf(GetByKeyPath(Some(Obj(written)), objectKey)), name) == Lookup(current, name))
  {
    hide GetByKeyPath, SetByKeyPath, WrittenEntry, Managed, Foreign, Lookup;
    var current, catalog := FieldsOf(GetByKeyPath(Some(Obj(config)), objectKey)), CatalogOf(tools);
    var rebuilt := Rebuilt(current, catalog, assignments, tools[r].id);
    CatalogCovers(tools, |tools|, name);
    GetSet(config, objectKey, Obj(rebuilt));
    ForeignStays(current, catalog, name);
    ManagedHolds(catalog, current, assignments, tools[r].id, Foreign(current, catalog), name);
  }

  // ---------------------------------------------------------------- what a new entry reads back as

  lemma {:induction false} StringsOf(texts: seq<string>)
    ensures Strings(Quote(texts)) == texts && AreStrings(Quote(texts))
  {
    if texts != [] {
      StringsOf(texts[1..]);
      assert Quote(texts)[1..] == Quote(texts[1..]);
      assert texts == [texts[0]] + texts[1..];
    }
  }

  lemma EnvSnoc(env: seq<Pair>)
    requires env != []
    ensures var n := |env| - 1; EnvOf(EnvFields(env)) == SetPair(EnvOf(EnvFields(env[..n])), env[n])
  {
    hide SetPair;
    var n := |env| - 1;
    assert EnvFields(env)[..n] == EnvFields(env[..n]);
  }

  lemma {:induction false} EnvReadsBack(env: seq<Pair>)
    requires DistinctKeys(env)
    ensures EnvOf(EnvFields(env)) == env
  {
    hide SetPair, EnvOf;
    if env == [] {
      NoEnv();
    } else {
      var n := |env| - 1;
      EnvReadsBack(env[..n]);
      EnvSnoc(env);
      forall q | q in env[..n] ensures q.key != env[n].key {
        var i :| 0 <= i < n && env[i] == q;
      }
      SetPairAppends(env[..n], env[n]);
      assert env == env[..n] + [env[n]];
    }
  }

  lemma NoEnv()
    ensures EnvOf(EnvFields([])) == [] && EnvOf([]) == []
  {}

  predicate NoEmptyList<T(==)>(list: Option<seq<T>>) {
    list.Some? ==> list.value != []
  }

  // The definitions that survive being written as a new entry. Only opencode's entries carry a url or an env.
  predicate IsCarried(d: Definition, runtimeId: string) {
    if runtimeId == "cli:opencode" then
      if d.http then d.url.Some? && d.url.value != "" && d.command.None? && d.args.None? && d.env.None?
      else d.url.None? && NoEmptyList(d.args) && NoEmptyList(d.env) && (d.command.None? ==> d.args.None?)
    else
      !d.http && d.url.None? && d.env.None? && NoEmptyList(d.args) && (d.command.Some? ==> d.command.value != "")
  }

  lemma OtherEntryReadsBackIff(d: Definition, runtimeId: string)
    requires runtimeId != "cli:opencode"
    ensures JsonMcpEntry(WrittenEntry([], d, runtimeId)) == d <==> IsCarried(d, runtimeId)
  {
    hide Lookup, Put, Strings, Quote, AreStrings;
    var named := if d.command.Some? && d.command.value != "" then Put([], "command", Str(d.command.value)) else [];
    var fields := WrittenEntry([], d, runtimeId);
    forall key ensures Lookup([], key) == None { NothingFound(key); }
    forall key ensures d.command.Some? && d.command.value != "" ==>
        Lookup(named, key) == if key == "command" then Some(Str(d.command.value)) else None {
      if d.command.Some? { LookupPut([], "command", Str(d.command.value), key); }
    }
    if d.args.Some? {
      StringsOf(d.args.value);
      forall key
        ensures Lookup(fields, key) == if key == "args" then Some(Arr(Quote(d.args.value))) else Lookup(named, key)
      {
        LookupPut(named, "args", Arr(Quote(d.args.value)), key);
      }
    }
  }

  lemma NothingFound(key: string)
    ensures Lookup([], key) == None
  {}

  lemma Put2(k1: string, v1: Json, k2: string, v2: Json)
    requires k1 != k2
    ensures forall key :: Lookup(Put(Put([], k1, v1), k2, v2), key)
                       == if key == k2 then Some(v2) else if key == k1 then Some(v1) else None
  {
    forall key ensures Lookup(Put(Put([], k1, v1), k2, v2), key)
                    == if key == k2 then Some(v2) else if key == k1 then Some(v1) else None {
      LookupPut(Put([], k1, v1), k2, v2, key);
      LookupPut([], k1, v1, key);
      NothingFound(key);
    }
  }

  lemma OpencodeRemoteReadsBackIff(d: Definition)
    requires d.http
    ensures JsonMcpEntry(WrittenEntry([], d, "cli:opencode")) == d <==> IsCarried(d, "cli:opencode")
  {
    hide Lookup, Put, Strings, Quote, EnvOf;
    NoneKept();
    NoEnv();
    KeysDiffer();
    Put2("type", Str("remote"), "url", Nullable(d.url));
  }

  lemma NoneKept()
    ensures Preserved([]) == []
  {}

  lemma KeysDiffer()
    ensures "type" != "url" && "type" != "command" && "type" != "environment" && "command" != "environment"
    ensures "type" != "args" && "type" != "env" && "env" != "environment" && "command" != "args" && "command" != "url"
    ensures "environment" != "args" && "environment" != "url" && "env" != "command"
  {
    assert "type"[0] == 't' && "command"[0] == 'c' && "environment"[0] == 'e' && "args"[0] == 'a';
  }

  lemma {:induction false} FirstNull(rest: seq<Json>)
    ensures !AreStrings([Null] + rest)
  {
    assert ([Null] + rest)[0] == Null && Null in [Null] + rest;
  }

  // The members of a local opencode entry.
  lemma LocalFields(d: Definition, key: string)
    requires !d.http
    ensures var command := Arr([Nullable(d.command)] + Quote(if d.args.Some? then d.args.value else []));
      Lookup(WrittenEntry([], d, "cli:opencode"), key)
      == if d.env.Some? && key == "environment" then Some(Obj(EnvFields(d.env.value)))
         else if key == "command" then Some(command)
         else if key == "type" then Some(Str("local")) else None
  {
    hide Lookup, Put, Quote;
    var command := Arr([Nullable(d.command)] + Quote(if d.args.Some? then d.args.value else []));
    NoneKept();
    KeysDiffer();
    Put2("type", Str("local"), "command", command);
    if d.env.Some? {
      LookupPut(Put(Put([], "type", Str("local")), "command", command), "environment", Obj(EnvFields(d.env.value)),
                key);
    }
  }

  lemma OpencodeLocalReadsBackIff(d: Definition)
    requires !d.http && (d.env.Some? ==> DistinctKeys(d.env.value))
    ensures JsonMcpEntry(WrittenEntry([], d, "cli:opencode")) == d <==> IsCarried(d, "cli:opencode")
  {
    hide Lookup, Put, Strings, Quote, EnvOf, WrittenEntry, AreStrings, DistinctKeys;
    LocalFields(d, "command");
    LocalFields(d, "url");
    LocalFields(d, "args");
    LocalFields(d, "environment");
    LocalFields(d, "env");
    KeysDiffer();
    NoEnv();
    if d.env.Some? { EnvReadsBack(d.env.value); }
    var args := if d.args.Some? then d.args.value else [];
    if d.command.Some? {
      StringsOf([d.command.value] + args);
      assert Quote([d.command.value] + args) == [Str(d.command.value)] + Quote(args);
    } else {
      FirstNull(Quote(args));
    }
  }

  lemma {:induction false} PreservedLookup(existing: seq<Field>, key: string)
    ensures Lookup(Preserved(existing), key) == if key in OPENCODE_KEYS then None else Lookup(existing, key)
  {
    if existing != [] {
      PreservedLookup(existing[1..], key);
      var rest := Preserved(existing[1..]);
      assert [] + rest == rest && ([existing[0]] + rest)[1..] == rest;
    }
  }

  // Writing over an existing entry keeps its members that do not define the server.
  lemma EntryKeepsRest(existing: seq<Field>, d: Definition, runtimeId: string, key: string)
    requires key !in (if runtimeId == "cli:opencode" then OPENCODE_KEYS else {"command", "args"})
    ensures Lookup(WrittenEntry(existing, d, runtimeId), key) == Lookup(existing, key)
  {
    hide Lookup, Put, Preserved, Quote;
    if runtimeId != "cli:opencode" {
      var named :=
        if d.command.Some? && d.command.value != "" then Put(existing, "command", Str(d.command.value)) else existing;
      if d.command.Some? { LookupPut(existing, "command", Str(d.command.value), key); }
      if d.args.Some? { LookupPut(named, "args", Arr(Quote(d.args.value)), key); }
    } else {
      PreservedLookup(existing, key);
      var kept := Preserved(existing);
      var command := Arr([Nullable(d.command)] + Quote(if d.args.Some? then d.args.value else []));
      LookupPut(kept, "type", Str("remote"), key);
      LookupPut(Put(kept, "type", Str("remote")), "url", Nullable(d.url), key);
      LookupPut(kept, "type", Str("local"), key);
      LookupPut(Put(kept, "type", Str("local")), "command", command, key);
      if d.env.Some? {
        LookupPut(Put(Put(kept, "type", Str("local")), "command", command), "environment",
                  Obj(EnvFields(d.env.value)), key);
      }
    }
  }

  // Main result: exactly the carried definitions read back from a new entry as the catalog has them.
  lemma NewEntryReadsBackIff(d: Definition, runtimeId: string)
    requires d.env.Some? ==> DistinctKeys(d.env.value)
    ensures JsonMcpEntry(WrittenEntry([], d, runtimeId)) == d <==> IsCarried(d, runtimeId)
  {
    hide JsonMcpEntry, WrittenEntry, IsCarried, DistinctKeys;
    if runtimeId != "cli:opencode" {
      OtherEntryReadsBackIff(d, runtimeId);
    } else if d.http {
      OpencodeRemoteReadsBackIff(d);
    } else {
      OpencodeLocalReadsBackIff(d);
    }
  }

  // ---------------------------------------------------------------- what an existing entry reads back as

  // Two entries with the same defining members are read alike.
  lemma SameEntry(a: seq<Field>, b: seq<Field>)
    requires forall key <- {"command", "args", "env", "url", "environment"} :: Lookup(a, key) == Lookup(b, key)
    ensures JsonMcpEntry(a) == JsonMcpEntry(b)
  {
    hide Lookup, Strings, EnvOf, AreStrings;
  }

  lemma OpencodeMember(existing: seq<Field>, d: Definition, key: string)
    requires key in {"command", "args", "env", "url", "type", "environment"}
    ensures Lookup(WrittenEntry(existing, d, "cli:opencode"), key) == Lookup(WrittenEntry([], d, "cli:opencode"), key)
  {
    hide Lookup, Put, Preserved, Quote;
    PreservedLookup(existing, key);
    PreservedLookup([], key);
    SamePut(Preserved(existing), Preserved([]), "type", Str("remote"), key);
    SamePut(Preserved(existing), Preserved([]), "type", Str("local"), key);
    var remote, empty := Put(Preserved(existing), "type", Str("remote")), Put(Preserved([]), "type", Str("remote"));
    SamePut(remote, empty, "url", Nullable(d.url), key);
    var command := Arr([Nullable(d.command)] + Quote(if d.args.Some? then d.args.value else []));
    var local, alone := Put(Preserved(existing), "type", Str("local")), Put(Preserved([]), "type", Str("local"));
    SamePut(local, alone, "command", command, key);
    if d.env.Some? {
      SamePut(Put(local, "command", command), Put(alone, "command", command), "environment",
              Obj(EnvFields(d.env.value)), key);
    }
  }

  lemma SamePut(a: seq<Field>, b: seq<Field>, k: string, value: Json, key: string)
    requires Lookup(a, key) == Lookup(b, key)
    ensures Lookup(Put(a, k, value), key) == Lookup(Put(b, k, value), key)
  {
    LookupPut(a, k, value, key);
    LookupPut(b, k, value, key);
  }

  // Main result: what an opencode entry defined before leaves no trace in what is read after it was written over.
  lemma OpencodeForgetsOld(existing: seq<Field>, d: Definition)
    ensures JsonMcpEntry(WrittenEntry(existing, d, "cli:opencode"))
            == JsonMcpEntry(WrittenEntry([], d, "cli:opencode"))
  {
    hide JsonMcpEntry, WrittenEntry, Lookup;
    forall key | key in {"command", "args", "env", "url", "environment"}
      ensures Lookup(WrittenEntry(existing, d, "cli:opencode"), key) == Lookup(WrittenEntry([], d, "cli:opencode"), key)
    {
      OpencodeMember(existing, d, key);
    }
    SameEntry(WrittenEntry(existing, d, "cli:opencode"), WrittenEntry([], d, "cli:opencode"));
  }

  // Main result: in other configs the old url and env are read on, so that an entry with a url stays an http server
  // whatever command is written over it; without one the new command and args are read.
  lemma OthersKeepUrl(existing: seq<Field>, d: Definition, runtimeId: string)
    requires runtimeId != "cli:opencode" && d.command.Some? && d.command.value != "" && d.args.Some?
    ensures var before, after := JsonMcpEntry(existing), JsonMcpEntry(WrittenEntry(existing, d, runtimeId));
      && after.http == before.http && after.url == before.url && after.env == before.env
      && after.command == (if before.http then None else d.command)
      && after.args == (if d.args.value == [] then None else d.args)
  {
    hide Lookup, Put, Quote, Strings, EnvOf, AreStrings;
    var named := Put(existing, "command", Str(d.command.value));
    StringsOf(d.args.value);
    KeysDiffer();
    forall key | key in {"command", "args", "env", "url", "environment"}
      ensures Lookup(WrittenEntry(existing, d, runtimeId), key)
           == if key == "args" then Some(Arr(Quote(d.args.value)))
              else if key == "command" then Some(Str(d.command.value)) else Lookup(existing, key)
    {
      LookupPut(existing, "command", Str(d.command.value), key);
      LookupPut(named, "args", Arr(Quote(d.args.value)), key);
    }
  }

  // An env is read from `environment`, and from `env` where that is no object.
  lemma EnvironmentIsRead(fields: seq<Field>, env: seq<Pair>)
    requires DistinctKeys(env) && env != []
    requires || Lookup(fields, "environment") == Some(Obj(EnvFields(env)))
             || (!IsObj(Lookup(fields, "environment")) && Lookup(fields, "env") == Some(Obj(EnvFields(env))))
    ensures JsonMcpEntry(fields).env == Some(env)
  {
    hide Lookup, EnvOf, Strings, AreStrings, DistinctKeys;
    EnvReadsBack(env);
  }
}
