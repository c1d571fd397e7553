// Applying tool assignments to one runtime's config, in the TOML and JSON-object formats (apps/api/src/agent-tools.ts).

module ApplyTools {
  import opened Options
  import opened Text
  import opened TomlLexer
  import opened TomlConfig
  import opened TomlValues
  import opened ServerNames
  import opened TomlRoundTrip
  import opened TomlRewrite
  import opened ManagedToml

  datatype Scope = Common | Specific | Nowhere

  datatype Assignment = Assignment(toolId: string, scope: Scope, runtimeIds: seq<string>)

  // What a runtime's config holds.
  datatype Runtime = Runtime(id: string, servers: seq<Server>)

  function McpToolId(name: string): string {
    "mcp:" + name
  }

  // The first assignment of the tool, if any.
  function AssignmentFor(assignments: seq<Assignment>, toolId: string): (found: Option<Assignment>)
    ensures found.Some? ==> found.value in assignments && found.value.toolId == toolId
    ensures found.Some? ==> exists i ::
              && 0 <= i < |assignments| && assignments[i] == found.value
              && forall k :: 0 <= k < i ==> assignments[k].toolId != toolId
    ensures found.None? ==> forall a <- assignments :: a.toolId != toolId
  {
    if assignments == [] then None
    else if assignments[0].toolId == toolId then Some(assignments[0])
    else AssignmentFor(assignments[1..], toolId)
  }

  function AssignmentEnabled(assignment: Option<Assignment>, runtimeId: string): Option<bool> {
    match assignment
    case None => None
    case Some(a) =>
      match a.scope
      case Common => Some(true)
      case Specific => Some(runtimeId in a.runtimeIds)
      case Nowhere => Some(false)
  }

  function Or(first: Option<bool>, second: bool): bool {
    if first.Some? then first.value else second
  }

  function Decision(assignments: seq<Assignment>, toolId: string, runtimeId: string): Option<bool> {
    AssignmentEnabled(AssignmentFor(assignments, toolId), runtimeId)
  }

  // ---------------------------------------------------------------- the catalog

  // The first server of that name.
  ghost predicate IsFirst(servers: seq<Server>, name: string, s: Server) {
    exists i ::
      && 0 <= i < |servers| && servers[i] == s && s.name == name && forall k :: 0 <= k < i ==> servers[k].name != name
  }

  function FindServer(servers: seq<Server>, name: string): (found: Option<Server>)
    ensures found.Some? ==> found.value in servers && IsFirst(servers, name, found.value)
    ensures found.None? ==> forall s <- servers :: s.name != name
  {
    if servers == [] then None else if servers[0].name == name then Some(servers[0]) else FindServer(servers[1..], name)
  }

  predicate HasServer(servers: seq<Server>, name: string) {
    FindServer(servers, name).Some?
  }

  function FindRuntime(tools: seq<Runtime>, id: string): (found: Option<Runtime>)
    ensures found.Some? ==> exists i ::
              && 0 <= i < |tools| && tools[i] == found.value && tools[i].id == id
              && forall k :: 0 <= k < i ==> tools[k].id != id
    ensures found.None? ==> forall t <- tools :: t.id != id
  {
    if tools == [] then None else if tools[0].id == id then Some(tools[0]) else FindRuntime(tools[1..], id)
  }

  function FirstMatch(tools: seq<Runtime>, name: string): (found: Option<Server>)
    ensures found.Some? ==> exists i ::
              && 0 <= i < |tools| && IsFirst(tools[i].servers, name, found.value)
              && forall k :: 0 <= k < i ==> !HasServer(tools[k].servers, name)
    ensures found.None? ==> forall t <- tools :: !HasServer(t.servers, name)
  {
    if tools == [] then None
    else if HasServer(tools[0].servers, name) then FindServer(tools[0].servers, name)
    else FirstMatch(tools[1..], name)
  }

  // Codex's definition if it has one, else the first runtime's.
  function Canonical(tools: seq<Runtime>, server: Server): Server {
    var codex := FindRuntime(tools, "cli:codex");
    if codex.Some? && HasServer(codex.value.servers, server.name) then
      FindServer(codex.value.servers, server.name).value
    else if FirstMatch(tools, server.name).Some? then FirstMatch(tools, server.name).value
    else server
  }

  lemma {:induction false} FirstMatchName(tools: seq<Runtime>, name: string)
    ensures FirstMatch(tools, name).Some? ==> FirstMatch(tools, name).value.name == name
  {
    if tools != [] { FirstMatchName(tools[1..], name); }
  }

  function AddEntries(entries: seq<Server>, servers: seq<Server>, tools: seq<Runtime>): seq<Server> {
    if servers == [] then entries
    else
      var n := |servers| - 1;
      var known := AddEntries(entries, servers[..n], tools);
      if HasServer(known, servers[n].name) then known else known + [Canonical(tools, servers[n])]
  }

  function CatalogUpTo(tools: seq<Runtime>, n: nat): seq<Server>
    requires n <= |tools|
  {
    if n == 0 then [] else AddEntries(CatalogUpTo(tools, n - 1), tools[n - 1].servers, tools)
  }

  // One entry for each server name that any runtime has.
  function CatalogOf(tools: seq<Runtime>): seq<Server> {
    CatalogUpTo(tools, |tools|)
  }

  method BuildCatalog(tools: seq<Runtime>) returns (entries: seq<Server>)
    ensures entries == CatalogOf(tools)
  {
    hide HasServer, Canonical;
    entries := [];
    for i := 0 to |tools|
      invariant entries == CatalogUpTo(tools, i)
    {
      ghost var before := entries;
      var servers := tools[i].servers;
      for k := 0 to |servers|
        invariant entries == AddEntries(before, servers[..k], tools)
      {
        assert servers[..k + 1][..k] == servers[..k];
        if !HasServer(entries, servers[k].name) { entries := entries + [Canonical(tools, servers[k])]; }
      }
      assert servers[..|servers|] == servers;
    }
  }

  lemma {:induction false} FindAppended(servers: seq<Server>, s: Server, name: string)
    ensures HasServer(servers + [s], name) <==> HasServer(servers, name) || s.name == name
  {
    if servers == [] {
      assert servers + [s] == [s];
    } else {
      assert (servers + [s])[1..] == servers[1..] + [s];
      FindAppended(servers[1..], s, name);
    }
  }

  lemma {:induction false} AddedEntries(entries: seq<Server>, servers: seq<Server>, tools: seq<Runtime>, name: string)
    requires DistinctNames(entries)
    ensures DistinctNames(AddEntries(entries, servers, tools))
    ensures HasServer(AddEntries(entries, servers, tools), name) <==>
              HasServer(entries, name) || HasServer(servers, name)
    decreases |servers|
  {
    hide HasServer;
    if servers == [] {
      NoServer(name);
    } else {
      var n := |servers| - 1;
      var s := servers[n];
      AddedEntries(entries, servers[..n], tools, name);
      var known := AddEntries(entries, servers[..n], tools);
      assert servers == servers[..n] + [s];
      FindAppended(servers[..n], s, name);
      FirstMatchName(tools, s.name);
      CanonicalName(tools, s);
      FindAppended(known, Canonical(tools, s), name);
      if !HasServer(known, s.name) { AddDistinct(known, Canonical(tools, s)); }
      if name == s.name && !HasServer(known, s.name) { assert HasServer(known + [Canonical(tools, s)], name); }
    }
  }

  lemma NoServer(name: string)
    ensures !HasServer([], name)
  {}

  lemma CanonicalName(tools: seq<Runtime>, s: Server)
    ensures Canonical(tools, s).name == s.name
  {
    FirstMatchName(tools, s.name);
  }

  lemma AddDistinct(servers: seq<Server>, s: Server)
    requires DistinctNames(servers) && !HasServer(servers, s.name)
    ensures DistinctNames(servers + [s])
  {}

  // Main result: the catalog has each name once, and exactly the names that some runtime has.
  lemma {:induction false} CatalogCovers(tools: seq<Runtime>, n: nat, name: string)
    requires n <= |tools|
    ensures DistinctNames(CatalogUpTo(tools, n))
    ensures HasServer(CatalogUpTo(tools, n), name) <==> exists i :: 0 <= i < n && HasServer(tools[i].servers, name)
    decreases n
  {
    hide HasServer;
    if n == 0 {
      NoServer(name);
    } else {
      CatalogCovers(tools, n - 1, name);
      AddedEntries(CatalogUpTo(tools, n - 1), tools[n - 1].servers, tools, name);
    }
  }

  lemma {:induction false} AddedAreCanonical(entries: seq<Server>, servers: seq<Server>, tools: seq<Runtime>)
    ensures forall s <- AddEntries(entries, servers, tools) ::
              s in entries || exists t <- servers :: s == Canonical(tools, t)
    decreases |servers|
  {
    hide HasServer, Canonical;
    if servers != [] {
      var n := |servers| - 1;
      AddedAreCanonical(entries, servers[..n], tools);
      assert servers == servers[..n] + [servers[n]];
    }
  }

  lemma {:induction false} CatalogIsCanonical(tools: seq<Runtime>, n: nat, s: Server)
    requires n <= |tools| && s in CatalogUpTo(tools, n)
    ensures exists i, t :: 0 <= i < n && t in tools[i].servers && s == Canonical(tools, t)
    decreases n
  {
    hide Canonical;
    if n > 0 {
      AddedAreCanonical(CatalogUpTo(tools, n - 1), tools[n - 1].servers, tools);
      if s in CatalogUpTo(tools, n - 1) { CatalogIsCanonical(tools, n - 1, s); }
    }
  }

  // The first runtime with Codex's id.
  ghost predicate IsCodex(tools: seq<Runtime>, r: nat) {
    r < |tools| && tools[r].id == "cli:codex" && forall q :: 0 <= q < r ==> tools[q].id != "cli:codex"
  }

  lemma OneCodex(tools: seq<Runtime>, q: nat, r: nat)
    requires IsCodex(tools, q) && IsCodex(tools, r)
    ensures q == r
  {
    assert !(q < r) && !(r < q);
  }

  // Main result: an entry's definition is Codex's if it has a server of that name, and else that of the first runtime
  // that has one.
  lemma CatalogDefinition(tools: seq<Runtime>, s: Server)
    requires s in CatalogOf(tools)
    ensures forall r: nat :: IsCodex(tools, r) && HasServer(tools[r].servers, s.name) ==>
              IsFirst(tools[r].servers, s.name, s)
    ensures (forall r: nat :: IsCodex(tools, r) ==> !HasServer(tools[r].servers, s.name)) ==>
              exists r: nat ::
                && r < |tools| && IsFirst(tools[r].servers, s.name, s)
                && forall q :: 0 <= q < r ==> !HasServer(tools[q].servers, s.name)
  {
    hide CatalogUpTo, IsFirst;
    CatalogIsCanonical(tools, |tools|, s);
    var i, t :| 0 <= i < |tools| && t in tools[i].servers && s == Canonical(tools, t);
    CanonicalName(tools, t);
    var codex := FindRuntime(tools, "cli:codex");
    if codex.Some? {
      var r: nat :| r < |tools| && tools[r] == codex.value && IsCodex(tools, r);
      forall q: nat | IsCodex(tools, q) ensures q == r { OneCodex(tools, q, r); }
    }
    HasServerIff(tools[i].servers, s.name);
  }

  // ---------------------------------------------------------------- TOML

  // The servers that a rewritten TOML config is to hold.
  function Desired(catalog: seq<Server>, onDisk: seq<Server>, assignments: seq<Assignment>,
                   runtimeId: string): seq<Server> {
    if catalog == [] then []
    else
      var s := catalog[|catalog| - 1];
      Desired(catalog[..|catalog| - 1], onDisk, assignments, runtimeId)
      + if Or(Decision(assignments, McpToolId(s.name), runtimeId), HasServer(onDisk, s.name)) then [s] else []
  }

  datatype SkillEntry = SkillEntry(toolId: string, path: string)

  function FindSkill(skills: seq<Skill>, path: string): (found: Option<Skill>)
    ensures found.Some? ==> found.value in skills && found.value.path == path
    ensures found.Some? ==> exists i ::
              0 <= i < |skills| && skills[i] == found.value && forall k :: 0 <= k < i ==> skills[k].path != path
    ensures found.None? ==> forall k <- skills :: k.path != path
  {
    if skills == [] then None else if skills[0].path == path then Some(skills[0]) else FindSkill(skills[1..], path)
  }

  function SkillEnabled(entry: SkillEntry, onDisk: seq<Skill>, assignments: seq<Assignment>, runtimeId: string): bool {
    var found := FindSkill(onDisk, entry.path);
    Or(Decision(assignments, entry.toolId, runtimeId), if found.Some? then found.value.enabled else true)
  }

  function CatalogSkills(entries: seq<SkillEntry>, onDisk: seq<Skill>, assignments: seq<Assignment>,
                         runtimeId: string): seq<Skill> {
    if entries == [] then []
    else
      var e := entries[|entries| - 1];
      CatalogSkills(entries[..|entries| - 1], onDisk, assignments, runtimeId)
      + [Skill(e.path, SkillEnabled(e, onDisk, assignments, runtimeId))]
  }

  // Entries of nested bundle skills stay as they are.
  function AddNested(desired: seq<Skill>, onDisk: seq<Skill>, isNested: string -> bool): seq<Skill> {
    if onDisk == [] then desired
    else
      var k := onDisk[|onDisk| - 1];
      var known := AddNested(desired, onDisk[..|onDisk| - 1], isNested);
      if FindSkill(known, k.path).None? && isNested(k.path) then known + [k] else known
  }

  method DesiredServers(catalog: seq<Server>, onDisk: seq<Server>, assignments: seq<Assignment>, runtimeId: string)
    returns (desired: seq<Server>, enabledIds: seq<string>)
    ensures desired == Desired(catalog, onDisk, assignments, runtimeId)
    ensures forall id :: id in enabledIds <==>
              exists s <- catalog :: id == McpToolId(s.name) && Decision(assignments, id, runtimeId) == Some(true)
  {
    hide Decision, HasServer;
    desired, enabledIds := [], [];
    for i := 0 to |catalog|
      invariant desired == Desired(catalog[..i], onDisk, assignments, runtimeId)
      invariant forall id :: id in enabledIds <==>
                  exists s <- catalog[..i] ::
                    id == McpToolId(s.name) && Decision(assignments, id, runtimeId) == Some(true)
    {
      assert catalog[..i + 1] == catalog[..i] + [catalog[i]];
      var s := catalog[i];
      var decision := Decision(assignments, McpToolId(s.name), runtimeId);
      if Or(decision, HasServer(onDisk, s.name)) {
        desired := desired + [s];
        if decision == Some(true) { enabledIds := enabledIds + [McpToolId(s.name)]; }
      }
    }
    assert catalog[..|catalog|] == catalog;
  }

  method DesiredSkills(entries: seq<SkillEntry>, onDisk: seq<Skill>, assignments: seq<Assignment>, runtimeId: string,
                       isNested: string -> bool) returns (desired: seq<Skill>)
    ensures desired == AddNested(CatalogSkills(entries, onDisk, assignments, runtimeId), onDisk, isNested)
  {
    hide SkillEnabled;
    desired := [];
    for i := 0 to |entries|
      invariant desired == CatalogSkills(entries[..i], onDisk, assignments, runtimeId)
    {
      assert entries[..i + 1][..i] == entries[..i];
      desired := desired + [Skill(entries[i].path, SkillEnabled(entries[i], onDisk, assignments, runtimeId))];
    }
    assert entries[..|entries|] == entries;
    ghost var known := desired;
    for i := 0 to |onDisk|
      invariant desired == AddNested(known, onDisk[..i], isNested)
    {
      assert onDisk[..i + 1][..i] == onDisk[..i];
      if FindSkill(desired, onDisk[i].path).None? && isNested(onDisk[i].path) { desired := desired + [onDisk[i]]; }
    }
    assert onDisk[..|onDisk|] == onDisk;
  }

  method ApplyToml(raw: string, catalog: seq<Server>, entries: seq<SkillEntry>, assignments: seq<Assignment>,
                   runtimeId: string, isNested: string -> bool) returns (text: string)
    ensures text == Applied(raw, catalog, entries, assignments, runtimeId, isNested)
  {
    hide Desired, AddNested, CatalogSkills, ServersOf, SkillsOf, Rewrite;
    var onDisk := ParseTomlMcpServers(raw);
    var skillsOnDisk := ParseTomlSkills(raw);
    var servers, _ := DesiredServers(catalog, onDisk, assignments, runtimeId);
    var skills := DesiredSkills(entries, skillsOnDisk, assignments, runtimeId, isNested);
    text := RewriteManagedToml(raw, servers, skills);
  }

  function Applied(raw: string, catalog: seq<Server>, entries: seq<SkillEntry>, assignments: seq<Assignment>,
                   runtimeId: string, isNested: string -> bool): string {
    var skills := SkillsOf(Lines(raw));
    Rewrite(raw, Desired(catalog, ServersOf(Lines(raw)), assignments, runtimeId),
            AddNested(CatalogSkills(entries, skills, assignments, runtimeId), skills, isNested))
  }

  lemma {:induction false} DesiredFrom(catalog: seq<Server>, onDisk: seq<Server>, assignments: seq<Assignment>,
                                       runtimeId: string, name: string)
    requires DistinctNames(catalog)
    ensures var desired := Desired(catalog, onDisk, assignments, runtimeId);
      && DistinctNames(desired) && (forall s <- desired :: s in catalog)
      && (HasServer(desired, name) <==>
            HasServer(catalog, name) && Or(Decision(assignments, McpToolId(name), runtimeId), HasServer(onDisk, name)))
    decreases |catalog|
  {
    hide HasServer, Decision;
    if catalog == [] {
      NoServer(name);
    } else {
      var n := |catalog| - 1;
      var s := catalog[n];
      assert catalog == catalog[..n] + [s];
      DesiredFrom(catalog[..n], onDisk, assignments, runtimeId, name);
      var before := Desired(catalog[..n], onDisk, assignments, runtimeId);
      FindAppended(catalog[..n], s, name);
      FindAppended(before, s, name);
      NotAmong(catalog, n);
      HasServerIff(catalog[..n], name);
      assert before + [] == before;
      assert forall t <- before :: t in catalog[..n];
    }
  }

  lemma HasServerIff(servers: seq<Server>, name: string)
    ensures HasServer(servers, name) <==> exists s <- servers :: s.name == name
  {}

  lemma NotAmong(catalog: seq<Server>, n: nat)
    requires DistinctNames(catalog) && n < |catalog|
    ensures forall s <- catalog[..n] :: s.name != catalog[n].name
  {
    forall s | s in catalog[..n] ensures s.name != catalog[n].name {
      var i :| 0 <= i < n && catalog[i] == s;
    }
  }

  // ---------------------------------------------------------------- paths that were read are one line long

  lemma {:induction false} UnescapedOneLine(s: string)
    requires OneLine(s)
    ensures OneLine(UnescapeQuotes(s)) && OneLine(UnescapeBackslashes(s))
    decreases |s|
  {
    hide IsLineTerminator;
    if s != "" {
      assert s[0] in s && (forall c <- s[1..] :: c in s) && (|s| >= 2 ==> forall c <- s[2..] :: c in s);
      assert !IsLineTerminator('"') && !IsLineTerminator('\\') by { PlainSigns(); }
      UnescapedOneLine(s[1..]);
      if |s| >= 2 { UnescapedOneLine(s[2..]); }
    }
  }

  lemma PlainSigns()
    ensures !IsLineTerminator('"') && !IsLineTerminator('\\')
  {}

  lemma {:induction false} TrimOneLine(s: string)
    requires OneLine(s)
    ensures OneLine(Trim(s))
  {
    var t := TrimStart(s);
    assert forall c <- t :: c in s;
    assert forall c <- TrimEnd(t) :: c in t;
  }

  lemma ReadStringOneLine(value: string)
    requires OneLine(value) && ParseTomlString(value).Some?
    ensures OneLine(ParseTomlString(value).value)
  {
    hide UnescapeQuotes, UnescapeBackslashes, IsLineTerminator;
    TrimOneLine(value);
    var t := Trim(value);
    var inner := t[1..|t| - 1];
    assert forall c <- inner :: c in t;
    UnescapedOneLine(inner);
    UnescapedOneLine(UnescapeQuotes(inner));
  }

  lemma ReadValueOneLine(line: string, key: string)
    ensures KeyValue(line, key).Some? ==> OneLine(KeyValue(line, key).value)
  {
    hide IsLineTerminator, IsSpace, TrimStart;
  }

  ghost predicate ScanIsGood(k: SkillScan) {
    (forall e <- k.entries :: GoodSkill(e)) && (k.current.Some? ==> GoodSkill(k.current.value))
  }

  lemma SkillLineGood(k: SkillScan, line: string)
    requires ScanIsGood(k)
    ensures ScanIsGood(SkillLine(k, line)) && ScanIsGood(k.Flush())
  {
    hide KeyValue, ParseTomlString, ArrayName, SectionName, EnabledValue;
    var path := KeyValue(line, "path");
    if path.Some? {
      ReadValueOneLine(line, "path");
      if ParseTomlString(path.value).Some? { ReadStringOneLine(path.value); }
    }
  }

  lemma {:induction false} ScanGood(lines: seq<string>)
    ensures ScanIsGood(ScanSkills(NO_SKILLS, lines))
  {
    hide SkillLine;
    if lines != [] {
      ScanGood(lines[..|lines| - 1]);
      SkillLineGood(ScanSkills(NO_SKILLS, lines[..|lines| - 1]), lines[|lines| - 1]);
    }
  }

  lemma {:induction false} WithPathSubset(entries: seq<Skill>)
    ensures forall k <- WithPath(entries) :: k in entries
    ensures forall k <- entries :: k.path != "" ==> k in WithPath(entries)
  {
    if entries != [] {
      WithPathSubset(entries[1..]);
      assert entries == [entries[0]] + entries[1..];
    }
  }

  lemma ReadSkillsGood(lines: seq<string>)
    ensures forall k <- SkillsOf(lines) :: GoodSkill(k)
  {
    hide GoodSkill, SkillLine;
    ScanGood(lines);
    var scan := ScanSkills(NO_SKILLS, lines);
    SkillLineGood(scan, "");
    WithPathSubset(scan.Flush().entries);
  }

  lemma {:induction false} CatalogSkillsListed(entries: seq<SkillEntry>, onDisk: seq<Skill>,
                                               assignments: seq<Assignment>, runtimeId: string)
    ensures forall e <- entries ::
              Skill(e.path, SkillEnabled(e, onDisk, assignments, runtimeId))
              in CatalogSkills(entries, onDisk, assignments, runtimeId)
  {
    hide SkillEnabled;
    if entries != [] {
      var n := |entries| - 1;
      assert entries == entries[..n] + [entries[n]];
      CatalogSkillsListed(entries[..n], onDisk, assignments, runtimeId);
    }
  }

  lemma {:induction false} AddNestedKeeps(desired: seq<Skill>, onDisk: seq<Skill>, isNested: string -> bool)
    ensures var skills := AddNested(desired, onDisk, isNested);
      && (forall k <- skills ::
            k in desired || (k in onDisk && isNested(k.path) && forall d <- desired :: d.path != k.path))
      && (forall k <- desired :: k in skills)
      && forall k <- onDisk :: isNested(k.path) ==> exists j <- skills :: j.path == k.path
    decreases |onDisk|
  {
    if onDisk != [] {
      var n := |onDisk| - 1;
      assert onDisk == onDisk[..n] + [onDisk[n]];
      AddNestedKeeps(desired, onDisk[..n], isNested);
      var known, skills := AddNested(desired, onDisk[..n], isNested), AddNested(desired, onDisk, isNested);
      assert forall j <- known :: j in skills;
    }
  }

  function SkillsAfter(raw: string, entries: seq<SkillEntry>, assignments: seq<Assignment>, runtimeId: string,
                       isNested: string -> bool): seq<Skill> {
    var onDisk := SkillsOf(Lines(raw));
    AddNested(CatalogSkills(entries, onDisk, assignments, runtimeId), onDisk, isNested)
  }

  lemma {:induction false} CatalogSkillPaths(entries: seq<SkillEntry>, onDisk: seq<Skill>,
                                             assignments: seq<Assignment>, runtimeId: string)
    ensures forall k <- CatalogSkills(entries, onDisk, assignments, runtimeId) ::
              exists e <- entries :: k == Skill(e.path, SkillEnabled(e, onDisk, assignments, runtimeId))
  {
    hide SkillEnabled;
    if entries != [] {
      var n := |entries| - 1;
      assert entries == entries[..n] + [entries[n]];
      CatalogSkillPaths(entries[..n], onDisk, assignments, runtimeId);
    }
  }

  // Every skill listed afterwards comes from the catalog or was read before.
  lemma SkillsAfterFit(raw: string, entries: seq<SkillEntry>, assignments: seq<Assignment>, runtimeId: string,
                       isNested: string -> bool)
    ensures var skills := SkillsAfter(raw, entries, assignments, runtimeId, isNested);
      && ((forall e <- entries :: OneLine(e.path)) ==> forall k <- skills :: GoodSkill(k))
      && ((forall e <- entries :: NoNewline(e.path)) ==> forall k <- skills :: NoNewline(k.path))
  {
    hide OneLine, CatalogSkills, AddNested, SkillsOf, SkillEnabled;
    var onDisk := SkillsOf(Lines(raw));
    ReadSkillsGood(Lines(raw));
    CatalogSkillPaths(entries, onDisk, assignments, runtimeId);
    AddNestedKeeps(CatalogSkills(entries, onDisk, assignments, runtimeId), onDisk, isNested);
    forall k | k in onDisk ensures NoNewline(k.path) { OneLineHasNoNewline(k.path); }
  }

  lemma OneLineHasNoNewline(s: string)
    requires OneLine(s)
    ensures NoNewline(s)
  {}

  // ---------------------------------------------------------------- what a rewritten TOML config holds

  // The lines outside the managed sections as applying leaves them. Of a clean config they hold no server and no skill.
  function LeftLines(raw: string, catalog: seq<Server>, entries: seq<SkillEntry>, assignments: seq<Assignment>,
                     runtimeId: string, isNested: string -> bool): seq<string> {
    Left(Outside(raw), Desired(catalog, ServersOf(Lines(raw)), assignments, runtimeId),
         SkillsAfter(raw, entries, assignments, runtimeId, isNested))
  }

  lemma CleanLeavesNone(raw: string, catalog: seq<Server>, entries: seq<SkillEntry>, assignments: seq<Assignment>,
                        runtimeId: string, isNested: string -> bool)
    requires Clean(raw)
    ensures var left := LeftLines(raw, catalog, entries, assignments, runtimeId, isNested);
      ServersOf(left) == [] && SkillsOf(left) == []
  {
    hide Clean, Left, Outside, Desired, SkillsAfter, IsFree, CleanLine, ServersOf, SkillsOf;
    CleanLeft(raw, Desired(catalog, ServersOf(Lines(raw)), assignments, runtimeId),
              SkillsAfter(raw, entries, assignments, runtimeId, isNested));
    FreeLines(LeftLines(raw, catalog, entries, assignments, runtimeId, isNested));
  }

  // What is written into a config.
  function DesiredIn(raw: string, catalog: seq<Server>, assignments: seq<Assignment>, runtimeId: string): seq<Server> {
    Desired(catalog, ServersOf(Lines(raw)), assignments, runtimeId)
  }

  lemma AppliedReadsBack(raw: string, catalog: seq<Server>, entries: seq<SkillEntry>, assignments: seq<Assignment>,
                         runtimeId: string, isNested: string -> bool)
    requires forall s <- DesiredIn(raw, catalog, assignments, runtimeId) :: GoodServer(s)
    requires forall e <- entries :: OneLine(e.path)
    ensures var lines := Lines(Applied(raw, catalog, entries, assignments, runtimeId, isNested));
      var left := LeftLines(raw, catalog, entries, assignments, runtimeId, isNested);
      && ServersOf(lines)
         == SetServers(ServersOf(left), ReadBackAll(DesiredIn(raw, catalog, assignments, runtimeId)))
      && SkillsOf(lines) == SkillsOf(left) + WithPath(SkillsAfter(raw, entries, assignments, runtimeId, isNested))
  {
    hide ServersOf, SkillsOf, Rewrite, AddNested, CatalogSkills, GoodServer, GoodSkill, Left, Outside, Desired,
         OneLine, SetServers, ReadBackAll, WithPath;
    SkillsAfterFit(raw, entries, assignments, runtimeId, isNested);
    RewriteReadsBackAny(raw, DesiredIn(raw, catalog, assignments, runtimeId),
                        SkillsAfter(raw, entries, assignments, runtimeId, isNested));
  }

  // Whether a server belongs in a config: as its assignment says, and without one exactly if it was there before.
  predicate BelongsIn(tools: seq<Runtime>, r: nat, assignments: seq<Assignment>, before: seq<Server>, name: string)
    requires r < |tools|
  {
    match AssignmentFor(assignments, McpToolId(name))
    case Some(a) =>
      HasServer(CatalogOf(tools), name) && (a.scope == Common || (a.scope == Specific && tools[r].id in a.runtimeIds))
    case None => HasServer(before, name)
  }

  lemma DesiredBelongs(tools: seq<Runtime>, r: nat, assignments: seq<Assignment>, name: string)
    requires r < |tools|
    ensures var desired := Desired(CatalogOf(tools), tools[r].servers, assignments, tools[r].id);
      DistinctNames(CatalogOf(tools))
      && (HasServer(desired, name) <==> BelongsIn(tools, r, assignments, tools[r].servers, name))
  {
    hide HasServer, Desired;
    CatalogCovers(tools, |tools|, name);
    DesiredFrom(CatalogOf(tools), tools[r].servers, assignments, tools[r].id, name);
  }

  lemma HasNameIff(servers: seq<Server>, name: string)
    ensures HasName(servers, name) <==> HasServer(servers, name)
  {
    HasServerIff(servers, name);
  }

  lemma AllReadAsThemselves(servers: seq<Server>, name: string)
    requires forall s <- servers :: GoodName(s.name)
    ensures SomeReadAs(servers, name) <==> HasName(servers, name)
  {
    hide GoodName, ReadAs;
    forall s | s in servers ensures ReadAs(s.name) == Some(s.name) {
      GoodNameFits(s.name);
      NameSurvivesIff(s.name);
    }
  }

  // Main result, for any config and any names: after applying, re-reading the config shows exactly the servers under
  // whose names the written headers are read, and those that the rewrite uncovered in its outside lines, of which a
  // clean config has none. With good names these are the servers that belong in it.
  lemma TomlPresence(raw: string, tools: seq<Runtime>, r: nat, entries: seq<SkillEntry>, assignments: seq<Assignment>,
                     isNested: string -> bool, name: string)
    requires r < |tools| && tools[r].servers == ServersOf(Lines(raw))
    requires forall s <- DesiredIn(raw, CatalogOf(tools), assignments, tools[r].id) :: UnbrokenServer(s)
    requires forall e <- entries :: NoNewline(e.path)
    ensures var after := ServersOf(Lines(Applied(raw, CatalogOf(tools), entries, assignments, tools[r].id, isNested)));
      var left := LeftLines(raw, CatalogOf(tools), entries, assignments, tools[r].id, isNested);
      var desired := DesiredIn(raw, CatalogOf(tools), assignments, tools[r].id);
      && (HasServer(after, name) <==> HasServer(ServersOf(left), name) || SomeReadAs(desired, name))
      && (Clean(raw) ==> !HasServer(ServersOf(left), name))
      && ((forall s <- desired :: GoodName(s.name)) ==>
            (SomeReadAs(desired, name) <==> BelongsIn(tools, r, assignments, ServersOf(Lines(raw)), name)))
  {
    hide ServersOf, Rewrite, HasServer, Clean, Desired, LeftLines, CatalogOf, BelongsIn, DistinctNames, UnbrokenServer;
    hide SkillsOf, AddNested, CatalogSkills, HasName, SomeReadAs, GoodName, SkillsAfter, NoNewline;
    var catalog, id := CatalogOf(tools), tools[r].id;
    var desired := DesiredIn(raw, catalog, assignments, id);
    var skills := SkillsAfter(raw, entries, assignments, id, isNested);
    var left := LeftLines(raw, catalog, entries, assignments, id, isNested);
    AppliedIs(raw, catalog, entries, assignments, id, isNested);
    SkillsAfterFit(raw, entries, assignments, id, isNested);
    PresentAfterRewrite(raw, desired, skills, name);
    HasNameIff(ServersOf(Lines(Rewrite(raw, desired, skills))), name);
    HasNameIff(ServersOf(left), name);
    HasNameIff(desired, name);
    DesiredBelongs(tools, r, assignments, name);
    if forall s <- desired :: GoodName(s.name) { AllReadAsThemselves(desired, name); }
    if Clean(raw) {
      CleanLeavesNone(raw, catalog, entries, assignments, id, isNested);
      NoServer(name);
    }
  }

  lemma AppliedIs(raw: string, catalog: seq<Server>, entries: seq<SkillEntry>, assignments: seq<Assignment>,
                  runtimeId: string, isNested: string -> bool)
    ensures var desired, skills :=
              DesiredIn(raw, catalog, assignments, runtimeId),
              SkillsAfter(raw, entries, assignments, runtimeId, isNested);
      && Applied(raw, catalog, entries, assignments, runtimeId, isNested) == Rewrite(raw, desired, skills)
      && LeftLines(raw, catalog, entries, assignments, runtimeId, isNested) == Left(Outside(raw), desired, skills)
  {
    hide Rewrite, Desired, AddNested, CatalogSkills, ServersOf, SkillsOf, Left, Outside;
  }

  // ---------------------------------------------------------------- when the assignments are met

  // Empty names and names with a dot or a closing bracket.
  predicate IsLost(name: string) {
    name == "" || '.' in name || ']' in name
  }

  lemma LostIsNeverRead(servers: seq<Server>, name: string)
    requires IsLost(name)
    ensures !SomeReadAs(servers, name)
  {
    hide ReadAs;
    forall s | s in servers ensures ReadAs(s.name) != Some(name) { ReadNames(s.name); }
  }

  // A name that is read as written, under another name: what is read is longer.
  lemma ReadFromShorter(written: string, name: string)
    requires !IsLost(written) && NoNewline(written) && NoNewline(name)
    requires ReadAs(written) == Some(name) && !GoodName(name) && !IsLost(name)
    ensures !GoodName(written) && |written| < |name|
  {
    hide ReadAs, Escape, IsBareKey;
    ReadAsWritten(written);
    EscapeGrows(written);
    if IsBareKey(written) { BareKept(written); }
    if Plain(written) { PlainEscape(written); }
  }

  // Where some name is not good, some written name is not read at all.
  lemma {:induction false} BadNameMissing(servers: seq<Server>, bad: Server) returns (missing: Server)
    requires (forall s <- servers :: NoNewline(s.name) && !IsLost(s.name)) && bad in servers && !GoodName(bad.name)
    ensures missing in servers && !SomeReadAs(servers, missing.name)
    decreases |bad.name|
  {
    hide ReadAs, GoodName, IsLost, NoNewline;
    if SomeReadAs(servers, bad.name) {
      var t :| t in servers && ReadAs(t.name) == Some(bad.name);
      ReadFromShorter(t.name, bad.name);
      missing := BadNameMissing(servers, t);
    } else {
      missing := bad;
    }
  }

  lemma SomeNameMissing(servers: seq<Server>, bad: Server) returns (missing: Server)
    requires (forall s <- servers :: NoNewline(s.name)) && bad in servers && !GoodName(bad.name)
    ensures missing in servers && !SomeReadAs(servers, missing.name)
  {
    hide SomeReadAs, GoodName, IsLost;
    if lost :| lost in servers && IsLost(lost.name) {
      missing := lost;
      LostIsNeverRead(servers, lost.name);
    } else {
      missing := BadNameMissing(servers, bad);
    }
  }

  // Main result: after applying to a clean config exactly the servers that belong in it are there, if and only if none
  // of their names is empty or has a dot, a quote, a backslash or a closing bracket.
  lemma TomlPresenceIff(raw: string, tools: seq<Runtime>, r: nat, entries: seq<SkillEntry>,
                        assignments: seq<Assignment>, isNested: string -> bool)
    requires Clean(raw) && r < |tools| && tools[r].servers == ServersOf(Lines(raw))
    requires forall s <- DesiredIn(raw, CatalogOf(tools), assignments, tools[r].id) :: UnbrokenServer(s)
    requires forall e <- entries :: NoNewline(e.path)
    ensures var after := ServersOf(Lines(Applied(raw, CatalogOf(tools), entries, assignments, tools[r].id, isNested)));
      (forall name: string ::
         HasServer(after, name) <==> BelongsIn(tools, r, assignments, ServersOf(Lines(raw)), name)) <==>
        forall s <- DesiredIn(raw, CatalogOf(tools), assignments, tools[r].id) :: GoodName(s.name)
  {
    hide ServersOf, Applied, HasServer, Clean, Desired, LeftLines, CatalogOf, BelongsIn, UnbrokenServer, SomeReadAs;
    hide GoodName, NoNewline, DistinctNames;
    var desired := DesiredIn(raw, CatalogOf(tools), assignments, tools[r].id);
    if bad :| bad in desired && !GoodName(bad.name) {
      forall s | s in desired ensures NoNewline(s.name) { UnbrokenName(s); }
      var missing := SomeNameMissing(desired, bad);
      TomlPresence(raw, tools, r, entries, assignments, isNested, missing.name);
      DesiredBelongs(tools, r, assignments, missing.name);
      HasServerIff(desired, missing.name);
    } else {
      forall name: string
        ensures HasServer(ServersOf(Lines(Applied(raw, CatalogOf(tools), entries, assignments, tools[r].id, isNested))),
                          name)
                <==> BelongsIn(tools, r, assignments, ServersOf(Lines(raw)), name)
      {
        TomlPresence(raw, tools, r, entries, assignments, isNested, name);
      }
    }
  }

  lemma UnbrokenName(s: Server)
    requires UnbrokenServer(s)
    ensures NoNewline(s.name)
  {}

  // Whether a skill of the catalog is to be enabled: as its assignment says; without one as it was listed, or else yes.
  predicate IsOn(entry: SkillEntry, before: seq<Skill>, assignments: seq<Assignment>, runtimeId: string) {
    match AssignmentFor(assignments, entry.toolId)
    case Some(a) => a.scope == Common || (a.scope == Specific && runtimeId in a.runtimeIds)
    case None => FindSkill(before, entry.path).Some? ==> FindSkill(before, entry.path).value.enabled
  }

  lemma EnabledIsOn(entry: SkillEntry, before: seq<Skill>, assignments: seq<Assignment>, runtimeId: string)
    ensures SkillEnabled(entry, before, assignments, runtimeId) == IsOn(entry, before, assignments, runtimeId)
  {}

  // The skill of some catalog entry with the flag it is to have.
  ghost predicate IsListed(k: Skill, entries: seq<SkillEntry>, before: seq<Skill>, assignments: seq<Assignment>,
                           runtimeId: string) {
    exists e <- entries :: k == Skill(e.path, IsOn(e, before, assignments, runtimeId))
  }

  // What is written: the catalog's skills, and the nested ones that are not among them.
  lemma SkillsAfterAre(raw: string, entries: seq<SkillEntry>, assignments: seq<Assignment>, runtimeId: string,
                       isNested: string -> bool)
    ensures var before, skills := SkillsOf(Lines(raw)), SkillsAfter(raw, entries, assignments, runtimeId, isNested);
      && (forall e <- entries :: Skill(e.path, IsOn(e, before, assignments, runtimeId)) in skills)
      && (forall k <- skills ::
            || IsListed(k, entries, before, assignments, runtimeId)
            || (k in before && isNested(k.path) && forall e <- entries :: e.path != k.path))
      && (forall k <- before :: isNested(k.path) ==> exists j <- skills :: j.path == k.path)
  {
    hide CatalogSkills, AddNested, SkillsOf, SkillEnabled, IsOn;
    var before := SkillsOf(Lines(raw));
    forall e | e in entries
      ensures SkillEnabled(e, before, assignments, runtimeId) == IsOn(e, before, assignments, runtimeId)
    {
      EnabledIsOn(e, before, assignments, runtimeId);
    }
    CatalogSkillsListed(entries, before, assignments, runtimeId);
    CatalogSkillPaths(entries, before, assignments, runtimeId);
    AddNestedKeeps(CatalogSkills(entries, before, assignments, runtimeId), before, isNested);
  }

  // Main result, for any config and any servers without line breaks: each skill of the catalog is listed as its
  // assignment says, unassigned ones as they were, or enabled when they were not listed; entries of nested bundle
  // skills stay listed. In a clean config nothing else is listed afterwards.
  lemma TomlSkillsAfter(raw: string, catalog: seq<Server>, entries: seq<SkillEntry>, assignments: seq<Assignment>,
                        runtimeId: string, isNested: string -> bool)
    requires forall s <- DesiredIn(raw, catalog, assignments, runtimeId) :: UnbrokenServer(s)
    requires forall e <- entries :: OneLine(e.path)
    ensures var before := SkillsOf(Lines(raw));
      var after := SkillsOf(Lines(Applied(raw, catalog, entries, assignments, runtimeId, isNested)));
      && (forall e <- entries :: e.path != "" ==> Skill(e.path, IsOn(e, before, assignments, runtimeId)) in after)
      && (forall k <- before :: isNested(k.path) ==> exists j <- after :: j.path == k.path)
      && (Clean(raw) ==> forall k <- after ::
            || IsListed(k, entries, before, assignments, runtimeId)
            || (k in before && isNested(k.path) && forall e <- entries :: e.path != k.path))
  {
    hide ScanSkills, Rewrite, CatalogSkills, AddNested, UnbrokenServer, GoodSkill, OneLine, Left, Outside, Desired;
    hide IsOn, WithPath, IsListed, SkillsAfter, SkillsOf, Clean;
    var skills := SkillsAfter(raw, entries, assignments, runtimeId, isNested);
    SkillsAfterFit(raw, entries, assignments, runtimeId, isNested);
    forall e | e in entries ensures NoNewline(e.path) { OneLineHasNoNewline(e.path); }
    AppliedIs(raw, catalog, entries, assignments, runtimeId, isNested);
    SkillsAfterRewrite(raw, DesiredIn(raw, catalog, assignments, runtimeId), skills);
    SkillsAfterAre(raw, entries, assignments, runtimeId, isNested);
    WithPathSubset(skills);
    ReadPathsNonEmpty(Lines(raw));
    if Clean(raw) { CleanLeavesNone(raw, catalog, entries, assignments, runtimeId, isNested); }
  }

  lemma {:induction false} WithPathNonEmpty(entries: seq<Skill>)
    ensures forall k <- WithPath(entries) :: k.path != ""
  {
    if entries != [] { WithPathNonEmpty(entries[1..]); }
  }

  lemma ReadPathsNonEmpty(lines: seq<string>)
    ensures forall k <- SkillsOf(lines) :: k.path != ""
  {
    WithPathNonEmpty(ScanSkills(NO_SKILLS, lines).Flush().entries);
  }
}
