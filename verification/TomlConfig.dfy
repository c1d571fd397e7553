// The managed part of a TOML config: parsing MCP servers and skills out of it line by line, rendering them, and
// rewriting the managed sections of a file (apps/api/src/agent-tools.ts).

module TomlConfig {
  import opened Options
  import opened Text
  import opened TomlLexer

  // `args` and `env` are None when undefined. A JavaScript object's entries are kept in their order.
  datatype Definition = Definition(http: bool, command: Option<string>, args: Option<seq<string>>,
                                   url: Option<string>, env: Option<seq<Pair>>)

  datatype Server = Server(name: string, definition: Definition)

  datatype Skill = Skill(path: string, enabled: bool)

  // `servers.set(name, definition)` on an insertion-ordered map.
  function SetServer(servers: seq<Server>, s: Server): seq<Server> {
    if servers == [] then [s]
    else if servers[0].name == s.name then [s] + servers[1..]
    else [servers[0]] + SetServer(servers[1..], s)
  }

  function SetServers(servers: seq<Server>, more: seq<Server>): seq<Server>
    decreases |more|
  {
    if more == [] then servers else SetServers(SetServer(servers, more[0]), more[1..])
  }

  // ---------------------------------------------------------------- parsing servers

  // The section being read.
  datatype Draft = Draft(name: string, command: Option<string>, args: seq<string>, url: Option<string>, env: seq<Pair>)

  function Finished(d: Draft): Server {
    var env := if d.env != [] then Some(d.env) else None;
    Server(d.name,
           if d.url.Some? && d.url.value != "" then Definition(true, None, None, d.url, env)
           else Definition(false, d.command, if d.args != [] then Some(d.args) else None, None, env))
  }

  datatype ServerScan = ServerScan(servers: seq<Server>, current: Option<Draft>) {
    function Flush(): ServerScan {
      match current
      case None => this
      case Some(d) => ServerScan(SetServer(servers, Finished(d)), None)
    }
  }

  function SetPairs(pairs: seq<Pair>, more: seq<Pair>): seq<Pair>
    decreases |more|
  {
    if more == [] then pairs else SetPairs(SetPair(pairs, more[0]), more[1..])
  }

  // An `env` line that is not an inline table.
  function LooseEnv(d: Draft, line: string): Draft {
    var key := Trim(line[..IndexOf(line, '=')]);
    var value := ParseTomlString(line);
    if key != "" && value.Some? && value.value != "" then d.(env := SetPair(d.env, Pair(key, value.value))) else d
  }

  function ReadEntry(d: Draft, line: string): Draft {
    if KeyValue(line, "command").Some? then d.(command := ParseTomlString(KeyValue(line, "command").value))
    else if KeyValue(line, "url").Some? then d.(url := ParseTomlString(KeyValue(line, "url").value))
    else if KeyValue(line, "args").Some? then d.(args := ParseTomlStringArray(KeyValue(line, "args").value))
    else if KeyValue(line, "env").Some? then
      var value := KeyValue(line, "env").value;
      if "{" <= Trim(value) then d.(env := SetPairs(d.env, ParseTomlInlineEnv(value))) else LooseEnv(d, value)
    else d
  }

  function ServerLine(s: ServerScan, line: string): ServerScan {
    match SectionName(line)
    case Some(name) =>
      var flushed := s.Flush();
      if !("mcp_servers." <= name) then flushed
      else
        var serverName := StripQuotes(name[|"mcp_servers."|..]);
        if serverName != "" && '.' !in serverName then flushed.(current := Some(Draft(serverName, None, [], None, [])))
        else flushed
    case None =>
      match s.current
      case None => s
      case Some(d) => s.(current := Some(ReadEntry(d, line)))
  }

  function ScanServers(s: ServerScan, lines: seq<string>): ServerScan {
    if lines == [] then s else ServerLine(ScanServers(s, lines[..|lines| - 1]), lines[|lines| - 1])
  }

  const NO_SERVERS := ServerScan([], None)

  function ServersOf(lines: seq<string>): seq<Server> {
    ScanServers(NO_SERVERS, lines).Flush().servers
  }

  method ParseTomlMcpServers(raw: string) returns (servers: seq<Server>)
    ensures servers == ServersOf(Lines(raw))
  {
    var lines := Lines(raw);
    var scan := NO_SERVERS;
    for i := 0 to |lines|
      invariant scan == ScanServers(NO_SERVERS, lines[..i])
    {
      assert lines[..i + 1][..i] == lines[..i];
      scan := ServerLine(scan, lines[i]);
    }
    assert lines[..|lines|] == lines;
    servers := scan.Flush().servers;
  }

  // ---------------------------------------------------------------- parsing skills

  datatype SkillScan = SkillScan(entries: seq<Skill>, current: Option<Skill>) {
    function Flush(): SkillScan {
      match current
      case None => this
      case Some(k) => SkillScan(entries + [k], None)
    }
  }

  function SkillLine(s: SkillScan, line: string): SkillScan {
    match ArrayName(line)
    case Some(name) =>
      if name == "skills.config" then s.Flush().(current := Some(Skill("", true))) else s.Flush()
    case None =>
      if SectionName(line).Some? then s.Flush()
      else
        match s.current
        case None => s
        case Some(k) =>
          var path := KeyValue(line, "path");
          if path.Some? then
            var value := ParseTomlString(path.value);
            s.(current := Some(k.(path := if value.Some? then value.value else "")))
          else if EnabledValue(line).Some? then s.(current := Some(k.(enabled := EnabledValue(line).value)))
          else s
  }

  function ScanSkills(s: SkillScan, lines: seq<string>): SkillScan {
    if lines == [] then s else SkillLine(ScanSkills(s, lines[..|lines| - 1]), lines[|lines| - 1])
  }

  function WithPath(entries: seq<Skill>): seq<Skill> {
    if entries == [] then []
    else (if entries[0].path != "" then [entries[0]] else []) + WithPath(entries[1..])
  }

  const NO_SKILLS := SkillScan([], None)

  function SkillsOf(lines: seq<string>): seq<Skill> {
    WithPath(ScanSkills(NO_SKILLS, lines).Flush().entries)
  }

  method ParseTomlSkills(raw: string) returns (skills: seq<Skill>)
    ensures skills == SkillsOf(Lines(raw))
  {
    var lines := Lines(raw);
    var scan := NO_SKILLS;
    for i := 0 to |lines|
      invariant scan == ScanSkills(NO_SKILLS, lines[..i])
    {
      assert lines[..i + 1][..i] == lines[..i];
      scan := SkillLine(scan, lines[i]);
    }
    assert lines[..|lines|] == lines;
    skills := WithPath(scan.Flush().entries);
  }

  // ---------------------------------------------------------------- rendering

  function Commas(items: seq<string>): string {
    if items == [] then ""
    else if |items| == 1 then items[0]
    else items[0] + ", " + Commas(items[1..])
  }

  function Quoted(values: seq<string>): (items: seq<string>)
    ensures |items| == |values|
  {
    if values == [] then [] else [TomlString(values[0])] + Quoted(values[1..])
  }

  function Assignment(p: Pair): string {
    TomlKey(p.key) + " = " + TomlString(p.value)
  }

  function Assignments(pairs: seq<Pair>): (items: seq<string>)
    ensures |items| == |pairs|
  {
    if pairs == [] then []
    else [Assignment(pairs[0])] + Assignments(pairs[1..])
  }

  function OrEmpty(s: Option<string>): string {
    if s.Some? then s.value else ""
  }

  function ArgsLine(args: seq<string>): string {
    "args = [" + Commas(Quoted(args)) + "]"
  }

  function EnvLine(env: seq<Pair>): string {
    "env = { " + Commas(Assignments(env)) + " }"
  }

  function RenderTomlMcpSection(s: Server): seq<string> {
    var d := s.definition;
    ["[mcp_servers." + TomlKey(s.name) + "]"]
    + if d.http then ["url = " + TomlString(OrEmpty(d.url))]
      else
        ["command = " + TomlString(OrEmpty(d.command))]
        + (if d.args.Some? && d.args.value != [] then [ArgsLine(d.args.value)] else [])
        + (if d.env.Some? && d.env.value != [] then [EnvLine(d.env.value)] else [])
  }

  function RenderTomlSkillBlock(k: Skill): seq<string> {
    ["[[skills.config]]", "path = " + TomlString(k.path)] + if k.enabled then [] else ["enabled = false"]
  }

  // ---------------------------------------------------------------- rewriting

  datatype Kept = Kept(lines: seq<string>, skipping: bool)

  function KeepLine(k: Kept, line: string): Kept {
    if IsMarker(line) then k
    else if IsManagedHeader(line) then k.(skipping := true)
    else
      var skipping := k.skipping && !IsHeader(line);
      Kept(if skipping then k.lines else k.lines + [line], skipping)
  }

  function KeepLines(k: Kept, lines: seq<string>): Kept {
    if lines == [] then k else KeepLine(KeepLines(k, lines[..|lines| - 1]), lines[|lines| - 1])
  }

  // The lines outside managed sections.
  function KeptOf(lines: seq<string>): seq<string> {
    KeepLines(Kept([], false), lines).lines
  }

  function Block(body: seq<string>): seq<string> {
    ["", MARKER] + body
  }

  function ServerBlocks(servers: seq<Server>): seq<string> {
    if servers == [] then [] else Block(RenderTomlMcpSection(servers[0])) + ServerBlocks(servers[1..])
  }

  function SkillBlocks(skills: seq<Skill>): seq<string> {
    if skills == [] then [] else Block(RenderTomlSkillBlock(skills[0])) + SkillBlocks(skills[1..])
  }

  function Managed(servers: seq<Server>, skills: seq<Skill>): seq<string> {
    ServerBlocks(servers) + SkillBlocks(skills)
  }

  // The kept lines, closed by a blank one.
  function Closed(kept: seq<string>): (closed: seq<string>)
    ensures kept <= closed && |closed| <= |kept| + 1
    ensures closed != [] ==> closed[|closed| - 1] == ""
    ensures kept != [] && kept[|kept| - 1] == "" ==> closed == kept
  {
    if kept != [] && kept[|kept| - 1] != "" then kept + [""] else kept
  }

  function Rewrite(raw: string, servers: seq<Server>, skills: seq<Skill>): string {
    TrimEnd(Join(Closed(KeptOf(Lines(raw))) + Managed(servers, skills))) + "\n"
  }

  method KeepUnmanaged(lines: seq<string>) returns (kept: seq<string>)
    ensures kept == KeptOf(lines)
  {
    hide IsMarker, IsManagedHeader, IsHeader;
    kept := [];
    var skipping := false;
    for i := 0 to |lines|
      invariant Kept(kept, skipping) == KeepLines(Kept([], false), lines[..i])
    {
      assert lines[..i + 1][..i] == lines[..i];
      var line := lines[i];
      if IsMarker(line) { continue; }
      if IsManagedHeader(line) {
        skipping := true;
        continue;
      }
      if IsHeader(line) { skipping := false; }
      if !skipping { kept := kept + [line]; }
    }
    assert lines[..|lines|] == lines;
  }

  method RewriteManagedToml(raw: string, servers: seq<Server>, skills: seq<Skill>) returns (text: string)
    ensures text == Rewrite(raw, servers, skills)
  {
    hide Block, RenderTomlMcpSection, RenderTomlSkillBlock, ServerBlocks, SkillBlocks, Lines, KeptOf, Join, TrimEnd;
    NoBlocks();
    var rebuilt := KeepUnmanaged(Lines(raw));
    if |rebuilt| > 0 && rebuilt[|rebuilt| - 1] != "" { rebuilt := rebuilt + [""]; }
    ghost var closed := rebuilt;
    assert servers[0..] == servers;
    for i := 0 to |servers|
      invariant rebuilt + ServerBlocks(servers[i..]) == closed + ServerBlocks(servers)
    {
      ServerBlocksStep(servers, i, rebuilt);
      rebuilt := rebuilt + Block(RenderTomlMcpSection(servers[i]));
    }
    assert servers[|servers|..] == [] && rebuilt + [] == rebuilt && skills[0..] == skills;
    for i := 0 to |skills|
      invariant rebuilt + SkillBlocks(skills[i..]) == closed + ServerBlocks(servers) + SkillBlocks(skills)
    {
      SkillBlocksStep(skills, i, rebuilt);
      rebuilt := rebuilt + Block(RenderTomlSkillBlock(skills[i]));
    }
    assert skills[|skills|..] == [] && rebuilt + [] == rebuilt;
    assert closed + ServerBlocks(servers) + SkillBlocks(skills) == closed + Managed(servers, skills);
    text := TrimEnd(Join(rebuilt)) + "\n";
  }

  lemma NoBlocks()
    ensures ServerBlocks([]) == [] && SkillBlocks([]) == []
  {}

  lemma ServerBlocksStep(servers: seq<Server>, i: nat, rebuilt: seq<string>)
    requires i < |servers|
    ensures rebuilt + ServerBlocks(servers[i..])
         == rebuilt + Block(RenderTomlMcpSection(servers[i])) + ServerBlocks(servers[i + 1..])
  {
    assert servers[i..][1..] == servers[i + 1..];
  }

  lemma SkillBlocksStep(skills: seq<Skill>, i: nat, rebuilt: seq<string>)
    requires i < |skills|
    ensures rebuilt + SkillBlocks(skills[i..])
         == rebuilt + Block(RenderTomlSkillBlock(skills[i])) + SkillBlocks(skills[i + 1..])
  {
    assert skills[i..][1..] == skills[i + 1..];
  }
}
