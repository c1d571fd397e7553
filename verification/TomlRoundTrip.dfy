// Reading a rewritten config back gives exactly what was written.

module TomlRoundTrip {
  import opened Options
  import opened Text
  import opened TomlLexer
  import opened TomlConfig
  import opened TomlValues
  import opened ServerNames

  ghost predicate GoodServer(s: Server) {
    var d := s.definition;
    && GoodName(s.name) && OneLine(OrEmpty(d.command)) && OneLine(OrEmpty(d.url))
    && (d.args.Some? ==> forall a <- d.args.value :: OneLine(a))
    && (d.env.Some? ==> (forall p <- d.env.value :: GoodPair(p)) && DistinctKeys(d.env.value))
  }

  ghost predicate GoodSkill(k: Skill) {
    OneLine(k.path)
  }

  // What a written server reads back as.
  function ReadBack(s: Server): Server {
    var d := s.definition;
    Server(s.name,
      if d.http then
        if OrEmpty(d.url) != "" then Definition(true, None, None, d.url, None)
        else Definition(false, None, None, None, None)
      else
        Definition(false, Some(OrEmpty(d.command)),
                   if d.args.Some? && d.args.value != [] then Some(Doubled(d.args.value)) else None, None,
                   if d.env.Some? && d.env.value != [] then Some(DoubledValues(d.env.value)) else None))
  }

  // The definitions that survive: an http server has a url and nothing else; a stdio server has a command, no url, and
  // no empty or backslashed argument list or env.
  predicate Canonical(d: Definition) {
    if d.http then d.command.None? && d.args.None? && d.env.None? && d.url.Some? && d.url.value != ""
    else
      && d.command.Some? && d.url.None?
      && (d.args.Some? ==> d.args.value != [] && forall a <- d.args.value :: '\\' !in a)
      && (d.env.Some? ==> d.env.value != [] && forall p <- d.env.value :: '\\' !in p.value)
  }

  lemma SurvivesIff(s: Server)
    ensures ReadBack(s) == s <==> Canonical(s.definition)
  {
    if s.definition.args.Some? {
      ArrayRoundTripIff(s.definition.args.value);
      assert s.definition.args.value != [] ==> Doubled(s.definition.args.value) != [];
    }
    if s.definition.env.Some? { DoubledValuesIff(s.definition.env.value); }
  }

  // ---------------------------------------------------------------- scanning in pieces

  lemma {:induction false} ScanServersAppend(s: ServerScan, a: seq<string>, b: seq<string>)
    ensures ScanServers(s, a + b) == ScanServers(ScanServers(s, a), b)
  {
    hide ServerLine;
    if b == [] {
      assert a + b == a;
    } else {
      assert (a + b)[..|a + b| - 1] == a + b[..|b| - 1];
      ScanServersAppend(s, a, b[..|b| - 1]);
    }
  }

  lemma ScanServersOne(s: ServerScan, line: string)
    ensures ScanServers(s, [line]) == ServerLine(s, line)
  {
    hide ServerLine;
    assert [line][..0] == [];
  }

  lemma {:induction false} ScanSkillsAppend(s: SkillScan, a: seq<string>, b: seq<string>)
    ensures ScanSkills(s, a + b) == ScanSkills(ScanSkills(s, a), b)
  {
    hide SkillLine;
    if b == [] {
      assert a + b == a;
    } else {
      assert (a + b)[..|a + b| - 1] == a + b[..|b| - 1];
      ScanSkillsAppend(s, a, b[..|b| - 1]);
    }
  }

  lemma ScanSkillsOne(s: SkillScan, line: string)
    ensures ScanSkills(s, [line]) == SkillLine(s, line)
  {
    hide SkillLine;
    assert [line][..0] == [];
  }

  // ---------------------------------------------------------------- lines that carry no entry

  // Blank lines and comments: no header, no key.
  predicate IsIdle(line: string) {
    var t := TrimStart(line);
    t == "" || t[0] == '#'
  }

  lemma IdleKey(line: string, key: string)
    requires IsIdle(line) && key != "" && key[0] != '#'
    ensures KeyValue(line, key).None?
  {
    hide IsLineTerminator, IsSpace;
  }

  lemma IdleNoHeader(line: string)
    requires IsIdle(line)
    ensures SectionName(line).None? && ArrayName(line).None?
  {
    hide IsLineTerminator, IsSpace, IsTail, IndexOf;
  }

  lemma IdleNotEnabled(line: string)
    requires IsIdle(line)
    ensures EnabledValue(line).None?
  {
    hide IsLineTerminator, IsSpace, Trim;
    var t := TrimStart(line);
    if |t| >= 7 {
      assert Lower(t[..7][0]) != Lower("enabled"[0]);
    }
  }

  lemma IdleScans(s: ServerScan, k: SkillScan, line: string)
    requires IsIdle(line)
    ensures ServerLine(s, line) == s && SkillLine(k, line) == k
  {
    hide IsIdle, KeyValue, SectionName, ArrayName, EnabledValue;
    IdleNoHeader(line);
    IdleNotEnabled(line);
    IdleKey(line, "command");
    IdleKey(line, "url");
    IdleKey(line, "args");
    IdleKey(line, "env");
    IdleKey(line, "path");
  }

  lemma HashIsNoSpace()
    ensures !IsSpace('#')
  {}

  lemma BlankIsIdle()
    ensures IsIdle("")
  {}

  lemma IdleBlockLines()
    ensures IsIdle("") && IsIdle(MARKER)
  {
    hide IsSpace, TrimStart;
    HashIsNoSpace();
    BlankIsIdle();
    assert MARKER[0] == '#';
    TrimStartNone(MARKER);
  }

  lemma BlockStart(s: ServerScan, k: SkillScan)
    ensures ScanServers(s, ["", MARKER]) == s && ScanSkills(k, ["", MARKER]) == k
  {
    hide ServerLine, SkillLine, IsIdle;
    IdleBlockLines();
    IdleScans(s, k, "");
    IdleScans(s, k, MARKER);
    ScanServersOne(s, "");
    ScanSkillsOne(k, "");
    ScanServersSnoc(s, [""], MARKER);
    ScanSkillsSnoc(k, [""], MARKER);
    assert [""] + [MARKER] == ["", MARKER];
  }

  // ---------------------------------------------------------------- the lines of one server

  lemma GoodIsHeader(name: string)
    requires GoodName(name)
    ensures ReadAs(name) == Some(name) && SectionName(ServerHeader(name)).Some? && ArrayName(ServerHeader(name)).None?
  {
    hide SectionName, ArrayName, ReadAs, IsTail, TrimEnd, ServerHeader;
    NameSurvivesIff(name);
    HeaderReads(name);
    HeaderOpens(NO_SERVERS, name);
  }

  lemma HeaderStartsServer(s: ServerScan, name: string)
    requires GoodName(name)
    ensures ServerLine(s, ServerHeader(name)) == ServerScan(s.Flush().servers, Some(Draft(name, None, [], None, [])))
  {
    hide SectionName, ArrayName, GoodName, ReadAs, ServerHeader, ServerLine;
    GoodIsHeader(name);
    HeaderOpens(s, name);
  }

  lemma CommandLine(s: ServerScan, v: string)
    requires s.current.Some? && OneLine(v)
    ensures ServerLine(s, "command = " + TomlString(v)) == s.(current := Some(s.current.value.(command := Some(v))))
  {
    hide ParseTomlString, KeyValue, SectionName, ArrayName;
    var line := "command = " + TomlString(v);
    assert line == "command" + " = " + TomlString(v);
    StringOneLine(v);
    StringRoundTrip(v);
    KeyReadsValue("command", TomlString(v));
    EntryIsNoHeader(line);
  }

  lemma UrlLine(s: ServerScan, v: string)
    requires s.current.Some? && OneLine(v)
    ensures ServerLine(s, "url = " + TomlString(v)) == s.(current := Some(s.current.value.(url := Some(v))))
  {
    hide ParseTomlString, KeyValue, SectionName, ArrayName;
    StringOneLine(v);
    StringRoundTrip(v);
    var line := "url = " + TomlString(v);
    assert line == "url" + " = " + TomlString(v);
    KeyReadsValue("url", TomlString(v));
    OtherKey(line, "command");
    EntryIsNoHeader(line);
  }

  lemma ArgsEntry(s: ServerScan, args: seq<string>)
    requires s.current.Some? && forall a <- args :: OneLine(a)
    ensures ServerLine(s, ArgsLine(args)) == s.(current := Some(s.current.value.(args := Doubled(args))))
  {
    hide ParseTomlStringArray, KeyValue, SectionName, ArrayName;
    QuotedOneLine(args);
    ArrayReadsBack(args);
    var v := "[" + Commas(Quoted(args)) + "]";
    assert ArgsLine(args) == "args" + " = " + v;
    KeyReadsValue("args", v);
    OtherKey(ArgsLine(args), "command");
    OtherKey(ArgsLine(args), "url");
    EntryIsNoHeader(ArgsLine(args));
  }

  lemma EnvEntry(s: ServerScan, env: seq<Pair>)
    requires s.current.Some? && s.current.value.env == []
    requires (forall p <- env :: GoodPair(p)) && DistinctKeys(env)
    ensures ServerLine(s, EnvLine(env)) == s.(current := Some(s.current.value.(env := DoubledValues(env))))
  {
    hide ParseTomlInlineEnv, KeyValue, SectionName, ArrayName, FoundPair, DoubledValues, DistinctKeys;
    AssignmentsOneLine(env);
    TableReadsBack(env);
    var v := TableText(env);
    assert EnvLine(env) == "env" + " = " + v;
    KeyReadsValue("env", v);
    OtherKey(EnvLine(env), "command");
    OtherKey(EnvLine(env), "url");
    OtherKey(EnvLine(env), "args");
    EntryIsNoHeader(EnvLine(env));
    TrimNone(v);
    DoubledKeysDistinct(env);
    assert [] + DoubledValues(env) == DoubledValues(env);
    SetPairsFresh([], DoubledValues(env));
  }

  lemma DoubledKeysDistinct(env: seq<Pair>)
    requires DistinctKeys(env)
    ensures DistinctKeys(DoubledValues(env))
  {}

  // ---------------------------------------------------------------- one server's block

  // One more line after what was scanned.
  lemma ScanServersSnoc(s: ServerScan, lines: seq<string>, line: string)
    ensures ScanServers(s, lines + [line]) == ServerLine(ScanServers(s, lines), line)
  {
    hide ServerLine;
    assert (lines + [line])[..|lines|] == lines;
  }

  lemma BodyReadsBack(scan: ServerScan, s: Server)
    requires GoodServer(s)
    ensures ScanServers(scan, RenderTomlMcpSection(s)).Flush().servers == SetServer(scan.Flush().servers, ReadBack(s))
    ensures ScanServers(scan, RenderTomlMcpSection(s)).current.Some?
  {
    hide ServerLine, TomlString, TomlKey, ArgsLine, EnvLine, GoodPair, DistinctKeys, SetServer, Doubled;
    var d := s.definition;
    var header := [ServerHeader(s.name)];
    ScanServersOne(scan, ServerHeader(s.name));
    HeaderStartsServer(scan, s.name);
    var s0 := ScanServers(scan, header);
    if d.http {
      var line := "url = " + TomlString(OrEmpty(d.url));
      ScanServersSnoc(scan, header, line);
      UrlLine(s0, OrEmpty(d.url));
    } else {
      var command := "command = " + TomlString(OrEmpty(d.command));
      ScanServersSnoc(scan, header, command);
      CommandLine(s0, OrEmpty(d.command));
      var lines1 := header + [command];
      var s1 := ScanServers(scan, lines1);
      var hasArgs := d.args.Some? && d.args.value != [];
      var lines2 := lines1 + if hasArgs then [ArgsLine(d.args.value)] else [];
      if hasArgs {
        ScanServersSnoc(scan, lines1, ArgsLine(d.args.value));
        ArgsEntry(s1, d.args.value);
      } else {
        assert lines2 == lines1;
      }
      var s2 := ScanServers(scan, lines2);
      var hasEnv := d.env.Some? && d.env.value != [];
      var lines3 := lines2 + if hasEnv then [EnvLine(d.env.value)] else [];
      if hasEnv {
        ScanServersSnoc(scan, lines2, EnvLine(d.env.value));
        EnvEntry(s2, d.env.value);
      } else {
        assert lines3 == lines2;
      }
      assert RenderTomlMcpSection(s) == lines3;
    }
  }

  lemma BlockReadsBack(scan: ServerScan, s: Server)
    requires GoodServer(s)
    ensures ScanServers(scan, Block(RenderTomlMcpSection(s))).Flush().servers
            == SetServer(scan.Flush().servers, ReadBack(s))
  {
    hide RenderTomlMcpSection, GoodServer, ReadBack;
    BlockStart(scan, NO_SKILLS);
    ScanServersAppend(scan, ["", MARKER], RenderTomlMcpSection(s));
    BodyReadsBack(scan, s);
  }

  function ReadBackAll(servers: seq<Server>): seq<Server> {
    if servers == [] then [] else [ReadBack(servers[0])] + ReadBackAll(servers[1..])
  }

  lemma {:induction false} BlocksReadBack(scan: ServerScan, servers: seq<Server>)
    requires forall s <- servers :: GoodServer(s)
    ensures ScanServers(scan, ServerBlocks(servers)).Flush().servers
            == SetServers(scan.Flush().servers, ReadBackAll(servers))
    decreases |servers|
  {
    hide Block, RenderTomlMcpSection, GoodServer, ReadBack, SetServer;
    if servers != [] {
      var block := Block(RenderTomlMcpSection(servers[0]));
      BlockReadsBack(scan, servers[0]);
      ScanServersAppend(scan, block, ServerBlocks(servers[1..]));
      BlocksReadBack(ScanServers(scan, block), servers[1..]);
      assert ReadBackAll(servers)[1..] == ReadBackAll(servers[1..]);
    }
  }

  // ---------------------------------------------------------------- skill blocks

  lemma ArrayAt(line: string, k: nat)
    ensures TrimStart(line) == line && "[[" <= line && IndexOf(line[2..], ']') == k && 0 < k && k + 4 <= |line|
            && line[k + 3] == ']' && IsTail(line[k + 4..]) ==>
              ArrayName(line) == Some(Trim(line[2..k + 2]))
  {
    hide TrimStart, IndexOf, IsTail, Trim;
  }

  lemma NoSectionAt(line: string, k: nat)
    requires TrimStart(line) == line && line != "" && IndexOf(line[1..], ']') == k && k + 2 <= |line|
             && !IsTail(line[k + 2..])
    ensures SectionName(line).None?
  {
    hide TrimStart, IndexOf, IsTail, Trim;
  }

  lemma ArrayPieces(inner: string)
    ensures var line := "[[" + inner + "]]";
      && "[[" <= line && line[0] == '[' && |line| == |inner| + 4 && line[|inner| + 3] == ']'
      && line[2..] == inner + [']'] + "]" && line[1..] == ("[" + inner) + [']'] + "]"
      && line[2..|inner| + 2] == inner && line[|inner| + 4..] == "" && line[|inner| + 3..] == "]"
  {}

  lemma ArrayHeader(inner: string)
    requires inner != "" && ']' !in inner && !IsSpace(inner[0]) && !IsSpace(inner[|inner| - 1])
    ensures ArrayName("[[" + inner + "]]") == Some(inner) && SectionName("[[" + inner + "]]").None?
  {
    hide IndexOf, Trim, IsSpace, TrimStart, IsTail, ArrayName, SectionName;
    var line := "[[" + inner + "]]";
    ArrayPieces(inner);
    BracketIsNoSpace();
    TrimStartNone(line);
    IndexOfAt(inner, ']', "]");
    IndexOfAt("[" + inner, ']', "]");
    TrimNone(inner);
    BracketTails();
    ArrayAt(line, |inner|);
    NoSectionAt(line, |inner| + 1);
  }

  lemma BracketTails()
    ensures IsTail("") && !IsTail("]")
  {
    hide IsSpace, IsLineTerminator, OneLine, TrimStart;
    BracketIsNoSpace();
    TrimStartNone("]");
    TrimStartNone("");
  }

  lemma SkillHeader()
    ensures SectionName("[[skills.config]]").None? && ArrayName("[[skills.config]]") == Some("skills.config")
  {
    hide SectionName, ArrayName, IsSpace;
    var inner := "skills.config";
    LetterIsNoSpace('s');
    LetterIsNoSpace('g');
    assert inner[0] == 's' && inner[|inner| - 1] == 'g';
    ArrayHeader(inner);
    assert "[[" + inner + "]]" == "[[skills.config]]";
  }

  lemma SkillHeaderLine(s: ServerScan, k: SkillScan)
    ensures SkillLine(k, "[[skills.config]]") == SkillScan(k.Flush().entries, Some(Skill("", true)))
    ensures ServerLine(s, "[[skills.config]]") == s
  {
    hide SectionName, ArrayName, KeyValue;
    SkillHeader();
    OtherKey("[[skills.config]]", "command");
    OtherKey("[[skills.config]]", "url");
    OtherKey("[[skills.config]]", "args");
    OtherKey("[[skills.config]]", "env");
  }

  lemma PathLine(s: ServerScan, k: SkillScan, path: string)
    requires OneLine(path)
    ensures ServerLine(s, "path = " + TomlString(path)) == s
    ensures k.current.Some? ==>
              SkillLine(k, "path = " + TomlString(path)) == k.(current := Some(k.current.value.(path := path)))
  {
    hide ParseTomlString, KeyValue, SectionName, ArrayName;
    StringOneLine(path);
    StringRoundTrip(path);
    var line := "path = " + TomlString(path);
    assert line == "path" + " = " + TomlString(path);
    KeyReadsValue("path", TomlString(path));
    OtherKey(line, "command");
    OtherKey(line, "url");
    OtherKey(line, "args");
    OtherKey(line, "env");
    EntryIsNoHeader(line);
  }

  lemma EnabledAt(line: string, u: string, v: string)
    ensures TrimStart(line) == line && |line| >= 7 && SameIgnoringCase(line[..7], "enabled")
            && TrimStart(line[7..]) == u && u != "" && u[0] == '=' && Trim(u[1..]) == v
            && SameIgnoringCase(v, "false") && !SameIgnoringCase(v, "true") ==>
              EnabledValue(line) == Some(false)
  {
    hide TrimStart, Trim, SameIgnoringCase;
  }

  lemma FlagReads(key: string, v: string)
    requires SameIgnoringCase(key, "enabled") && !IsSpace(key[0])
    requires SameIgnoringCase(v, "false") && !IsSpace(v[0]) && !IsSpace(v[|v| - 1])
    ensures EnabledValue(key + " = " + v) == Some(false)
  {
    hide Trim, IsSpace, Lower, TrimStart, EnabledValue;
    var line := key + " = " + v;
    EntryPieces(key, v);
    assert line[..7] == key && line[0] == key[0];
    TrimStartNone(line);
    EqualsIsNoSpace();
    SpaceThen("= " + v);
    TrimSpaceThen(v);
    EnabledAt(line, "= " + v, v);
  }

  lemma DisabledValue()
    ensures EnabledValue("enabled = false") == Some(false)
  {
    hide EnabledValue, IsSpace;
    LetterIsNoSpace('e');
    LetterIsNoSpace('f');
    FlagReads("enabled", "false");
    assert "enabled" + " = " + "false" == "enabled = false";
  }

  lemma TrimSpaceThen(x: string)
    requires x != "" && !IsSpace(x[0]) && !IsSpace(x[|x| - 1])
    ensures Trim(" " + x) == x
  {
    SpaceThen(x);
    TrimNone(x);
  }

  lemma DisabledLine(s: ServerScan, k: SkillScan)
    ensures ServerLine(s, "enabled = false") == s
    ensures k.current.Some? ==>
              SkillLine(k, "enabled = false") == k.(current := Some(k.current.value.(enabled := false)))
  {
    hide SectionName, ArrayName, KeyValue, EnabledValue;
    var line := "enabled = false";
    EntryIsNoHeader(line);
    DisabledValue();
    OtherKey(line, "command");
    OtherKey(line, "url");
    OtherKey(line, "args");
    OtherKey(line, "path");
    EnabledIsNoEnv();
  }

  lemma EnabledIsNoEnv()
    ensures KeyValue("enabled = false", "env").None?
  {
    var line := "enabled = false";
    TrimStartNone(line);
    assert line[2] == 'a' && "env"[2] == 'v';
    assert !("env" <= line);
  }

  lemma SkillBlockReadsBack(s: ServerScan, scan: SkillScan, k: Skill)
    requires GoodSkill(k)
    ensures ScanServers(s, Block(RenderTomlSkillBlock(k))) == s
    ensures ScanSkills(scan, Block(RenderTomlSkillBlock(k))).Flush().entries == scan.Flush().entries + [k]
  {
    hide ServerLine, SkillLine, TomlString, ScanServers, ScanSkills;
    BlockStart(s, scan);
    var header, path := "[[skills.config]]", "path = " + TomlString(k.path);
    var lines0 := ["", MARKER];
    var lines1 := lines0 + [header];
    var lines2 := lines1 + [path];
    SkillHeaderLine(s, scan);
    ScanServersSnoc(s, lines0, header);
    ScanSkillsSnoc(scan, lines0, header);
    PathLine(s, ScanSkills(scan, lines1), k.path);
    ScanServersSnoc(s, lines1, path);
    ScanSkillsSnoc(scan, lines1, path);
    if k.enabled {
      assert Block(RenderTomlSkillBlock(k)) == lines2;
    } else {
      DisabledLine(s, ScanSkills(scan, lines2));
      ScanServersSnoc(s, lines2, "enabled = false");
      ScanSkillsSnoc(scan, lines2, "enabled = false");
      assert Block(RenderTomlSkillBlock(k)) == lines2 + ["enabled = false"];
    }
  }

  lemma ScanSkillsSnoc(s: SkillScan, lines: seq<string>, line: string)
    ensures ScanSkills(s, lines + [line]) == SkillLine(ScanSkills(s, lines), line)
  {
    hide SkillLine;
    assert (lines + [line])[..|lines|] == lines;
  }

  lemma ScanNone(s: ServerScan, k: SkillScan)
    ensures ScanServers(s, []) == s && ScanSkills(k, []) == k
  {}

  // The last server is unaffected by the skill blocks that the server parser runs through.
  lemma {:induction false} SkillBlocksReadBack(s: ServerScan, scan: SkillScan, skills: seq<Skill>)
    requires forall k <- skills :: GoodSkill(k)
    ensures ScanServers(s, SkillBlocks(skills)) == s
    ensures ScanSkills(scan, SkillBlocks(skills)).Flush().entries == scan.Flush().entries + skills
    decreases |skills|
  {
    hide Block, RenderTomlSkillBlock, GoodSkill, SkillScan.Flush, ScanServers, ScanSkills;
    if skills == [] {
      ScanNone(s, scan);
      assert scan.Flush().entries + [] == scan.Flush().entries;
    } else {
      var block := Block(RenderTomlSkillBlock(skills[0]));
      SkillBlockReadsBack(s, scan, skills[0]);
      ScanServersAppend(s, block, SkillBlocks(skills[1..]));
      ScanSkillsAppend(scan, block, SkillBlocks(skills[1..]));
      SkillBlocksReadBack(s, ScanSkills(scan, block), skills[1..]);
      HeadMoves(scan.Flush().entries, skills);
    }
  }

  lemma HeadMoves(front: seq<Skill>, skills: seq<Skill>)
    requires skills != []
    ensures front + [skills[0]] + skills[1..] == front + skills
  {}

  // ---------------------------------------------------------------- server blocks, seen by the skill parser

  predicate IsEntryLine(line: string) {
    line != "" && !IsSpace(line[0]) && line[0] != '[' && line[0] != '#'
  }

  // Begins like `url`, `command`, `args` or `env`.
  predicate IsServerEntry(line: string) {
    |line| >= 3 && line[0] in {'u', 'c', 'a', 'e'} && (line[0] == 'e' ==> line[2] == 'v')
  }

  lemma ServerEntryIsEntry(line: string)
    requires IsServerEntry(line)
    ensures IsEntryLine(line) && SectionName(line).None? && ArrayName(line).None?
  {
    hide IsSpace;
    LetterIsNoSpace(line[0]);
    EntryIsNoHeader(line);
  }

  // Neither a path nor a switch of a skill.
  lemma IdleForSkills(k: SkillScan, line: string)
    requires line != "" && !IsSpace(line[0]) && SectionName(line).None? && ArrayName(line).None?
    requires line[0] == '[' || IsServerEntry(line)
    ensures SkillLine(k, line) == k
  {
    hide IsSpace, SectionName, ArrayName, KeyValue, EnabledValue;
    assert "path"[0] == 'p';
    OtherKey(line, "path");
    NoSwitch(line);
  }

  lemma NoSwitch(line: string)
    requires line != "" && !IsSpace(line[0]) && (line[0] == '[' || IsServerEntry(line))
    ensures EnabledValue(line).None?
  {
    hide IsSpace, Trim, TrimStart, Lower;
    TrimStartNone(line);
    LettersDiffer();
    if |line| >= 7 {
      assert "enabled"[0] == 'e' && "enabled"[2] == 'a';
      assert line[..7][0] == line[0] && line[..7][2] == line[2];
    }
  }

  lemma LettersDiffer()
    ensures forall c <- {'[', 'u', 'c', 'a'} :: Lower(c) != Lower('e')
    ensures Lower('v') != Lower('a')
  {}

  lemma {:induction false} EntriesIdleForSkills(k: SkillScan, lines: seq<string>)
    requires forall line <- lines :: IsServerEntry(line)
    ensures ScanSkills(k, lines) == k
  {
    hide SkillLine, IsServerEntry, IsSpace;
    if lines != [] {
      var n := |lines| - 1;
      forall line | line in lines[..n] ensures line in lines {}
      EntriesIdleForSkills(k, lines[..n]);
      assert lines[n] in lines;
      ServerEntryIsEntry(lines[n]);
      IdleForSkills(k, lines[n]);
    }
  }

  lemma HeaderForSkills(k: SkillScan, name: string)
    ensures SkillLine(k, ServerHeader(name)) == if SectionName(ServerHeader(name)).Some? then k.Flush() else k
  {
    hide SectionName, ArrayName, TomlKey, IsSpace, KeyValue, EnabledValue, IsTail, TrimEnd, HeaderParts;
    HeaderReads(name);
    BracketIsNoSpace();
    assert ServerHeader(name)[0] == '[';
    if SectionName(ServerHeader(name)).None? { IdleForSkills(k, ServerHeader(name)); }
  }

  lemma BodyEntries(s: Server)
    ensures var body := RenderTomlMcpSection(s);
      |body| >= 2 && body == [ServerHeader(s.name)] + body[1..] && forall line <- body[1..] :: IsServerEntry(line)
  {
    hide TomlString, Commas, Quoted, Assignments, TomlKey;
  }

  lemma ServerBlockIdleForSkills(k: SkillScan, s: Server)
    ensures ScanSkills(k, Block(RenderTomlMcpSection(s))).Flush() == k.Flush()
  {
    hide SkillLine, ScanSkills, RenderTomlMcpSection, IsServerEntry, SectionName, ServerHeader;
    BlockStart(NO_SERVERS, k);
    var lines0 := ["", MARKER];
    var header := ServerHeader(s.name);
    var body := RenderTomlMcpSection(s);
    BodyEntries(s);
    assert Block(body) == lines0 + [header] + body[1..];
    ScanSkillsSnoc(k, lines0, header);
    ScanSkillsAppend(k, lines0 + [header], body[1..]);
    HeaderForSkills(k, s.name);
    EntriesIdleForSkills(ScanSkills(k, lines0 + [header]), body[1..]);
  }

  // Whatever the servers, their blocks end the skill before them and hold no other.
  lemma {:induction false} ServerBlocksIdleForSkills(k: SkillScan, servers: seq<Server>)
    ensures ScanSkills(k, ServerBlocks(servers)).Flush() == k.Flush()
    decreases |servers|
  {
    hide Block, RenderTomlMcpSection, SkillScan.Flush;
    if servers != [] {
      var block := Block(RenderTomlMcpSection(servers[0]));
      ServerBlockIdleForSkills(k, servers[0]);
      ScanSkillsAppend(k, block, ServerBlocks(servers[1..]));
      ServerBlocksIdleForSkills(ScanSkills(k, block), servers[1..]);
    } else {
      ScanNone(NO_SERVERS, k);
    }
  }

  // ---------------------------------------------------------------- the managed part after any text

  // Reading any lines followed by the managed part: the skills,
  lemma ManagedSkillsReadBack(lines: seq<string>, servers: seq<Server>, skills: seq<Skill>)
    requires forall k <- skills :: GoodSkill(k)
    ensures SkillsOf(lines + Managed(servers, skills) + [""]) == SkillsOf(lines) + WithPath(skills)
  {
    hide GoodSkill, ServerBlocks, SkillBlocks, ServerLine, SkillLine, WithPath;
    var all := lines + Managed(servers, skills);
    var k0 := ScanSkills(NO_SKILLS, lines);
    ScanSkillsAppend(NO_SKILLS, lines, Managed(servers, skills));
    ScanSkillsAppend(k0, ServerBlocks(servers), SkillBlocks(skills));
    ServerBlocksIdleForSkills(k0, servers);
    SkillBlocksReadBack(NO_SERVERS, ScanSkills(k0, ServerBlocks(servers)), skills);
    ScanSkillsSnoc(NO_SKILLS, all, "");
    BlankIsIdle();
    IdleScans(NO_SERVERS, ScanSkills(NO_SKILLS, all), "");
    WithPathAppend(k0.Flush().entries, skills);
  }

  // and the servers.
  lemma ManagedReadsBack(lines: seq<string>, servers: seq<Server>, skills: seq<Skill>)
    requires (forall s <- servers :: GoodServer(s)) && (forall k <- skills :: GoodSkill(k))
    ensures ServersOf(lines + Managed(servers, skills) + [""]) == SetServers(ServersOf(lines), ReadBackAll(servers))
  {
    hide GoodServer, GoodSkill, ServerBlocks, SkillBlocks, ServerLine, SkillLine, SetServers, ReadBackAll;
    var all := lines + Managed(servers, skills);
    var s0 := ScanServers(NO_SERVERS, lines);
    ScanServersAppend(NO_SERVERS, lines, Managed(servers, skills));
    ScanServersAppend(s0, ServerBlocks(servers), SkillBlocks(skills));
    BlocksReadBack(s0, servers);
    SkillBlocksReadBack(ScanServers(s0, ServerBlocks(servers)), NO_SKILLS, skills);
    ScanServersSnoc(NO_SERVERS, all, "");
    BlankIsIdle();
    IdleScans(ScanServers(NO_SERVERS, all), NO_SKILLS, "");
  }

  // ---------------------------------------------------------------- which servers are there at all

  ghost predicate HasName(servers: seq<Server>, name: string) {
    exists s <- servers :: s.name == name
  }

  // A server of this name has been read or is being read.
  ghost predicate Names(scan: ServerScan, name: string) {
    HasName(scan.servers, name) || (scan.current.Some? && scan.current.value.name == name)
  }

  lemma {:induction false} SetServerNames(servers: seq<Server>, s: Server, name: string)
    ensures HasName(SetServer(servers, s), name) <==> HasName(servers, name) || s.name == name
  {
    if servers != [] {
      SetServerNames(servers[1..], s, name);
      assert servers == [servers[0]] + servers[1..];
    }
  }

  lemma FlushKeepsNames(scan: ServerScan, name: string)
    ensures Names(scan, name) <==> HasName(scan.Flush().servers, name)
  {
    if scan.current.Some? { SetServerNames(scan.servers, Finished(scan.current.value), name); }
  }

  // A line that is no section header changes no name.
  lemma EntryKeepsNames(scan: ServerScan, line: string, name: string)
    requires SectionName(line).None?
    ensures Names(ServerLine(scan, line), name) <==> Names(scan, name)
  {
    hide KeyValue, ParseTomlString, ParseTomlStringArray, ParseTomlInlineEnv, SectionName;
  }

  lemma {:induction false} EntriesKeepNames(scan: ServerScan, lines: seq<string>, name: string)
    requires forall line <- lines :: SectionName(line).None?
    ensures Names(ScanServers(scan, lines), name) <==> Names(scan, name)
  {
    hide ServerLine, SectionName;
    if lines != [] {
      var n := |lines| - 1;
      forall line | line in lines[..n] ensures line in lines {}
      EntriesKeepNames(scan, lines[..n], name);
      assert lines[n] in lines;
      EntryKeepsNames(ScanServers(scan, lines[..n]), lines[n], name);
    }
  }

  lemma HeaderNames(scan: ServerScan, header: string, name: string)
    ensures Names(ServerLine(scan, ServerHeader(header)), name) <==> Names(scan, name) || ReadAs(header) == Some(name)
  {
    hide ReadAs, SectionName, ServerLine, ServerHeader, ServerScan.Flush;
    HeaderOpens(scan, header);
    if SectionName(ServerHeader(header)).Some? {
      FlushKeepsNames(scan, name);
    } else {
      EntryKeepsNames(scan, ServerHeader(header), name);
    }
  }

  lemma BlockNames(scan: ServerScan, s: Server, name: string)
    ensures Names(ScanServers(scan, Block(RenderTomlMcpSection(s))), name) <==>
              Names(scan, name) || ReadAs(s.name) == Some(name)
  {
    hide ServerLine, ScanServers, RenderTomlMcpSection, IsServerEntry, SectionName, ArrayName, ServerHeader, ReadAs;
    hide Names;
    hide IsEntryLine;
    BlockStart(scan, NO_SKILLS);
    var lines0, header, body := ["", MARKER], ServerHeader(s.name), RenderTomlMcpSection(s);
    BodyEntries(s);
    assert Block(body) == lines0 + [header] + body[1..];
    ScanServersSnoc(scan, lines0, header);
    ScanServersAppend(scan, lines0 + [header], body[1..]);
    HeaderNames(scan, s.name, name);
    forall line | line in body[1..] ensures SectionName(line).None? { ServerEntryIsEntry(line); }
    EntriesKeepNames(ScanServers(scan, lines0 + [header]), body[1..], name);
  }

  ghost predicate SomeReadAs(servers: seq<Server>, name: string) {
    exists s <- servers :: ReadAs(s.name) == Some(name)
  }

  lemma {:induction false} ServerBlocksNames(scan: ServerScan, servers: seq<Server>, name: string)
    ensures Names(ScanServers(scan, ServerBlocks(servers)), name) <==> Names(scan, name) || SomeReadAs(servers, name)
    decreases |servers|
  {
    hide Block, RenderTomlMcpSection, ServerLine, ReadAs, Names;
    if servers != [] {
      var block := Block(RenderTomlMcpSection(servers[0]));
      BlockNames(scan, servers[0], name);
      ScanServersAppend(scan, block, ServerBlocks(servers[1..]));
      ServerBlocksNames(ScanServers(scan, block), servers[1..], name);
      assert servers == [servers[0]] + servers[1..];
    }
  }

  lemma PathIsNoSection(path: string)
    ensures SectionName("path = " + TomlString(path)).None?
  {
    hide TomlString, SectionName, ArrayName, IsSpace;
    var line := "path = " + TomlString(path);
    LetterIsNoSpace('p');
    assert line[0] == 'p';
    EntryIsNoHeader(line);
  }

  lemma SkillLinesNoSection(k: Skill)
    ensures forall line <- RenderTomlSkillBlock(k) :: SectionName(line).None?
  {
    hide TomlString, SectionName, ArrayName, IsSpace;
    SkillHeader();
    PathIsNoSection(k.path);
    LetterIsNoSpace('e');
    EntryIsNoHeader("enabled = false");
  }

  lemma SkillBlockNames(scan: ServerScan, k: Skill, name: string)
    ensures Names(ScanServers(scan, Block(RenderTomlSkillBlock(k))), name) <==> Names(scan, name)
  {
    hide ServerLine, SectionName, ScanServers, Names, RenderTomlSkillBlock;
    BlockStart(scan, NO_SKILLS);
    ScanServersAppend(scan, ["", MARKER], RenderTomlSkillBlock(k));
    SkillLinesNoSection(k);
    EntriesKeepNames(scan, RenderTomlSkillBlock(k), name);
  }

  lemma {:induction false} SkillBlocksNames(scan: ServerScan, skills: seq<Skill>, name: string)
    ensures Names(ScanServers(scan, SkillBlocks(skills)), name) <==> Names(scan, name)
    decreases |skills|
  {
    hide Block, RenderTomlSkillBlock, ServerLine, Names;
    if skills != [] {
      var block := Block(RenderTomlSkillBlock(skills[0]));
      SkillBlockNames(scan, skills[0], name);
      ScanServersAppend(scan, block, SkillBlocks(skills[1..]));
      SkillBlocksNames(ScanServers(scan, block), skills[1..], name);
    }
  }

  // Whatever is written after any lines, the servers read are those of the lines and those under whose names the
  // written headers are read.
  lemma ManagedNames(lines: seq<string>, servers: seq<Server>, skills: seq<Skill>, name: string)
    ensures HasName(ServersOf(lines + Managed(servers, skills) + [""]), name) <==>
              HasName(ServersOf(lines), name) || SomeReadAs(servers, name)
  {
    hide ServerBlocks, SkillBlocks, ServerLine, ReadAs, ServerScan.Flush, SomeReadAs, HasName, Names;
    var all := lines + Managed(servers, skills);
    var s0 := ScanServers(NO_SERVERS, lines);
    ScanServersAppend(NO_SERVERS, lines, Managed(servers, skills));
    ScanServersAppend(s0, ServerBlocks(servers), SkillBlocks(skills));
    ServerBlocksNames(s0, servers, name);
    SkillBlocksNames(ScanServers(s0, ServerBlocks(servers)), skills, name);
    ScanServersSnoc(NO_SERVERS, all, "");
    BlankIsIdle();
    IdleScans(ScanServers(NO_SERVERS, all), NO_SKILLS, "");
    FlushKeepsNames(s0, name);
    FlushKeepsNames(ScanServers(NO_SERVERS, all), name);
  }

  lemma {:induction false} WithPathAppend(a: seq<Skill>, b: seq<Skill>)
    ensures WithPath(a + b) == WithPath(a) + WithPath(b)
  {
    if a == [] {
      assert a + b == b;
    } else {
      assert (a + b)[1..] == a[1..] + b;
      WithPathAppend(a[1..], b);
    }
  }
}
