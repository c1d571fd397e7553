// Servers that a rewrite writes and the next reading does not find, or finds changed.

module LostNames {
  import opened Options
  import opened Text
  import opened TomlLexer
  import opened TomlConfig
  import opened TomlValues
  import opened ServerNames
  import opened TomlRoundTrip
  import opened TomlRewrite
  import opened ManagedToml

  function Stdio(command: string): Definition {
    Definition(false, Some(command), None, None, None)
  }

  // ---------------------------------------------------------------- a dot

  // A name with a dot is lost, wherever it is written.
  lemma DottedNameLost(raw: string, servers: seq<Server>, skills: seq<Skill>, name: string)
    requires Clean(raw) && Unbroken(servers, skills) && '.' in name
    ensures !HasName(ServersOf(Lines(Rewrite(raw, servers, skills))), name)
  {
    hide Clean, Unbroken, ServersOf, Rewrite, Lines, ReadAs, IsFree, CleanLine, Left, Outside;
    PresentAfterRewrite(raw, servers, skills, name);
    CleanLeft(raw, servers, skills);
    FreeLines(Left(Outside(raw), servers, skills));
    forall s | s in servers ensures ReadAs(s.name) != Some(name) { ReadNames(s.name); }
  }

  // ---------------------------------------------------------------- a closing bracket

  lemma {:induction false} EscapeAppend(a: string, b: string)
    ensures Escape(a + b) == Escape(a) + Escape(b)
  {
    hide Escape;
    if a == "" {
      assert a + b == b;
      EmptyEscape();
      assert "" + Escape(b) == Escape(b);
    } else {
      EscapeCons(a);
      EscapeCons(a + b);
      assert (a + b)[1..] == a[1..] + b;
      EscapeAppend(a[1..], b);
    }
  }

  lemma BracketKey(front: string)
    ensures TomlKey(front + "]") == "\"" + Escape(front) + "]\""
  {
    hide Escape;
    var name := front + "]";
    assert name[|front|] in name && name[|front|] == ']';
    EscapeAppend(front, "]");
    PlainEscape("]");
  }

  // A header whose name ends in its first closing bracket is no header.
  lemma BracketIsNoHeader(front: string)
    requires ']' !in front
    ensures SectionName(ServerHeader(front + "]")).None? && ArrayName(ServerHeader(front + "]")).None?
  {
    hide Escape, TomlKey, SectionName, ArrayName, ServerHeader, TrimEnd, IsTail, StripQuotes;
    BracketKey(front);
    EscapeMembers(front, ']');
    var inner := "\"" + Escape(front);
    var key := TomlKey(front + "]");
    assert key == inner + [']'] + "\"";
    IndexOfAt(inner, ']', "\"");
    assert key[|inner| + 1..] == "\"";
    QuoteIsNoTail();
    HeaderReads(front + "]");
  }

  lemma QuoteIsNoTail()
    ensures !IsTail("\"" + "]")
  {
    QuoteIsNoSpace();
    TrimStartNone("\"" + "]");
  }

  // Such a header, read inside a section, is an entry that says nothing.
  lemma BracketHeaderIdle(s: ServerScan, front: string)
    requires ']' !in front
    ensures ServerLine(s, ServerHeader(front + "]")) == s
  {
    hide SectionName, ArrayName, KeyValue, TomlKey, IsSpace;
    var line := ServerHeader(front + "]");
    BracketIsNoHeader(front);
    BracketIsNoSpace();
    assert line[0] == '[';
    OtherKey(line, "command");
    OtherKey(line, "url");
    OtherKey(line, "args");
    OtherKey(line, "env");
  }

  function CommandOf(command: string): string {
    "command = " + TomlString(command)
  }

  lemma StdioBlock(name: string, command: string)
    ensures Block(RenderTomlMcpSection(Server(name, Stdio(command))))
         == ["", MARKER] + [ServerHeader(name)] + [CommandOf(command)]
  {
    hide TomlKey, TomlString;
  }

  // A block under a header that is none changes the command of the server before it.
  lemma BlockOverwrites(s: ServerScan, front: string, command: string)
    requires s.current.Some? && ']' !in front && OneLine(command)
    ensures ScanServers(s, Block(RenderTomlMcpSection(Server(front + "]", Stdio(command)))))
            == s.(current := Some(s.current.value.(command := Some(command))))
  {
    hide ServerLine, ScanServers, OneLine, RenderTomlMcpSection, Block, ServerHeader, CommandOf;
    var lines := ["", MARKER] + [ServerHeader(front + "]")];
    StdioBlock(front + "]", command);
    BlockStart(s, NO_SKILLS);
    ScanServersSnoc(s, ["", MARKER], ServerHeader(front + "]"));
    BracketHeaderIdle(s, front);
    ScanServersSnoc(s, lines, CommandOf(command));
    CommandEntry(s, command);
  }

  lemma CommandEntry(s: ServerScan, command: string)
    requires s.current.Some? && OneLine(command)
    ensures ServerLine(s, CommandOf(command)) == s.(current := Some(s.current.value.(command := Some(command))))
  {
    hide ServerLine;
    CommandLine(s, command);
  }

  lemma BlockOpens(name: string, command: string)
    requires GoodName(name) && OneLine(command)
    ensures ScanServers(NO_SERVERS, Block(RenderTomlMcpSection(Server(name, Stdio(command)))))
            == ServerScan([], Some(Draft(name, Some(command), [], None, [])))
  {
    hide ServerLine, ScanServers, GoodName, OneLine, RenderTomlMcpSection, Block, ServerHeader, CommandOf;
    var lines := ["", MARKER] + [ServerHeader(name)];
    StdioBlock(name, command);
    BlockStart(NO_SERVERS, NO_SKILLS);
    ScanServersSnoc(NO_SERVERS, ["", MARKER], ServerHeader(name));
    HeaderStartsServer(NO_SERVERS, name);
    ScanServersSnoc(NO_SERVERS, lines, CommandOf(command));
    CommandEntry(ScanServers(NO_SERVERS, lines), command);
  }

  lemma BlockAlone(s: Server)
    ensures ServerBlocks([s]) == Block(RenderTomlMcpSection(s)) && Managed([s], []) == ServerBlocks([s])
  {
    hide Block, RenderTomlMcpSection;
    NoBlocks();
    assert [s][1..] == [];
    assert Block(RenderTomlMcpSection(s)) + [] == Block(RenderTomlMcpSection(s));
  }

  lemma TwoBlocks(a: Server, b: Server)
    ensures Managed([a, b], []) == Block(RenderTomlMcpSection(a)) + Block(RenderTomlMcpSection(b))
  {
    hide Block, RenderTomlMcpSection, SkillBlocks;
    NoBlocks();
    BlockAlone(b);
    assert [a, b][1..] == [b];
    var both := Block(RenderTomlMcpSection(a)) + Block(RenderTomlMcpSection(b));
    assert both + [] == both;
  }

  // The server with the bracket is lost and its command becomes that of the server before it.
  lemma BracketOverwrites(name: string, command: string, front: string, other: string)
    requires GoodName(name) && NoNewline(front) && ']' !in front && OneLine(command) && OneLine(other)
    ensures var servers := [Server(name, Stdio(command)), Server(front + "]", Stdio(other))];
      ServersOf(Lines(Rewrite("", servers, []))) == [Server(name, Stdio(other))]
  {
    hide GoodName, NoNewline, OneLine, ServersOf, Lines, Rewrite, Block, RenderTomlMcpSection, ScanServers, Outside;
    var servers := [Server(name, Stdio(command)), Server(front + "]", Stdio(other))];
    BothUnbroken(name, command, front, other);
    RewrittenLines("", servers, []);
    NothingOutside(servers);
    var first, second := Block(RenderTomlMcpSection(servers[0])), Block(RenderTomlMcpSection(servers[1]));
    TwoBlocks(servers[0], servers[1]);
    BlockOpens(name, command);
    BlockOverwrites(ScanServers(NO_SERVERS, first), front, other);
    ScanServersAppend(NO_SERVERS, first, second);
    BlanksAround(Managed(servers, []), Draft(name, Some(other), [], None, []));
  }

  lemma BothUnbroken(name: string, command: string, front: string, other: string)
    requires GoodName(name) && NoNewline(front) && OneLine(command) && OneLine(other)
    ensures Unbroken([Server(name, Stdio(command)), Server(front + "]", Stdio(other))], [])
  {}

  lemma NothingOutside(servers: seq<Server>)
    requires servers != []
    ensures Left(Outside(""), servers, []) == [""]
  {
    hide IsMarker, IsManagedHeader, IsHeader, StripCr;
    LinesOfBlank();
    BlankKept(Kept([], false));
    KeepSnoc(Kept([], false), [], "");
    KeepNone(Kept([], false));
    assert [] + [""] == [""];
    StripTwo("", "");
    assert StripCrs([""]) == [""];
  }

  // Blank lines before and after a last section.
  lemma BlanksAround(lines: seq<string>, draft: Draft)
    requires ScanServers(NO_SERVERS, lines) == ServerScan([], Some(draft))
    ensures ServersOf([""] + lines + [""]) == [Finished(draft)]
  {
    hide ServerLine, ScanServers, ServersOf, Finished;
    BlankIsIdle();
    ScanServersOne(NO_SERVERS, "");
    IdleScans(NO_SERVERS, NO_SKILLS, "");
    ScanServersAppend(NO_SERVERS, [""], lines);
    ScanServersSnoc(NO_SERVERS, [""] + lines, "");
    IdleScans(ServerScan([], Some(draft)), NO_SKILLS, "");
    DraftFlushes([""] + lines + [""], draft);
  }

  // ---------------------------------------------------------------- a line break

  // A line break inside a name splits its header into two lines that are none.
  lemma {:induction false} JoinSplits(before: seq<string>, a: string, b: string, after: seq<string>)
    ensures Join(before + [a + "\n" + b] + after) == Join(before + [a, b] + after)
  {
    hide Join;
    if before == [] {
      assert before + [a + "\n" + b] + after == [a + "\n" + b] + after && before + [a, b] + after == [a, b] + after;
      JoinSplitsFirst(a, b, after);
    } else {
      JoinSplits(before[1..], a, b, after);
      JoinHead(before[0], before[1..] + [a + "\n" + b] + after);
      JoinHead(before[0], before[1..] + [a, b] + after);
      assert before + [a + "\n" + b] + after == [before[0]] + (before[1..] + [a + "\n" + b] + after);
      assert before + [a, b] + after == [before[0]] + (before[1..] + [a, b] + after);
    }
  }

  lemma JoinHead(line: string, lines: seq<string>)
    requires lines != []
    ensures Join([line] + lines) == line + "\n" + Join(lines)
  {
    assert ([line] + lines)[1..] == lines;
  }

  lemma JoinSplitsFirst(a: string, b: string, after: seq<string>)
    ensures Join([a + "\n" + b] + after) == Join([a, b] + after)
  {
    hide Join;
    assert [a, b] + after == [a] + ([b] + after);
    JoinHead(a, [b] + after);
    if after == [] {
      assert [a + "\n" + b] + after == [a + "\n" + b] && [b] + after == [b];
      JoinOne([a + "\n" + b]);
      JoinOne([b]);
    } else {
      JoinHead(a + "\n" + b, after);
      JoinHead(b, after);
    }
  }

  // No server comes of lines without section headers.
  lemma NoSectionNoServer(lines: seq<string>, name: string)
    requires forall line <- lines :: SectionName(line).None?
    ensures !HasName(ServersOf(lines), name)
  {
    hide SectionName, ServerLine;
    EntriesKeepNames(NO_SERVERS, lines, name);
    FlushKeepsNames(ScanServers(NO_SERVERS, lines), name);
  }

  lemma BrokenHeader()
    ensures ServerHeader("a\nb") == "[mcp_servers.\"a" + "\n" + "b\"]"
    ensures SectionName("[mcp_servers.\"a").None? && SectionName("b\"]").None?
  {
    hide IsSpace, SectionName, ArrayName, TrimStart, IsTail;
    var name := "a\nb";
    assert name[1] in name && name[1] == '\n' && !IsWordChar('\n');
    PlainEscape(name);
    LetterIsNoSpace('b');
    EntryIsNoHeader("b\"]");
    BracketIsNoSpace();
    OpenBracket("[mcp_servers.\"a");
  }

  lemma OpenBracket(line: string)
    requires line != "" && line[0] == '[' && ']' !in line
    ensures SectionName(line).None?
  {
    hide IsTail, IsSpace, IndexOf, Trim, TrimStart;
    BracketIsNoSpace();
    TrimStartNone(line);
    NotInTail(line);
  }

  lemma NotInTail(line: string)
    requires line != "" && ']' !in line
    ensures IndexOf(line[1..], ']') == |line| - 1
  {
    hide IndexOf;
    forall c | c in line[1..] ensures c in line {}
  }

  lemma BrokenNameLost()
    ensures ServersOf(Lines(Rewrite("", [Server("a\nb", Stdio(""))], []))) == []
  {
    hide Lines, Rewrite, ServersOf, SectionName, ArrayName, ServerHeader, Join, Outside, CommandOf, StripCr;
    var servers := [Server("a\nb", Stdio(""))];
    var first, second := "[mcp_servers.\"a", "b\"]";
    var lines := ["", MARKER] + [first, second] + [CommandOf("")];
    BrokenHeader();
    BlockAlone(servers[0]);
    StdioBlock("a\nb", "");
    RewrittenText("", servers, []);
    NothingOutside(servers);
    JoinSplits(["", MARKER], first, second, [CommandOf("")]);
    BrokenLines();
    LinesOfText(lines);
    WholeStripped(lines);
    assert WrittenLines(servers, []) == lines;
    forall line | line in [""] + lines + [""] ensures SectionName(line).None? { BrokenLineIsNone(line); }
    assert [""] + lines + [""] == Lines(Rewrite("", servers, []));
    forall name ensures !HasName(ServersOf([""] + lines + [""]), name) { NoSectionNoServer([""] + lines + [""], name); }
    NoNames(ServersOf([""] + lines + [""]));
  }

  lemma NoNames(servers: seq<Server>)
    requires forall name :: !HasName(servers, name)
    ensures servers == []
  {
    if servers != [] { assert HasName(servers, servers[0].name); }
  }

  lemma BrokenLines()
    ensures forall line <- ["", MARKER] + ["[mcp_servers.\"a", "b\"]"] + [CommandOf("")] :: IsWhole(line)
  {
    hide IsWhole, IsSpace;
    FixedLinesWhole();
    EmptyEscape();
    LetterIsNoSpace('a');
    SolidIsWhole("[mcp_servers.\"a");
    EndsSolid("b\"", ']');
    assert "b\"" + [']'] == "b\"]";
    SolidIsWhole("b\"]");
    QuotedSolid("command = ", "");
    assert CommandOf("") == "command = \"\"";
    SolidIsWhole(CommandOf(""));
  }

  lemma BrokenLineIsNone(line: string)
    requires line in [""] + (["", MARKER] + ["[mcp_servers.\"a", "b\"]"] + [CommandOf("")]) + [""]
    ensures SectionName(line).None?
  {
    hide SectionName, ArrayName, IsSpace, CommandOf, IsIdle;
    BrokenHeader();
    IdleBlockLines();
    CommandIsNoSection("");
    if line == "" || line == MARKER { IdleNoHeader(line); }
  }

  lemma CommandIsNoSection(command: string)
    ensures SectionName(CommandOf(command)).None?
  {
    hide SectionName, ArrayName, IsSpace, TomlString;
    LetterIsNoSpace('c');
    assert CommandOf(command)[0] == 'c';
    EntryIsNoHeader(CommandOf(command));
  }
}
