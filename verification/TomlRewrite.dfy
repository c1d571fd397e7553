// Rewriting the managed sections of a config: what is read back afterwards, and what survives of the other sections.

module TomlRewrite {
  import opened Options
  import opened Text
  import opened TomlLexer
  import opened TomlConfig
  import opened TomlValues
  import opened ServerNames
  import opened TomlRoundTrip

  ghost predicate GoodSets(servers: seq<Server>, skills: seq<Skill>) {
    (forall s <- servers :: GoodServer(s)) && (forall k <- skills :: GoodSkill(k))
  }

  // ---------------------------------------------------------------- lines that keep their meaning

  // No stray carriage return or other line terminator among the trailing spaces.
  predicate CleanLine(line: string) {
    OneLine(line[|TrimEnd(line)|..])
  }

  ghost predicate Clean(raw: string) {
    forall line <- Lines(raw) :: CleanLine(line)
  }

  predicate IsFree(line: string) {
    !IsManagedHeader(line) && !IsMarker(line)
  }

  lemma {:induction false} TrimStartPast(u: string, w: string)
    ensures TrimStart(u + w) == if TrimStart(u) != "" then TrimStart(u) + w else TrimStart(w)
  {
    if u == "" {
      assert u + w == w;
    } else if IsSpace(u[0]) {
      assert (u + w)[1..] == u[1..] + w;
      TrimStartPast(u[1..], w);
    }
  }

  lemma {:induction false} TrimStartSpaces(w: string)
    requires forall c <- w :: IsSpace(c)
    ensures TrimStart(w) == ""
  {
    if w != "" { TrimStartSpaces(w[1..]); }
  }

  lemma {:induction false} TrimEndDrops(s: string)
    ensures forall c <- s[|TrimEnd(s)|..] :: IsSpace(c)
  {
    if s != "" && IsSpace(s[|s| - 1]) {
      var n := |s| - 1;
      TrimEndDrops(s[..n]);
      assert s[|TrimEnd(s)|..] == s[..n][|TrimEnd(s)|..] + [s[n]];
    }
  }

  lemma {:induction false} IndexOfPast(s: string, c: char, w: string)
    requires IndexOf(s, c) < |s|
    ensures IndexOf(s + w, c) == IndexOf(s, c)
  {
    if s[0] != c {
      assert (s + w)[1..] == s[1..] + w;
      IndexOfPast(s[1..], c, w);
    }
  }

  ghost predicate AreSpaces(w: string) {
    (forall c <- w :: IsSpace(c)) && OneLine(w)
  }

  lemma TailPast(s: string, w: string)
    requires AreSpaces(w)
    ensures IsTail(s) ==> IsTail(s + w)
  {
    hide IsSpace, IsLineTerminator, TrimStart;
    TrimStartPast(s, w);
    TrimStartSpaces(w);
  }

  lemma SectionAt(line: string, t: string, k: nat)
    ensures TrimStart(line) == t && t != "" && t[0] == '[' && k == IndexOf(t[1..], ']')
            && 0 < k < |t| - 1 && IsTail(t[k + 2..]) ==>
              SectionName(line) == Some(Trim(t[1..k + 1]))
  {
    hide IsSpace, OneLine, TrimStart, IndexOf, IsTail, Trim;
  }

  lemma SectionShape(line: string)
    requires SectionName(line).Some?
    ensures var t := TrimStart(line);
      && t != "" && t[0] == '['
      && var k := IndexOf(t[1..], ']');
         0 < k < |t| - 1 && IsTail(t[k + 2..]) && SectionName(line) == Some(Trim(t[1..k + 1]))
  {
    hide IsSpace, OneLine, TrimStart, IndexOf, IsTail, Trim;
  }

  // Trailing spaces do not change what header a line is.
  lemma SectionPast(u: string, w: string)
    requires AreSpaces(w)
    ensures SectionName(u).Some? ==> SectionName(u + w) == SectionName(u)
  {
    hide IsSpace, OneLine, TrimStart, IndexOf, IsTail, Trim, SectionName, AreSpaces;
    if SectionName(u).Some? {
      SectionShape(u);
      TrimStartPast(u, w);
      var t := TrimStart(u);
      var k := IndexOf(t[1..], ']');
      IndexOfPast(t[1..], ']', w);
      TailPast(t[k + 2..], w);
      BracketsPast(t, w, k);
      SectionAt(u + w, t + w, k);
    }
  }

  lemma BracketsPast(t: string, w: string, k: nat)
    requires k + 2 <= |t|
    ensures (t + w)[1..] == t[1..] + w && (t + w)[1..k + 1] == t[1..k + 1] && (t + w)[k + 2..] == t[k + 2..] + w
  {}

  lemma ArrayShape(line: string)
    requires ArrayName(line).Some?
    ensures var t := TrimStart(line);
      && "[[" <= t
      && var k := IndexOf(t[2..], ']');
         0 < k && k + 3 < |t| && t[k + 3] == ']' && IsTail(t[k + 4..]) && ArrayName(line) == Some(Trim(t[2..k + 2]))
  {
    hide IsSpace, OneLine, TrimStart, IndexOf, IsTail, Trim;
  }

  lemma ArrayAt(line: string, t: string, k: nat)
    ensures TrimStart(line) == t && "[[" <= t && k == IndexOf(t[2..], ']')
            && 0 < k < |t| - 3 && t[k + 3] == ']' && IsTail(t[k + 4..]) ==>
              ArrayName(line) == Some(Trim(t[2..k + 2]))
  {
    hide IsSpace, OneLine, TrimStart, IndexOf, IsTail, Trim;
  }

  lemma DoubleBracketsPast(t: string, w: string, k: nat)
    requires "[[" <= t && k + 4 <= |t|
    ensures "[[" <= t + w && (t + w)[2..] == t[2..] + w && (t + w)[2..k + 2] == t[2..k + 2]
    ensures (t + w)[k + 4..] == t[k + 4..] + w
  {}

  lemma ArrayPast(u: string, w: string)
    requires AreSpaces(w)
    ensures ArrayName(u).Some? ==> ArrayName(u + w) == ArrayName(u)
  {
    hide IsSpace, OneLine, TrimStart, IndexOf, IsTail, Trim, ArrayName, AreSpaces;
    if ArrayName(u).Some? {
      ArrayShape(u);
      TrimStartPast(u, w);
      var t := TrimStart(u);
      var k := IndexOf(t[2..], ']');
      IndexOfPast(t[2..], ']', w);
      TailPast(t[k + 4..], w);
      DoubleBracketsPast(t, w, k);
      ArrayAt(u + w, t + w, k);
    }
  }

  lemma SecondBracket(t: string, k: nat)
    ensures "[[" <= t && k == IndexOf(t[2..], ']') && k + 3 < |t| ==>
              t[1..] == t[1..k + 2] + [']'] + t[k + 3..] && ']' !in t[1..k + 2]
  {
    hide IndexOf;
    if "[[" <= t && k == IndexOf(t[2..], ']') && k + 3 < |t| {
      assert t[1] == '[';
      forall j | 1 <= j < k + 2 ensures t[j] != ']' { if j >= 2 { assert t[2..][j - 2] != ']'; } }
    }
  }

  lemma BracketTail(s: string)
    requires s != "" && s[0] == ']'
    ensures !IsTail(s)
  {
    BracketIsNoSpace();
    TrimStartNone(s);
  }

  // A line is at most one kind of header.
  lemma ArrayIsNoSection(line: string)
    ensures ArrayName(line).Some? ==> SectionName(line).None?
  {
    hide IsLineTerminator, TrimStart, Trim, IndexOf, IsTail, IsSpace;
    if ArrayName(line).Some? {
      var t := TrimStart(line);
      var k := IndexOf(t[2..], ']');
      SecondBracket(t, k);
      IndexOfAt(t[1..k + 2], ']', t[k + 3..]);
      BracketTail(t[k + 3..]);
    }
  }

  lemma TrimmedHeader(line: string)
    requires CleanLine(line)
    ensures IsManagedHeader(TrimEnd(line)) ==> IsManagedHeader(line)
  {
    hide SectionName, ArrayName, IsSpace, IsLineTerminator, TrimStart, TrimEnd;
    var u := TrimEnd(line);
    var w := line[|u|..];
    TrimEndDrops(line);
    assert line == u + w;
    ArrayPast(u, w);
    SectionPast(u, w);
    ArrayIsNoSection(line);
  }

  lemma TrimmedStaysFree(line: string)
    requires CleanLine(line)
    ensures (IsFree(line) ==> IsFree(TrimEnd(line))) && CleanLine(TrimEnd(line))
  {
    hide IsManagedHeader, IsSpace, IsLineTerminator, Trim;
    TrimmedHeader(line);
    TrimOfTrimmed(line);
    TrimEndTwice(line);
  }

  lemma TrimEndTwice(line: string)
    ensures TrimEnd(TrimEnd(line)) == TrimEnd(line)
  {}

  // Trimming a line whose end is trimmed trims the line.
  lemma TrimOfTrimmed(line: string)
    ensures Trim(TrimEnd(line)) == Trim(line)
  {
    hide IsSpace;
    var u := TrimEnd(line);
    var w := line[|u|..];
    TrimEndDrops(line);
    assert line == u + w;
    TrimStartPast(u, w);
    TrimStartSpaces(w);
    if TrimStart(u) != "" {
      TrimEndSpaces(w);
      TrimEndBlank(TrimStart(u), w);
    }
  }

  lemma {:induction false} TrimEndSpaces(w: string)
    requires forall c <- w :: IsSpace(c)
    ensures TrimEnd(w) == ""
  {
    if w != "" { TrimEndSpaces(w[..|w| - 1]); }
  }

  lemma CleanHasNoCr(line: string)
    requires CleanLine(line)
    ensures StripCr(line) == line
  {
    hide TrimEnd;
    var u := TrimEnd(line);
    var w := line[|u|..];
    if w != "" {
      assert w[|w| - 1] == line[|line| - 1] && w[|w| - 1] in w;
    } else {
      assert u == line;
    }
  }

  // ---------------------------------------------------------------- free lines hold no server and no skill

  lemma FreeLine(line: string)
    requires !IsManagedHeader(line)
    ensures ServerLine(NO_SERVERS, line) == NO_SERVERS && SkillLine(NO_SKILLS, line) == NO_SKILLS
  {
    hide SectionName, ArrayName;
    ArrayIsNoSection(line);
  }

  lemma {:induction false} FreeLines(lines: seq<string>)
    requires forall line <- lines :: IsFree(line)
    ensures ScanServers(NO_SERVERS, lines) == NO_SERVERS && ScanSkills(NO_SKILLS, lines) == NO_SKILLS
    ensures ServersOf(lines) == [] && SkillsOf(lines) == []
  {
    hide ServerLine, SkillLine, IsManagedHeader, IsMarker;
    if lines != [] {
      var n := |lines| - 1;
      forall line | line in lines[..n] ensures line in lines {}
      FreeLines(lines[..n]);
      assert IsFree(lines[n]);
      FreeLine(lines[n]);
    }
  }

  // ---------------------------------------------------------------- which lines are kept

  lemma {:induction false} KeepAppend(k: Kept, a: seq<string>, b: seq<string>)
    ensures KeepLines(k, a + b) == KeepLines(KeepLines(k, a), b)
  {
    hide KeepLine;
    if b == [] {
      assert a + b == a;
    } else {
      assert (a + b)[..|a + b| - 1] == a + b[..|b| - 1];
      KeepAppend(k, a, b[..|b| - 1]);
    }
  }

  lemma {:induction false} KeptAreFree(lines: seq<string>)
    ensures forall line <- KeptOf(lines) :: line in lines && IsFree(line)
  {
    hide IsManagedHeader, IsMarker, IsHeader;
    if lines != [] {
      var n := |lines| - 1;
      KeptAreFree(lines[..n]);
      assert forall line <- lines[..n] :: line in lines;
      assert lines[n] in lines;
    }
  }

  lemma {:induction false} KeepFree(k: Kept, lines: seq<string>)
    requires !k.skipping && forall line <- lines :: IsFree(line)
    ensures KeepLines(k, lines) == Kept(k.lines + lines, false)
  {
    hide IsManagedHeader, IsMarker, IsHeader;
    if lines != [] {
      var n := |lines| - 1;
      forall line | line in lines[..n] ensures line in lines {}
      KeepFree(k, lines[..n]);
      assert IsFree(lines[n]);
      assert k.lines + lines == k.lines + lines[..n] + [lines[n]];
    } else {
      assert k.lines + lines == k.lines;
    }
  }

  // ---------------------------------------------------------------- the shape of a rendered section

  predicate IsSolid(line: string) {
    line != "" && !IsSpace(line[|line| - 1])
  }

  // A first line that is a managed header or none, then entries; no line ends in white space.
  predicate IsSection(body: seq<string>) {
    && body != [] && !IsMarker(body[0]) && (IsHeader(body[0]) ==> IsManagedHeader(body[0]))
    && (forall line <- body[1..] :: IsEntryLine(line))
    && (forall line <- body :: IsSolid(line))
  }

  lemma NoMarker(line: string)
    requires line != "" && !IsSpace(line[0]) && line[0] != '#'
    ensures !IsMarker(line)
  {
    hide IsSpace;
    assert TrimStart(line) == line;
    assert Trim(line) != "" ==> Trim(line)[0] == line[0];
  }

  lemma EndsSolid(a: string, c: char)
    requires c == '"' || c == ']' || c == '}' || 'a' <= c <= 'z'
    ensures IsSolid(a + [c])
  {
    assert (a + [c])[|a + [c]| - 1] == c;
  }

  lemma HeaderIsNoMarker(name: string)
    ensures !IsMarker(ServerHeader(name)) && IsSolid(ServerHeader(name)) && TrimEnd(ServerHeader(name)) != ""
  {
    hide IsSpace, TomlKey, IsMarker;
    var line := ServerHeader(name);
    EndsSolid("[mcp_servers." + TomlKey(name), ']');
    assert line == "[mcp_servers." + TomlKey(name) + [']'];
    BracketIsNoSpace();
    assert line[0] == '[';
    NoMarker(line);
  }

  // A written header is a managed header or none, whatever the name.
  lemma HeaderIsManaged(name: string)
    ensures IsHeader(ServerHeader(name)) <==> IsManagedHeader(ServerHeader(name))
    ensures IsHeader(ServerHeader(name)) <==> SectionName(ServerHeader(name)).Some?
  {
    hide SectionName, ArrayName, TrimEnd, IsTail, HeaderParts, ServerHeader;
    HeaderReads(name);
  }

  lemma HeaderIsSection(name: string)
    requires GoodName(name)
    ensures IsManagedHeader(ServerHeader(name)) && !IsMarker(ServerHeader(name))
  {
    hide IsHeader, IsManagedHeader, IsMarker, GoodName, ServerHeader, SectionName, IsSolid, TrimEnd;
    GoodIsHeader(name);
    HeaderIsManaged(name);
    HeaderIsNoMarker(name);
  }

  lemma ServerBodySolid(s: Server)
    ensures var body := RenderTomlMcpSection(s); forall line <- body[1..] :: IsSolid(line)
  {
    hide Escape, Commas, Quoted, Assignments, IsSpace, IsSolid, TomlKey;
    var d := s.definition;
    QuotedSolid("url = ", OrEmpty(d.url));
    QuotedSolid("command = ", OrEmpty(d.command));
    if d.args.Some? {
      var line := "args = [" + Commas(Quoted(d.args.value));
      EndsSolid(line, ']');
      assert line + [']'] == ArgsLine(d.args.value);
    }
    if d.env.Some? {
      var line := "env = { " + Commas(Assignments(d.env.value)) + " ";
      EndsSolid(line, '}');
      assert line + ['}'] == EnvLine(d.env.value);
    }
  }

  lemma QuotedSolid(key: string, v: string)
    ensures IsSolid(key + TomlString(v))
  {
    hide Escape, IsSpace;
    EndsSolid(key + "\"" + Escape(v), '"');
    assert key + TomlString(v) == key + "\"" + Escape(v) + ['"'];
  }

  lemma ServerSection(s: Server)
    ensures IsSection(RenderTomlMcpSection(s)) && RenderTomlMcpSection(s)[0] == ServerHeader(s.name)
  {
    hide RenderTomlMcpSection, IsSolid, IsEntryLine, IsManagedHeader, IsHeader, IsMarker, ServerHeader, IsServerEntry;
    BodyEntries(s);
    var body := RenderTomlMcpSection(s);
    forall line | line in body[1..] ensures IsEntryLine(line) { ServerEntryIsEntry(line); }
    HeaderIsNoMarker(s.name);
    HeaderIsManaged(s.name);
    ServerBodySolid(s);
  }

  lemma SkillSection(k: Skill)
    ensures IsSection(RenderTomlSkillBlock(k)) && IsManagedHeader(RenderTomlSkillBlock(k)[0])
  {
    hide IsSpace, IsLineTerminator, TomlString, SectionName, ArrayName, IsMarker;
    SkillHeader();
    BracketIsNoSpace();
    LetterIsNoSpace('p');
    LetterIsNoSpace('e');
    NoMarker("[[skills.config]]");
    QuotedSolid("path = ", k.path);
    EndsSolid("enabled = fals", 'e');
    assert "enabled = fals" + ['e'] == "enabled = false";
    EndsSolid("[[skills.config]", ']');
    assert "[[skills.config]" + [']'] == "[[skills.config]]";
  }

  // ---------------------------------------------------------------- rewriting what was rewritten

  lemma EntrySkipped(k: Kept, line: string)
    requires k.skipping && IsEntryLine(line)
    ensures KeepLine(k, line) == k
  {
    hide IsSpace, SectionName, ArrayName;
    NoMarker(line);
    EntryIsNoHeader(line);
  }

  lemma {:induction false} EntriesSkipped(k: Kept, lines: seq<string>)
    requires k.skipping && forall line <- lines :: IsEntryLine(line)
    ensures KeepLines(k, lines) == k
  {
    hide KeepLine, IsEntryLine;
    if lines != [] {
      var n := |lines| - 1;
      forall line | line in lines[..n] ensures line in lines {}
      EntriesSkipped(k, lines[..n]);
      assert lines[n] in lines;
      EntrySkipped(k, lines[n]);
    }
  }

  // A blank line is kept unless it lies in a managed section; the marker never is.
  function Opened(k: Kept): Kept {
    Kept(if k.skipping then k.lines else k.lines + [""], true)
  }

  lemma BlankKept(k: Kept)
    ensures KeepLine(k, "") == if k.skipping then k else Kept(k.lines + [""], false)
  {
    assert Trim("") == "";
    IdleNoHeader("");
  }

  lemma MarkerDropped(k: Kept)
    ensures KeepLine(k, MARKER) == k
  {
    assert !IsSpace(MARKER[0]) && !IsSpace(MARKER[|MARKER| - 1]);
    TrimNone(MARKER);
  }

  lemma KeepSnoc(k: Kept, lines: seq<string>, line: string)
    ensures KeepLines(k, lines + [line]) == KeepLine(KeepLines(k, lines), line)
  {
    hide KeepLine;
    assert (lines + [line])[..|lines|] == lines;
  }

  lemma BlockSkipped(k: Kept, body: seq<string>)
    requires IsSection(body) && (k.skipping || IsManagedHeader(body[0]))
    ensures KeepLines(k, Block(body)) == Opened(k)
  {
    hide KeepLine, KeepLines, IsManagedHeader, IsMarker, IsHeader, IsEntryLine, IsSolid;
    var k1 := KeepLine(k, "");
    KeepSnoc(k, [], "");
    KeepNone(k);
    KeepSnoc(k, [""], MARKER);
    KeepSnoc(k, ["", MARKER], body[0]);
    assert [] + [""] == [""] && [""] + [MARKER] == ["", MARKER];
    assert Block(body) == ["", MARKER] + [body[0]] + body[1..];
    KeepAppend(k, ["", MARKER] + [body[0]], body[1..]);
    BlankKept(k);
    MarkerDropped(k1);
    ManagedOpens(k1, body[0]);
    HeaderSkipped(k1, body[0]);
    EntriesSkipped(Opened(k), body[1..]);
  }

  lemma KeepNone(k: Kept)
    ensures KeepLines(k, []) == k
  {}

  lemma ManagedOpens(k: Kept, line: string)
    ensures IsManagedHeader(line) && !IsMarker(line) ==> KeepLine(k, line) == Kept(k.lines, true)
  {}

  lemma HeaderSkipped(k: Kept, line: string)
    ensures k.skipping && !IsMarker(line) && (IsHeader(line) ==> IsManagedHeader(line)) ==> KeepLine(k, line) == k
  {}

  // The first written server has a header line that is read as one.
  predicate Headed(servers: seq<Server>) {
    servers != [] ==> IsHeader(ServerHeader(servers[0].name))
  }

  lemma {:induction false} ServerBlocksSkipped(k: Kept, servers: seq<Server>)
    requires k.skipping || Headed(servers)
    ensures KeepLines(k, ServerBlocks(servers)) == if servers == [] then k else Opened(k)
    decreases |servers|
  {
    hide Block, RenderTomlMcpSection, KeepLine, IsSection, IsHeader, IsManagedHeader, ServerHeader;
    if servers != [] {
      var block := Block(RenderTomlMcpSection(servers[0]));
      ServerSection(servers[0]);
      HeaderIsManaged(servers[0].name);
      BlockSkipped(k, RenderTomlMcpSection(servers[0]));
      KeepAppend(k, block, ServerBlocks(servers[1..]));
      ServerBlocksSkipped(Opened(k), servers[1..]);
    }
  }

  lemma {:induction false} SkillBlocksSkipped(k: Kept, skills: seq<Skill>)
    ensures KeepLines(k, SkillBlocks(skills)) == if skills == [] then k else Opened(k)
    decreases |skills|
  {
    hide Block, RenderTomlSkillBlock, KeepLine, IsSection, IsManagedHeader;
    if skills != [] {
      var block := Block(RenderTomlSkillBlock(skills[0]));
      SkillSection(skills[0]);
      BlockSkipped(k, RenderTomlSkillBlock(skills[0]));
      KeepAppend(k, block, SkillBlocks(skills[1..]));
      SkillBlocksSkipped(Opened(k), skills[1..]);
    }
  }

  lemma ManagedSkipped(k: Kept, servers: seq<Server>, skills: seq<Skill>)
    requires k.skipping || Headed(servers)
    ensures KeepLines(k, Managed(servers, skills)) == if servers == [] && skills == [] then k else Opened(k)
  {
    hide KeepLines, ServerBlocks, SkillBlocks, Headed;
    KeepAppend(k, ServerBlocks(servers), SkillBlocks(skills));
    ServerBlocksSkipped(k, servers);
    SkillBlocksSkipped(KeepLines(k, ServerBlocks(servers)), skills);
  }
}
