// What a config holds after its managed sections were rewritten, once or many times.

module ManagedToml {
  import opened Options
  import opened Text
  import opened TomlLexer
  import opened TomlConfig
  import opened TomlValues
  import opened ServerNames
  import opened TomlRoundTrip
  import opened TomlRewrite

  // ---------------------------------------------------------------- the managed lines

  ghost predicate SolidEnd(lines: seq<string>) {
    lines != [] ==> IsSolid(lines[|lines| - 1])
  }

  lemma BlockEnd(body: seq<string>)
    requires IsSection(body)
    ensures Block(body) != [] && SolidEnd(Block(body))
  {
    hide IsSolid, IsManagedHeader, IsMarker, IsHeader, IsEntryLine;
    assert body[|body| - 1] in body;
  }

  lemma JoinEnds(a: seq<string>, b: seq<string>)
    requires SolidEnd(a) && SolidEnd(b)
    ensures SolidEnd(a + b)
  {
    hide IsSolid;
    if b == [] { assert a + b == a; }
  }

  lemma {:induction false} ServerBlocksEnd(servers: seq<Server>)
    ensures SolidEnd(ServerBlocks(servers)) && (ServerBlocks(servers) == [] <==> servers == [])
  {
    hide IsSolid, Block, RenderTomlMcpSection, IsSection;
    if servers != [] {
      ServerSection(servers[0]);
      BlockEnd(RenderTomlMcpSection(servers[0]));
      ServerBlocksEnd(servers[1..]);
      JoinEnds(Block(RenderTomlMcpSection(servers[0])), ServerBlocks(servers[1..]));
    }
  }

  lemma {:induction false} SkillBlocksEnd(skills: seq<Skill>)
    ensures SolidEnd(SkillBlocks(skills)) && (SkillBlocks(skills) == [] <==> skills == [])
  {
    hide IsSolid, Block, RenderTomlSkillBlock, IsSection;
    if skills != [] {
      SkillSection(skills[0]);
      BlockEnd(RenderTomlSkillBlock(skills[0]));
      SkillBlocksEnd(skills[1..]);
      JoinEnds(Block(RenderTomlSkillBlock(skills[0])), SkillBlocks(skills[1..]));
    }
  }

  // Whatever is written, its last line does not end in white space.
  lemma ManagedEnd(servers: seq<Server>, skills: seq<Skill>)
    ensures SolidEnd(Managed(servers, skills))
    ensures Managed(servers, skills) == [] <==> servers == [] && skills == []
  {
    hide SolidEnd;
    ServerBlocksEnd(servers);
    SkillBlocksEnd(skills);
    JoinEnds(ServerBlocks(servers), SkillBlocks(skills));
  }

  // ---------------------------------------------------------------- sets without line breaks

  ghost predicate UnbrokenServer(s: Server) {
    var d := s.definition;
    && NoNewline(s.name) && NoNewline(OrEmpty(d.command)) && NoNewline(OrEmpty(d.url))
    && (d.args.Some? ==> forall a <- d.args.value :: NoNewline(a))
    && (d.env.Some? ==> forall p <- d.env.value :: NoNewline(p.key) && NoNewline(p.value))
  }

  ghost predicate Unbroken(servers: seq<Server>, skills: seq<Skill>) {
    (forall s <- servers :: UnbrokenServer(s)) && (forall k <- skills :: NoNewline(k.path))
  }

  // No line breaks, and a first server whose header is read as one.
  ghost predicate Writable(servers: seq<Server>, skills: seq<Skill>) {
    Unbroken(servers, skills) && Headed(servers)
  }

  lemma GoodServerFits(s: Server)
    requires GoodServer(s)
    ensures UnbrokenServer(s) && IsHeader(ServerHeader(s.name))
  {
    hide ReadAs, ServerHeader, SectionName, ArrayName, GoodName;
    GoodIsHeader(s.name);
    assert NoNewline(s.name) by { GoodNameFits(s.name); }
    var d := s.definition;
    if d.env.Some? {
      forall p | p in d.env.value ensures NoNewline(p.key) && NoNewline(p.value) {
        assert GoodPair(p);
        WordKeyOneLine(p.key);
      }
    }
  }

  lemma GoodNameFits(name: string)
    requires GoodName(name)
    ensures NoNewline(name)
  {}

  lemma GoodSetsFit(servers: seq<Server>, skills: seq<Skill>)
    requires GoodSets(servers, skills)
    ensures Writable(servers, skills)
  {
    hide GoodServer, UnbrokenServer, IsHeader, ServerHeader;
    forall s | s in servers ensures UnbrokenServer(s) && IsHeader(ServerHeader(s.name)) { GoodServerFits(s); }
  }

  lemma KeyNoNewline(v: string)
    requires NoNewline(v)
    ensures NoNewline(TomlString(v)) && NoNewline(TomlKey(v))
  {
    hide Escape;
    EscapeMembers(v, '\n');
  }

  lemma NoNewlineAppend(a: string, b: string)
    requires NoNewline(a) && NoNewline(b)
    ensures NoNewline(a + b)
  {}

  lemma {:induction false} CommasNoNewline(items: seq<string>)
    requires forall item <- items :: NoNewline(item)
    ensures NoNewline(Commas(items))
  {
    if |items| > 1 {
      CommasNoNewline(items[1..]);
      NoNewlineAppend(", ", Commas(items[1..]));
      NoNewlineAppend(items[0], ", " + Commas(items[1..]));
      assert Commas(items) == items[0] + (", " + Commas(items[1..]));
    }
  }

  lemma {:induction false} QuotedNoNewline(args: seq<string>)
    requires forall a <- args :: NoNewline(a)
    ensures forall item <- Quoted(args) :: NoNewline(item)
  {
    hide TomlString;
    if args != [] {
      KeyNoNewline(args[0]);
      QuotedNoNewline(args[1..]);
    }
  }

  lemma {:induction false} AssignmentsNoNewline(env: seq<Pair>)
    requires forall p <- env :: NoNewline(p.key) && NoNewline(p.value)
    ensures forall item <- Assignments(env) :: NoNewline(item)
  {
    hide TomlString, TomlKey;
    if env != [] {
      assert env[0] in env;
      KeyNoNewline(env[0].key);
      KeyNoNewline(env[0].value);
      AssignmentsNoNewline(env[1..]);
    }
  }

  lemma ServerBodyUnbroken(s: Server)
    requires UnbrokenServer(s)
    ensures forall line <- RenderTomlMcpSection(s) :: NoNewline(line)
  {
    hide TomlString, TomlKey, Commas, Quoted, Assignments;
    var d := s.definition;
    KeyNoNewline(s.name);
    KeyNoNewline(OrEmpty(d.url));
    KeyNoNewline(OrEmpty(d.command));
    if d.args.Some? {
      QuotedNoNewline(d.args.value);
      CommasNoNewline(Quoted(d.args.value));
    }
    if d.env.Some? {
      AssignmentsNoNewline(d.env.value);
      CommasNoNewline(Assignments(d.env.value));
    }
  }

  // A line that is split off as it is.
  predicate IsWhole(line: string) {
    NoNewline(line) && StripCr(line) == line && CleanLine(line)
  }

  lemma SolidIsWhole(line: string)
    requires IsSolid(line) && NoNewline(line)
    ensures IsWhole(line)
  {}

  lemma BlockWhole(body: seq<string>)
    requires IsSection(body) && forall line <- body :: NoNewline(line)
    ensures forall line <- Block(body) :: IsWhole(line)
  {
    hide IsSolid, IsManagedHeader, IsMarker, IsHeader, IsEntryLine, IsWhole;
    forall line | line in body ensures IsWhole(line) { SolidIsWhole(line); }
    FixedLinesWhole();
  }

  lemma FixedLinesWhole()
    ensures IsWhole("") && IsWhole(MARKER)
  {
    assert !IsSpace(MARKER[|MARKER| - 1]);
    SolidIsWhole(MARKER);
  }

  lemma {:induction false} ServerBlocksWhole(servers: seq<Server>)
    requires forall s <- servers :: UnbrokenServer(s)
    ensures forall line <- ServerBlocks(servers) :: IsWhole(line)
  {
    hide IsWhole, Block, RenderTomlMcpSection, IsSection, UnbrokenServer;
    if servers != [] {
      ServerSection(servers[0]);
      ServerBodyUnbroken(servers[0]);
      BlockWhole(RenderTomlMcpSection(servers[0]));
      ServerBlocksWhole(servers[1..]);
    }
  }

  lemma SkillBodyUnbroken(k: Skill)
    requires NoNewline(k.path)
    ensures forall line <- RenderTomlSkillBlock(k) :: NoNewline(line)
  {
    hide TomlString;
    KeyNoNewline(k.path);
  }

  lemma {:induction false} SkillBlocksWhole(skills: seq<Skill>)
    requires forall k <- skills :: NoNewline(k.path)
    ensures forall line <- SkillBlocks(skills) :: IsWhole(line)
  {
    hide IsWhole, Block, RenderTomlSkillBlock, IsSection, NoNewline;
    if skills != [] {
      assert skills[0] in skills;
      SkillSection(skills[0]);
      SkillBodyUnbroken(skills[0]);
      BlockWhole(RenderTomlSkillBlock(skills[0]));
      SkillBlocksWhole(skills[1..]);
    }
  }

  lemma ManagedWhole(servers: seq<Server>, skills: seq<Skill>)
    requires Unbroken(servers, skills)
    ensures forall line <- Managed(servers, skills) :: IsWhole(line)
  {
    hide IsWhole, UnbrokenServer, NoNewline;
    ServerBlocksWhole(servers);
    SkillBlocksWhole(skills);
  }

  // ---------------------------------------------------------------- the lines of a rewritten config

  // The lines outside managed sections, closed by a blank one.
  function Outside(raw: string): seq<string> {
    Closed(KeptOf(Lines(raw)))
  }

  // How a rewrite leaves them: each without one carriage return at its end, and when nothing is written, only up to the
  // last one that is not blank.
  function Left(outside: seq<string>, servers: seq<Server>, skills: seq<Skill>): seq<string> {
    if servers != [] || skills != [] then StripCrs(outside)
    else if TrimLines(outside) == [] then [""]
    else StripCrs(TrimLines(outside))
  }

  lemma OutsideLines(raw: string)
    ensures forall line <- Outside(raw) :: NoNewline(line) && IsFree(line)
    ensures Clean(raw) ==> forall line <- Outside(raw) :: CleanLine(line)
  {
    hide IsManagedHeader, IsMarker, IsHeader, CleanLine, KeptOf, Lines;
    LinesNoNewline(raw);
    KeptAreFree(Lines(raw));
    BlankIsFree();
  }

  lemma BlankIsFree()
    ensures IsFree("") && CleanLine("") && NoNewline("")
  {
    hide SectionName, ArrayName, IsSpace, IsLineTerminator;
    IdleNoHeader("");
    assert Trim("") == "";
  }

  // The written lines as they are split again.
  function WrittenLines(servers: seq<Server>, skills: seq<Skill>): seq<string> {
    if servers == [] && skills == [] then []
    else var all := Lines(Join(Managed(servers, skills)) + "\n"); all[..|all| - 1]
  }

  lemma {:induction false} LinesEnd(t: string)
    ensures var lines := Lines(t + "\n"); lines == lines[..|lines| - 1] + [""]
    decreases |t|
  {
    hide Lines, StripCr;
    var i := IndexOf(t, '\n');
    if i == |t| {
      LinesCons(t, "");
      assert t + "\n" + "" == t + "\n";
      LinesOfBlank();
    } else {
      var rest := t[i + 1..] + "\n";
      LinesEnd(t[i + 1..]);
      LinesCons(t[..i], rest);
      assert t + "\n" == t[..i] + "\n" + rest;
      EndStays(StripCr(t[..i]), Lines(rest));
    }
  }

  lemma EndStays(line: string, lines: seq<string>)
    requires lines != [] && lines == lines[..|lines| - 1] + [""]
    ensures var all := [line] + lines; all == all[..|all| - 1] + [""]
  {}

  lemma JoinBefore(a: seq<string>, b: seq<string>, tail: string)
    requires b != []
    ensures Join(a + b) + tail == JoinThen(a, Join(b) + tail)
  {
    hide Join, JoinThen;
    var m := |b| - 1;
    JoinIsJoinThen(a + b, tail);
    JoinIsJoinThen(b, tail);
    assert (a + b)[..|a + b| - 1] == a + b[..m];
    JoinThenAppend(a, b[..m], b[m] + tail);
  }

  // A text whose last line does not end in white space loses nothing to the final trim.
  lemma SolidText(lines: seq<string>)
    requires lines != [] && SolidEnd(lines)
    ensures TrimEnd(Join(lines)) == Join(lines)
  {
    hide Join, IsSpace;
    var last := lines[|lines| - 1];
    assert TrimEnd(last) == last;
    if |lines| == 1 {
      JoinOne(lines);
    } else {
      JoinLast(lines);
      TrimEndSolid(Join(lines[..|lines| - 1]) + "\n", last);
    }
  }

  lemma JoinOne(lines: seq<string>)
    requires |lines| == 1
    ensures Join(lines) == lines[0]
  {}

  lemma WrittenText(raw: string, servers: seq<Server>, skills: seq<Skill>)
    requires servers != [] || skills != []
    ensures Lines(Rewrite(raw, servers, skills)) == StripCrs(Outside(raw)) + WrittenLines(servers, skills) + [""]
  {
    hide Lines, StripCrs, Managed, KeptOf, Join, JoinThen, TrimEnd, NoNewline, IsFree, IsSolid;
    var managed := Managed(servers, skills);
    OutsideLines(raw);
    ManagedEnd(servers, skills);
    SolidText(Outside(raw) + managed);
    JoinBefore(Outside(raw), managed, "\n");
    LinesOfJoin(Outside(raw), Join(managed) + "\n");
    LinesEnd(Join(managed));
    var all := Lines(Join(managed) + "\n");
    assert all == WrittenLines(servers, skills) + [""];
    assert StripCrs(Outside(raw)) + all == StripCrs(Outside(raw)) + WrittenLines(servers, skills) + [""];
  }

  // Without line breaks they are the written lines.
  lemma WrittenAsManaged(servers: seq<Server>, skills: seq<Skill>)
    requires Unbroken(servers, skills)
    ensures WrittenLines(servers, skills) == Managed(servers, skills)
  {
    hide Unbroken, Managed, Lines, Join, StripCrs;
    var managed := Managed(servers, skills);
    ManagedEnd(servers, skills);
    ManagedWhole(servers, skills);
    if managed != [] {
      WholeStripped(managed);
      LinesOfText(managed);
    }
  }

  lemma WholeStripped(lines: seq<string>)
    requires forall line <- lines :: IsWhole(line)
    ensures StripCrs(lines) == lines && forall line <- lines :: NoNewline(line)
  {
    hide StripCr, CleanLine;
    forall i | 0 <= i < |lines| ensures StripCrs(lines)[i] == lines[i] { assert lines[i] in lines; }
  }

  lemma StripClean(lines: seq<string>)
    requires forall line <- lines :: CleanLine(line)
    ensures StripCrs(lines) == lines
  {
    hide CleanLine, StripCr;
    forall i | 0 <= i < |lines| ensures StripCrs(lines)[i] == lines[i] {
      assert lines[i] in lines;
      CleanHasNoCr(lines[i]);
    }
  }

  // With nothing to manage, the outside lines up to the last one that is not blank.
  lemma ClearedLines(raw: string)
    ensures Lines(Rewrite(raw, [], [])) == Left(Outside(raw), [], []) + [""]
  {
    hide Lines, StripCrs, KeptOf, Join, TrimEnd, NoNewline, IsFree, TrimLines;
    OutsideLines(raw);
    TrimEndOfJoin(Outside(raw));
    var kept := TrimLines(Outside(raw));
    TrimLinesNoNewline(Outside(raw));
    assert Outside(raw) + Managed([], []) == Outside(raw);
    if kept == [] { BlankText(); } else { LinesOfText(kept); }
  }

  // The lines of a rewritten config, for any text and any sets: what is left of the outside lines, then the written
  // ones.
  lemma RewrittenText(raw: string, servers: seq<Server>, skills: seq<Skill>)
    ensures Lines(Rewrite(raw, servers, skills))
            == Left(Outside(raw), servers, skills) + WrittenLines(servers, skills) + [""]
  {
    hide Lines, Rewrite, Outside, TrimLines, StripCrs;
    if servers != [] || skills != [] {
      WrittenText(raw, servers, skills);
    } else {
      ClearedLines(raw);
      assert Left(Outside(raw), [], []) + [] == Left(Outside(raw), [], []);
    }
  }

  lemma RewrittenLines(raw: string, servers: seq<Server>, skills: seq<Skill>)
    requires Unbroken(servers, skills)
    ensures Lines(Rewrite(raw, servers, skills))
            == Left(Outside(raw), servers, skills) + Managed(servers, skills) + [""]
  {
    hide Unbroken, Lines, Rewrite, Outside, WrittenLines, Left;
    RewrittenText(raw, servers, skills);
    WrittenAsManaged(servers, skills);
  }

  // Without stray line terminators the outside lines mean what they meant.
  lemma CleanLeft(raw: string, servers: seq<Server>, skills: seq<Skill>)
    requires Clean(raw)
    ensures forall line <- Left(Outside(raw), servers, skills) :: IsFree(line) && CleanLine(line)
  {
    hide Clean, Outside, StripCrs, NoNewline, IsFree, CleanLine, TrimLines;
    OutsideLines(raw);
    BlankIsFree();
    if servers != [] || skills != [] {
      StripClean(Outside(raw));
    } else {
      TrimLinesStayFree(Outside(raw));
      StripClean(TrimLines(Outside(raw)));
    }
  }

  lemma {:induction false} TrimLinesNoNewline(lines: seq<string>)
    requires forall line <- lines :: NoNewline(line)
    ensures forall line <- TrimLines(lines) :: NoNewline(line)
  {
    hide TrimEnd;
    if lines != [] {
      var n := |lines| - 1;
      assert lines[n] in lines;
      forall line | line in lines[..n] ensures line in lines {}
      TrimLinesNoNewline(lines[..n]);
      assert NoNewline(TrimEnd(lines[n]));
    }
  }

  lemma BlankText()
    ensures Join([]) == "" && Lines("" + "\n") == ["", ""]
  {
    LinesCons("", "");
    assert "" + "\n" + "" == "" + "\n";
    assert Lines("") == [""];
  }

  lemma {:induction false} TrimLinesStayFree(lines: seq<string>)
    requires forall line <- lines :: IsFree(line) && CleanLine(line)
    ensures forall line <- TrimLines(lines) :: IsFree(line) && CleanLine(line)
  {
    hide IsFree, CleanLine, TrimEnd;
    if lines != [] {
      var n := |lines| - 1;
      assert lines[n] in lines;
      forall line | line in lines[..n] ensures line in lines {}
      TrimLinesStayFree(lines[..n]);
      TrimmedStaysFree(lines[n]);
    }
  }

  // ---------------------------------------------------------------- reading a rewritten config back

  // Main result, for any text and any sets without line breaks: after a rewrite the servers are those that stray
  // carriage returns were hiding outside the managed sections, and those under whose names the written headers are
  // read.
  lemma PresentAfterRewrite(raw: string, servers: seq<Server>, skills: seq<Skill>, name: string)
    requires Unbroken(servers, skills)
    ensures HasName(ServersOf(Lines(Rewrite(raw, servers, skills))), name) <==>
              HasName(ServersOf(Left(Outside(raw), servers, skills)), name) || SomeReadAs(servers, name)
  {
    hide Unbroken, ServersOf, Managed, Rewrite, Left, Outside, Lines, HasName, SomeReadAs;
    RewrittenLines(raw, servers, skills);
    ManagedNames(Left(Outside(raw), servers, skills), servers, skills, name);
  }

  // Main result, for any text and any servers without line breaks: the written skills are read back.
  lemma SkillsAfterRewrite(raw: string, servers: seq<Server>, skills: seq<Skill>)
    requires Unbroken(servers, skills) && forall k <- skills :: GoodSkill(k)
    ensures SkillsOf(Lines(Rewrite(raw, servers, skills)))
            == SkillsOf(Left(Outside(raw), servers, skills)) + WithPath(skills)
  {
    hide Unbroken, SkillsOf, Managed, Rewrite, Left, Outside, Lines, WithPath, GoodSkill;
    RewrittenLines(raw, servers, skills);
    ManagedSkillsReadBack(Left(Outside(raw), servers, skills), servers, skills);
  }

  // Main result, for any text: good servers are read back with their definitions, after the hidden ones.
  lemma RewriteReadsBackAny(raw: string, servers: seq<Server>, skills: seq<Skill>)
    requires GoodSets(servers, skills)
    ensures var lines, left := Lines(Rewrite(raw, servers, skills)), Left(Outside(raw), servers, skills);
      ServersOf(lines) == SetServers(ServersOf(left), ReadBackAll(servers))
      && SkillsOf(lines) == SkillsOf(left) + WithPath(skills)
  {
    hide ServersOf, SkillsOf, Managed, Rewrite, Left, Outside, Lines, SetServers, ReadBackAll, WithPath, GoodServer;
    hide GoodSkill, Unbroken;
    GoodSetsFit(servers, skills);
    RewrittenLines(raw, servers, skills);
    ManagedReadsBack(Left(Outside(raw), servers, skills), servers, skills);
    SkillsAfterRewrite(raw, servers, skills);
  }

  ghost predicate DistinctNames(servers: seq<Server>) {
    forall i, j :: 0 <= i < j < |servers| ==> servers[i].name != servers[j].name
  }

  // Main result: without stray line terminators, exactly the servers and skills that were written are read back.
  lemma RewriteReadsBack(raw: string, servers: seq<Server>, skills: seq<Skill>)
    requires Clean(raw) && GoodSets(servers, skills) && DistinctNames(servers)
    ensures var lines := Lines(Rewrite(raw, servers, skills));
      ServersOf(lines) == ReadBackAll(servers) && SkillsOf(lines) == WithPath(skills)
  {
    hide GoodSets, Clean, Lines, Rewrite, ServersOf, SkillsOf, Left, Outside, CleanLine, IsFree, SetServers;
    hide ReadBackAll;
    hide WithPath, DistinctNames;
    CleanLeft(raw, servers, skills);
    FreeLines(Left(Outside(raw), servers, skills));
    RewriteReadsBackAny(raw, servers, skills);
    FreshSet(servers);
    assert [] + WithPath(skills) == WithPath(skills);
  }

  // Exactly the canonical definitions come back unchanged.
  lemma {:induction false} ReadBackAllIff(servers: seq<Server>)
    ensures ReadBackAll(servers) == servers <==> forall s <- servers :: Canonical(s.definition)
  {
    hide ReadBack, Canonical;
    if servers != [] {
      SurvivesIff(servers[0]);
      ReadBackAllIff(servers[1..]);
      assert ReadBackAll(servers)[0] == ReadBack(servers[0]) && ReadBackAll(servers)[1..] == ReadBackAll(servers[1..]);
      assert servers == [servers[0]] + servers[1..];
    }
  }

  lemma {:induction false} ReadBackNames(servers: seq<Server>)
    ensures |ReadBackAll(servers)| == |servers|
    ensures forall i :: 0 <= i < |servers| ==> ReadBackAll(servers)[i].name == servers[i].name
  {
    hide OrEmpty, Doubled;
    if servers != [] { ReadBackNames(servers[1..]); }
  }

  lemma {:induction false} SetServerAppends(servers: seq<Server>, s: Server)
    requires forall t <- servers :: t.name != s.name
    ensures SetServer(servers, s) == servers + [s]
  {
    if servers != [] { SetServerAppends(servers[1..], s); }
  }

  lemma {:induction false} SetServersFresh(servers: seq<Server>, more: seq<Server>)
    requires DistinctNames(servers + more)
    ensures SetServers(servers, more) == servers + more
    decreases |more|
  {
    if more == [] {
      assert servers + more == servers;
    } else {
      forall t | t in servers ensures t.name != more[0].name {
        var i :| 0 <= i < |servers| && servers[i] == t;
        assert (servers + more)[i] == t && (servers + more)[|servers|] == more[0];
      }
      SetServerAppends(servers, more[0]);
      assert servers + [more[0]] + more[1..] == servers + more;
      SetServersFresh(servers + [more[0]], more[1..]);
    }
  }

  lemma FreshSet(servers: seq<Server>)
    requires DistinctNames(servers)
    ensures SetServers([], ReadBackAll(servers)) == ReadBackAll(servers)
  {
    hide SetServers, ReadBackAll;
    ReadBackNames(servers);
    SetServersFresh([], ReadBackAll(servers));
    assert [] + ReadBackAll(servers) == ReadBackAll(servers);
  }

  ghost predicate NamesLead(stray: seq<Server>, servers: seq<Server>) {
    |stray| <= |servers| && forall i :: 0 <= i < |stray| ==> stray[i].name == servers[i].name
  }

  lemma {:induction false} SetServerKeepsNames(servers: seq<Server>, s: Server)
    ensures |SetServer(servers, s)| >= |servers|
    ensures forall i :: 0 <= i < |servers| ==> SetServer(servers, s)[i].name == servers[i].name
  {
    if servers != [] { SetServerKeepsNames(servers[1..], s); }
  }

  lemma {:induction false} SetServersKeepNames(servers: seq<Server>, more: seq<Server>)
    ensures NamesLead(servers, SetServers(servers, more))
    decreases |more|
  {
    hide SetServer;
    if more != [] {
      SetServerKeepsNames(servers, more[0]);
      SetServersKeepNames(SetServer(servers, more[0]), more[1..]);
    }
  }

  lemma {:induction false} SetServerReplaces(before: seq<Server>, s: Server, after: seq<Server>, t: Server)
    requires s.name == t.name && forall b <- before :: b.name != t.name
    ensures SetServer(before + [s] + after, t) == before + [t] + after
  {
    if before == [] {
      assert before + [s] + after == [s] + after && before + [t] + after == [t] + after;
    } else {
      assert (before + [s] + after)[1..] == before[1..] + [s] + after;
      SetServerReplaces(before[1..], s, after, t);
    }
  }

  lemma {:induction false} SetServersOver(before: seq<Server>, stray: seq<Server>, more: seq<Server>)
    requires DistinctNames(before + more) && NamesLead(stray, more)
    ensures SetServers(before + stray, more) == before + more
    decreases |more|
  {
    hide SetServer;
    if stray == [] {
      assert before + stray == before;
      SetServersFresh(before, more);
    } else {
      forall b | b in before ensures b.name != more[0].name {
        var i :| 0 <= i < |before| && before[i] == b;
        assert (before + more)[i] == b && (before + more)[|before|] == more[0];
      }
      assert before + stray == before + [stray[0]] + stray[1..];
      SetServerReplaces(before, stray[0], stray[1..], more[0]);
      assert before + [more[0]] + more[1..] == before + more;
      SetServersOver(before + [more[0]], stray[1..], more[1..]);
    }
  }

  // Main result: whatever surrounds them, exactly the written servers are read back if and only if the servers hidden
  // in the other text are none, or are named like the first ones written.
  lemma RewriteExactIff(raw: string, servers: seq<Server>, skills: seq<Skill>)
    requires GoodSets(servers, skills) && DistinctNames(servers)
    ensures ServersOf(Lines(Rewrite(raw, servers, skills))) == ReadBackAll(servers)
       <==> NamesLead(ServersOf(Left(Outside(raw), servers, skills)), servers)
  {
    hide GoodSets, Lines, Rewrite, ServersOf, SkillsOf, Left, Outside, SetServers, ReadBackAll, WithPath;
    RewriteReadsBackAny(raw, servers, skills);
    var stray := ServersOf(Left(Outside(raw), servers, skills));
    var back := ReadBackAll(servers);
    ReadBackNames(servers);
    SetServersKeepNames(stray, back);
    if NamesLead(stray, servers) {
      assert [] + stray == stray && [] + back == back;
      SetServersOver([], stray, back);
    }
  }

  lemma StripTwo(a: string, b: string)
    ensures StripCrs([a, b]) == [StripCr(a), StripCr(b)] && StripCr("") == ""
  {}

  lemma HeldOutside(name: string)
    requires GoodName(name)
    ensures var raw := ServerHeader(name) + "#\r\r\n";
      ServersOf(Lines(raw)) == [] && StripCrs(Outside(raw)) == [ServerHeader(name) + "#", ""]
  {
    hide Lines, StripCr, StripCrs, GoodName, ServerHeader, ServersOf, SkillsOf, IsFree, Outside;
    HeldBack(name);
    var line := ServerHeader(name) + "#\r";
    BlankIsFree();
    FreeLines([line, ""]);
    TwoFreeOutside(ServerHeader(name) + "#\r\r\n", line);
    StripTwo(line, "");
  }

  lemma TwoFreeOutside(raw: string, line: string)
    requires Lines(raw) == [line, ""] && IsFree(line) && IsFree("")
    ensures Outside(raw) == [line, ""]
  {
    hide Lines, IsFree, KeepLines;
    KeepFree(Kept([], false), [line, ""]);
    assert [] + [line, ""] == [line, ""];
  }

  // A header that ends in a comment and two carriage returns is no header until the rewrite drops one of them.
  lemma StrayReturnResurrects(name: string, path: string)
    requires GoodName(name) && OneLine(path)
    ensures var raw := ServerHeader(name) + "#\r\r\n";
      && ServersOf(Lines(raw)) == []
      && ServersOf(Lines(Rewrite(raw, [], [Skill(path, true)])))
         == [Server(name, Definition(false, None, None, None, None))]
  {
    hide Lines, StripCrs, Rewrite, GoodName, ServerHeader, Outside, ServersOf, SkillsOf, SetServers, ReadBackAll,
         WithPath, OneLine;
    var raw := ServerHeader(name) + "#\r\r\n";
    HeldOutside(name);
    RewriteReadsBackAny(raw, [], [Skill(path, true)]);
    NothingSet(ServersOf(StripCrs(Outside(raw))));
    HeldServer(name);
  }

  lemma NothingSet(servers: seq<Server>)
    ensures SetServers(servers, ReadBackAll([])) == servers
  {}

  lemma HeldServer(name: string)
    requires GoodName(name)
    ensures ServersOf([ServerHeader(name) + "#", ""]) == [Server(name, Definition(false, None, None, None, None))]
  {
    hide GoodName, ServerHeader;
    OpensServer(name);
    HeaderThenBlank(ServerHeader(name) + "#", Draft(name, None, [], None, []));
  }

  // A header with nothing but a blank line behind it.
  lemma HeaderThenBlank(line: string, draft: Draft)
    requires ServerLine(NO_SERVERS, line) == ServerScan([], Some(draft))
    ensures ServersOf([line, ""]) == [Finished(draft)]
  {
    hide ServerLine, SetServer, ScanServers, Finished, ServersOf;
    ScanServersOne(NO_SERVERS, line);
    ScanServersSnoc(NO_SERVERS, [line], "");
    Pair(line, "");
    BlankIsIdle();
    IdleScans(ServerScan([], Some(draft)), NO_SKILLS, "");
    DraftFlushes([line, ""], draft);
  }

  lemma Pair(a: string, b: string)
    ensures [a] + [b] == [a, b]
  {}

  lemma DraftFlushes(lines: seq<string>, draft: Draft)
    requires ScanServers(NO_SERVERS, lines) == ServerScan([], Some(draft))
    ensures ServersOf(lines) == [Finished(draft)]
  {
    hide ScanServers, Finished;
  }

  // The commented header opens the server that the plain one opens.
  lemma OpensServer(name: string)
    requires GoodName(name)
    ensures ServerLine(NO_SERVERS, ServerHeader(name) + "#") == ServerScan([], Some(Draft(name, None, [], None, [])))
  {
    hide SectionName, GoodName, StripQuotes, ServerHeader, IsTail, ReadAs;
    CommentTails();
    HeaderThen(name, "#");
    GoodIsHeader(name);
    HeaderStartsServer(NO_SERVERS, name);
  }

  lemma CommentTail(s: string)
    requires s != "" && s[0] == '#'
    ensures IsTail(s) <==> OneLine(s)
  {
    hide IsSpace, OneLine, TrimStart;
    SignsAreNoSpace();
    TrimStartNone(s);
  }

  lemma CommentTails()
    ensures IsTail("#") && !IsTail("#\r")
  {
    hide IsSpace, IsTail;
    SignsAreNoSpace();
    CommentTail("#");
    CommentTail("#\r");
    CarriageReturnEnds("#\r");
  }

  lemma SignsAreNoSpace()
    ensures !IsSpace('#') && IsLineTerminator('\r')
  {}

  lemma CarriageReturnEnds(s: string)
    requires |s| == 2 && s[1] == '\r'
    ensures !OneLine(s)
  {
    assert s[1] in s;
  }

  // A header with something behind its bracket.
  lemma HeaderThen(name: string, tail: string)
    requires GoodName(name)
    ensures SectionName(ServerHeader(name) + tail) == if IsTail(tail) then SectionName(ServerHeader(name)) else None
    ensures ArrayName(ServerHeader(name) + tail).None?
  {
    hide TomlKey, IsSpace, IsLineTerminator, StripQuotes, Trim, IsTail, SectionName, ArrayName, TrimEnd;
    KeyShape(name);
    var inner := "mcp_servers." + TomlKey(name);
    assert ServerHeader(name) + tail == "[" + inner + "]" + tail;
    LetterFirst(TomlKey(name));
    SectionThen(inner, tail);
    SectionThen(inner, "");
    BlankTail();
    assert "[" + inner + "]" + "" == ServerHeader(name);
  }

  lemma LetterFirst(key: string)
    requires ']' !in key
    ensures var inner := "mcp_servers." + key; inner != "" && inner[0] == 'm' && ']' !in inner
  {}

  // A carriage return more than a line break needs.
  lemma TwoReturns(u: string)
    requires NoNewline(u)
    ensures Lines(u + "\r\r\n") == [u + "\r", ""] && StripCr(u + "\r") == u
  {
    hide Lines, StripCr;
    var whole := u + "\r" + "\r";
    StripLast(u, u + "\r");
    StripLast(u + "\r", whole);
    assert u + "\r\r\n" == whole + "\n" + "";
    assert NoNewline(whole);
    LinesCons(whole, "");
    LinesOfBlank();
  }

  lemma HeaderNoNewline(name: string)
    requires GoodName(name)
    ensures NoNewline(ServerHeader(name) + "#")
  {
    hide TomlKey;
    KeyNoNewline(name);
  }

  lemma HeldBack(name: string)
    requires GoodName(name)
    ensures var line := ServerHeader(name) + "#\r";
      && IsFree(line) && StripCr(line) == ServerHeader(name) + "#"
      && Lines(ServerHeader(name) + "#\r\r\n") == [line, ""]
  {
    hide GoodName, ServerHeader, Lines, IsFree, StripCr, IsSolid, IsManagedHeader, IsMarker;
    var header := ServerHeader(name);
    HeldLine(name);
    HeaderIsSection(name);
    HeaderNoNewline(name);
    TwoReturns(header + "#");
    assert header + "#" + "\r" == header + "#\r" && header + "#" + "\r\r\n" == header + "#\r\r\n";
  }

  lemma StripLast(u: string, line: string)
    requires line == u + "\r"
    ensures StripCr(line) == u
  {}

  lemma HeldLine(name: string)
    requires GoodName(name)
    ensures IsFree(ServerHeader(name) + "#\r")
  {
    hide SectionName, ArrayName, GoodName, IsSpace, IsTail, ServerHeader, IsMarker;
    var line := ServerHeader(name) + "#\r";
    CommentTails();
    HeaderThen(name, "#\r");
    HeaderBracket(name);
    BracketIsNoSpace();
    NoMarker(line);
  }

  lemma HeaderBracket(name: string)
    ensures ServerHeader(name) != "" && ServerHeader(name)[0] == '['
  {}

  lemma LinesOfBlank()
    ensures Lines("") == [""]
  {}
}
