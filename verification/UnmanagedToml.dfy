// What a rewrite keeps of the lines outside the managed sections, for any text, once or many times.

module UnmanagedToml {
  import opened Options
  import opened Text
  import opened TomlLexer
  import opened TomlConfig
  import opened ServerNames
  import opened TomlRoundTrip
  import opened TomlRewrite
  import opened ManagedToml

  // The non-blank lines, trailing spaces aside.
  function NonBlank(lines: seq<string>): seq<string> {
    if lines == [] then []
    else
      var n := |lines| - 1;
      NonBlank(lines[..n]) + if TrimEnd(lines[n]) == "" then [] else [TrimEnd(lines[n])]
  }

  function Unmanaged(raw: string): seq<string> {
    NonBlank(KeptOf(Lines(raw)))
  }

  ghost predicate AllFree(lines: seq<string>) {
    forall line <- lines :: IsFree(line)
  }

  lemma NonBlankSnoc(lines: seq<string>, line: string)
    ensures NonBlank(lines + [line]) == NonBlank(lines) + if TrimEnd(line) == "" then [] else [TrimEnd(line)]
  {
    assert (lines + [line])[..|lines|] == lines;
  }

  lemma BlankAdded(lines: seq<string>)
    ensures NonBlank(lines + [""]) == NonBlank(lines)
  {
    NonBlankSnoc(lines, "");
    assert TrimEnd("") == "";
  }

  lemma {:induction false} NonBlankTrimmed(lines: seq<string>)
    ensures NonBlank(TrimLines(lines)) == NonBlank(lines)
  {
    if lines != [] {
      var n := |lines| - 1;
      NonBlankTrimmed(lines[..n]);
      NonBlankSnoc(lines[..n], TrimEnd(lines[n]));
      TrimEndTwice(lines[n]);
    }
  }

  lemma TrimEndStripped(line: string)
    ensures TrimEnd(StripCr(line)) == TrimEnd(line)
  {}

  lemma {:induction false} NonBlankStripped(lines: seq<string>)
    ensures NonBlank(StripCrs(lines)) == NonBlank(lines)
  {
    hide StripCr, TrimEnd;
    if lines != [] {
      var n := |lines| - 1;
      NonBlankStripped(lines[..n]);
      assert StripCrs(lines)[..n] == StripCrs(lines[..n]);
      TrimEndStripped(lines[n]);
    }
  }

  // A rewrite leaves the same non-blank lines outside, though perhaps not outside any more.
  lemma NonBlankLeft(raw: string, servers: seq<Server>, skills: seq<Skill>)
    ensures NonBlank(Left(Outside(raw), servers, skills)) == Unmanaged(raw)
  {
    hide Lines, KeptOf, StripCrs, TrimLines;
    var outside := Outside(raw);
    BlankAdded(KeptOf(Lines(raw)));
    NonBlankStripped(outside);
    NonBlankTrimmed(outside);
    NonBlankStripped(TrimLines(outside));
    BlankAdded([]);
    assert [] + [""] == [""] && NonBlank([]) == [];
  }

  // ---------------------------------------------------------------- what the next reading keeps

  lemma MarkerNotBlank(line: string)
    requires !IsFree(line)
    ensures TrimEnd(line) != ""
  {
    hide IsTail, IndexOf, IsLineTerminator, IsSpace;
    if TrimEnd(line) == "" {
      TrimEndDrops(line);
      assert line[|TrimEnd(line)|..] == line;
      TrimStartSpaces(line);
    }
  }

  // Dropped lines are never fewer non-blank ones than the lines that are not free.
  lemma {:induction false} KeepCount(lines: seq<string>)
    ensures |NonBlank(KeptOf(lines))| <= |NonBlank(lines)|
    ensures !AllFree(lines) ==> |NonBlank(KeptOf(lines))| < |NonBlank(lines)|
  {
    hide IsManagedHeader, IsMarker, IsHeader, TrimEnd;
    if lines != [] {
      var n := |lines| - 1;
      var front, line := lines[..n], lines[n];
      KeepCount(front);
      if AllFree(front) && IsFree(line) {
        forall l | l in lines ensures IsFree(l) { if l != line { assert l in front; } }
      }
      if !IsFree(line) { MarkerNotBlank(line); }
      NonBlankSnoc(KeptOf(front), line);
    }
  }

  lemma OnePastKept(k: Kept, lines: seq<string>)
    ensures KeepLines(k, lines + [""]) == KeepLine(KeepLines(k, lines), "")
  {
    KeepSnoc(k, lines, "");
  }

  // What is kept of later lines does not depend on what was kept before.
  lemma {:induction false} KeepShift(before: seq<string>, k: Kept, lines: seq<string>)
    ensures KeepLines(Kept(before + k.lines, k.skipping), lines)
            == Kept(before + KeepLines(k, lines).lines, KeepLines(k, lines).skipping)
  {
    hide IsManagedHeader, IsMarker, IsHeader;
    if lines != [] {
      var n := |lines| - 1;
      KeepShift(before, k, lines[..n]);
      var kept := KeepLines(k, lines[..n]).lines;
      assert before + (kept + [lines[n]]) == before + kept + [lines[n]];
    }
  }

  // A rewritten config keeps what its left lines keep, and a blank line if no section is open at their end.
  lemma RewrittenKept(raw: string, servers: seq<Server>, skills: seq<Skill>)
    requires Writable(servers, skills)
    ensures var kept := KeepLines(Kept([], false), Left(Outside(raw), servers, skills));
      KeptOf(Lines(Rewrite(raw, servers, skills))) == kept.lines + if kept.skipping then [] else [""]
  {
    hide Unbroken, Headed, Lines, Managed, Rewrite, Left, KeepLines, KeepLine, Outside;
    RewrittenLines(raw, servers, skills);
    var none, left, managed := Kept([], false), Left(Outside(raw), servers, skills), Managed(servers, skills);
    KeepAppend(none, left, managed);
    var kept := KeepLines(none, left);
    ManagedSkipped(kept, servers, skills);
    OnePastKept(none, left + managed);
    BlankKept(kept);
    BlankKept(Opened(kept));
    assert kept.lines + [] == kept.lines;
  }

  lemma UnmanagedAfter(raw: string, servers: seq<Server>, skills: seq<Skill>)
    requires Writable(servers, skills)
    ensures Unmanaged(Rewrite(raw, servers, skills)) == NonBlank(KeptOf(Left(Outside(raw), servers, skills)))
  {
    hide Writable, Lines, Rewrite, Left, KeepLines, Outside, NonBlank;
    RewrittenKept(raw, servers, skills);
    var kept := KeepLines(Kept([], false), Left(Outside(raw), servers, skills));
    BlankAdded(kept.lines);
    assert kept.lines + [] == kept.lines;
  }

  // Main result, for any text and any sets without line breaks whose first header is read as one: a rewrite keeps, in
  // order, the non-blank lines outside managed sections if and only if none of them becomes a managed header or the
  // marker by losing a carriage return.
  lemma RewriteKeepsUnmanagedIff(raw: string, servers: seq<Server>, skills: seq<Skill>)
    requires Writable(servers, skills)
    ensures Unmanaged(Rewrite(raw, servers, skills)) == Unmanaged(raw) <==> AllFree(Left(Outside(raw), servers, skills))
    ensures |Unmanaged(Rewrite(raw, servers, skills))| <= |Unmanaged(raw)|
    ensures !AllFree(Left(Outside(raw), servers, skills)) ==>
              |Unmanaged(Rewrite(raw, servers, skills))| < |Unmanaged(raw)|
  {
    hide Writable, Unmanaged, Rewrite, Left, KeepLines, Outside, NonBlank, IsFree;
    var left := Left(Outside(raw), servers, skills);
    UnmanagedAfter(raw, servers, skills);
    NonBlankLeft(raw, servers, skills);
    KeepCount(left);
    if AllFree(left) {
      KeepFree(Kept([], false), left);
      assert [] + left == left;
    }
  }

  // ---------------------------------------------------------------- which sets can be written

  // None of the written lines is taken for a line outside the managed sections.
  ghost predicate Sealed(servers: seq<Server>, skills: seq<Skill>) {
    NonBlank(KeptOf(WrittenLines(servers, skills))) == []
  }

  lemma {:induction false} NonBlankAppend(a: seq<string>, b: seq<string>)
    ensures NonBlank(a + b) == NonBlank(a) + NonBlank(b)
  {
    hide TrimEnd;
    if b == [] {
      assert a + b == a;
    } else {
      var n := |b| - 1;
      assert (a + b)[..|a + b| - 1] == a + b[..n];
      NonBlankAppend(a, b[..n]);
    }
  }

  // Main result, for any sets at all: where a rewrite hides no outside line, the outside lines are kept without
  // addition if and only if the sets are sealed.
  lemma RewriteAddsNothingIff(raw: string, servers: seq<Server>, skills: seq<Skill>)
    requires AllFree(Left(Outside(raw), servers, skills))
    ensures Unmanaged(Rewrite(raw, servers, skills)) == Unmanaged(raw) <==> Sealed(servers, skills)
  {
    hide Lines, Rewrite, Left, KeepLines, KeepLine, Outside, NonBlank, IsFree, WrittenLines;
    RewrittenText(raw, servers, skills);
    var none, left, written := Kept([], false), Left(Outside(raw), servers, skills), WrittenLines(servers, skills);
    KeepAppend(none, left, written);
    KeepFree(none, left);
    KeepShift(left, none, written);
    assert [] + left == left && left + [] == left;
    OnePastKept(none, left + written);
    var kept := KeepLines(none, left + written);
    BlankKept(kept);
    BlankAdded(kept.lines);
    NonBlankLeft(raw, servers, skills);
    NonBlankAppend(left, KeptOf(written));
  }

  lemma {:induction false} KeepGrows(k: Kept, lines: seq<string>)
    ensures k.lines <= KeepLines(k, lines).lines
  {
    hide IsManagedHeader, IsMarker, IsHeader;
    if lines != [] { KeepGrows(k, lines[..|lines| - 1]); }
  }

  lemma {:induction false} NonBlankMember(lines: seq<string>, line: string)
    requires line in lines && TrimEnd(line) != ""
    ensures NonBlank(lines) != []
  {
    hide TrimEnd;
    var n := |lines| - 1;
    if lines[n] != line {
      assert line in lines[..n];
      NonBlankMember(lines[..n], line);
    }
  }

  // A first header that is none is left standing among the outside lines.
  lemma UnheadedLeaks(servers: seq<Server>, skills: seq<Skill>)
    requires !Headed(servers)
    ensures NonBlank(KeptOf(Managed(servers, skills))) != []
  {
    hide KeepLine, KeepLines, Block, RenderTomlMcpSection, IsHeader, IsManagedHeader, IsMarker, ServerHeader, TrimEnd;
    hide NonBlank;
    var none, header := Kept([], false), ServerHeader(servers[0].name);
    var body := RenderTomlMcpSection(servers[0]);
    ServerSection(servers[0]);
    HeaderIsNoMarker(servers[0].name);
    var rest := body[1..] + ServerBlocks(servers[1..]) + SkillBlocks(skills);
    BlockIs(body);
    assert Managed(servers, skills) == ["", MARKER, header] + rest;
    KeptHeader(header);
    KeepAppend(none, ["", MARKER, header], rest);
    KeepGrows(KeepLines(none, ["", MARKER, header]), rest);
    assert KeptOf(Managed(servers, skills))[1] == ["", header][1];
    NonBlankMember(KeptOf(Managed(servers, skills)), header);
  }

  lemma BlockIs(body: seq<string>)
    requires body != []
    ensures Block(body) == ["", MARKER, body[0]] + body[1..]
  {}

  lemma KeptHeader(header: string)
    requires !IsHeader(header) && !IsMarker(header)
    ensures KeepLines(Kept([], false), ["", MARKER, header]) == Kept(["", header], false)
  {
    hide KeepLines, IsMarker, SectionName, ArrayName;
    var none := Kept([], false);
    KeepNone(none);
    KeepSnoc(none, [], "");
    KeepSnoc(none, [""], MARKER);
    KeepSnoc(none, ["", MARKER], header);
    BlankKept(none);
    MarkerDropped(Kept([""], false));
    assert [] + [""] == [""] && [""] + [MARKER] == ["", MARKER] && ["", MARKER] + [header] == ["", MARKER, header];
  }

  // Sets without line breaks are sealed exactly when the first server's header is read as one.
  lemma SealedIff(servers: seq<Server>, skills: seq<Skill>)
    requires Unbroken(servers, skills)
    ensures Sealed(servers, skills) <==> Headed(servers)
  {
    hide Unbroken, Headed, Managed, KeepLines, NonBlank, WrittenLines;
    WrittenAsManaged(servers, skills);
    if Headed(servers) {
      var none := Kept([], false);
      ManagedSkipped(none, servers, skills);
      BlankAdded([]);
      assert [] + [""] == [""];
      NoneNonBlank();
    } else {
      UnheadedLeaks(servers, skills);
    }
  }

  // Every name without a closing bracket makes such a header.
  lemma NoBracketIsHeaded(servers: seq<Server>)
    requires servers != [] ==> ']' !in servers[0].name
    ensures Headed(servers)
  {
    hide IsHeader, SectionName, ArrayName, IsTail, ServerHeader, TrimEnd;
    if servers != [] {
      HeaderReads(servers[0].name);
      PlainParts(servers[0].name);
      BlankTail();
      HeaderIsManaged(servers[0].name);
    }
  }

  // So does nothing but the loss of carriage returns at line ends cost a line: clean texts keep all, and stay clean.
  lemma CleanRewriteKeeps(raw: string, servers: seq<Server>, skills: seq<Skill>)
    requires Clean(raw) && Writable(servers, skills)
    ensures Unmanaged(Rewrite(raw, servers, skills)) == Unmanaged(raw) && Clean(Rewrite(raw, servers, skills))
  {
    hide Unbroken, Headed, Lines, Rewrite, Managed, Unmanaged, Outside, Left, CleanLine, IsFree;
    CleanLeft(raw, servers, skills);
    RewriteKeepsUnmanagedIff(raw, servers, skills);
    RewrittenLines(raw, servers, skills);
    ManagedWhole(servers, skills);
    BlankIsFree();
  }

  // An unknown line can be lost: a header that ends in a comment and two carriage returns.
  lemma StrayReturnLosesLine(name: string, path: string)
    requires GoodName(name) && NoNewline(path)
    ensures var raw := ServerHeader(name) + "#\r\r\n";
      Unmanaged(raw) == [ServerHeader(name) + "#"] && Unmanaged(Rewrite(raw, [], [Skill(path, true)])) == []
  {
    hide Lines, StripCrs, Rewrite, GoodName, ServerHeader, Outside, KeptOf, NonBlank, NoNewline, TrimEnd;
    var raw, revived := ServerHeader(name) + "#\r\r\n", ServerHeader(name) + "#";
    HeldOutside(name);
    NonBlankLeft(raw, [], [Skill(path, true)]);
    UnmanagedAfter(raw, [], [Skill(path, true)]);
    RevivedHeader(name);
  }

  lemma RevivedHeader(name: string)
    requires GoodName(name)
    ensures NonBlank([ServerHeader(name) + "#", ""]) == [ServerHeader(name) + "#"]
    ensures NonBlank(KeptOf([ServerHeader(name) + "#", ""])) == []
  {
    hide ServerHeader, GoodName, NonBlank, KeepLines, KeptOf;
    RevivedIsManaged(name);
    OneSolid(ServerHeader(name) + "#");
    HeaderSkips(ServerHeader(name) + "#");
    NoneNonBlank();
  }

  lemma NoneNonBlank()
    ensures NonBlank([]) == []
  {}

  lemma OneSolid(line: string)
    requires line != "" && line[|line| - 1] == '#'
    ensures NonBlank([line, ""]) == [line]
  {
    hide NonBlank;
    HashIsSolid(line);
    NoneNonBlank();
    NonBlankSnoc([], line);
    BlankAdded([line]);
    assert [line] + [""] == [line, ""] && [] + [line] == [line];
  }

  lemma HeaderSkips(line: string)
    requires IsManagedHeader(line) && !IsMarker(line)
    ensures KeptOf([line, ""]) == []
  {
    hide KeepLine, KeepLines, IsManagedHeader, IsMarker;
    var none := Kept([], false);
    KeepNone(none);
    KeepSnoc(none, [], line);
    ManagedOpens(none, line);
    KeepSnoc(none, [line], "");
    BlankKept(Kept([], true));
    assert [line] + [""] == [line, ""] && [] + [line] == [line];
  }

  lemma RevivedIsManaged(name: string)
    requires GoodName(name)
    ensures var line := ServerHeader(name) + "#"; IsManagedHeader(line) && !IsMarker(line)
    ensures var line := ServerHeader(name) + "#"; line != "" && line[|line| - 1] == '#'
  {
    hide SectionName, ArrayName, GoodName, IsTail, ServerHeader, IsSpace, IsMarker, TomlKey;
    CommentTails();
    HeaderThen(name, "#");
    GoodIsHeader(name);
    HeaderIsSection(name);
    HeaderBracket(name);
    BracketIsNoSpace();
    NoMarker(ServerHeader(name) + "#");
  }

  lemma HashIsSolid(line: string)
    requires line != "" && line[|line| - 1] == '#'
    ensures TrimEnd(line) == line
  {}

  // ---------------------------------------------------------------- many rewrites

  datatype Sets = Sets(servers: seq<Server>, skills: seq<Skill>)

  function RewriteEach(raw: string, sets: seq<Sets>): string
    decreases |sets|
  {
    if sets == [] then raw else RewriteEach(Rewrite(raw, sets[0].servers, sets[0].skills), sets[1..])
  }

  ghost predicate AllWritable(sets: seq<Sets>) {
    forall s <- sets :: Writable(s.servers, s.skills)
  }

  // None of the outside lines ever becomes a managed header or the marker by losing carriage returns one by one. This
  // depends on the first text alone, and on which of the sets are empty.
  ghost predicate StaysFree(outside: seq<string>, sets: seq<Sets>)
    decreases |sets|
  {
    sets != [] ==>
      var left := Left(outside, sets[0].servers, sets[0].skills);
      AllFree(left) && StaysFree(left + [""], sets[1..])
  }

  // The outside lines of a rewritten text, when none was lost.
  lemma NextOutside(raw: string, servers: seq<Server>, skills: seq<Skill>)
    requires Writable(servers, skills) && AllFree(Left(Outside(raw), servers, skills))
    ensures Outside(Rewrite(raw, servers, skills)) == Left(Outside(raw), servers, skills) + [""]
  {
    hide Writable, Lines, Rewrite, Left, IsFree;
    var left := Left(Outside(raw), servers, skills);
    RewrittenKept(raw, servers, skills);
    KeepFree(Kept([], false), left);
    assert [] + left == left;
  }

  lemma {:induction false} NeverGrows(raw: string, sets: seq<Sets>)
    requires AllWritable(sets)
    ensures |Unmanaged(RewriteEach(raw, sets))| <= |Unmanaged(raw)|
    decreases |sets|
  {
    hide Writable, Unmanaged, Rewrite, Left, Outside;
    if sets != [] {
      assert sets[0] in sets && forall s <- sets[1..] :: s in sets;
      RewriteKeepsUnmanagedIff(raw, sets[0].servers, sets[0].skills);
      NeverGrows(Rewrite(raw, sets[0].servers, sets[0].skills), sets[1..]);
    }
  }

  // Main result: any run of rewrites keeps the non-blank outside lines of any text if and only if they stay free.
  lemma {:induction false} RunOfRewritesIff(raw: string, sets: seq<Sets>)
    requires AllWritable(sets)
    ensures Unmanaged(RewriteEach(raw, sets)) == Unmanaged(raw) <==> StaysFree(Outside(raw), sets)
    decreases |sets|
  {
    hide Writable, Unmanaged, Rewrite, Left, Outside, AllFree;
    if sets != [] {
      assert sets[0] in sets && forall s <- sets[1..] :: s in sets;
      var once := Rewrite(raw, sets[0].servers, sets[0].skills);
      RewriteKeepsUnmanagedIff(raw, sets[0].servers, sets[0].skills);
      if AllFree(Left(Outside(raw), sets[0].servers, sets[0].skills)) {
        NextOutside(raw, sets[0].servers, sets[0].skills);
        RunOfRewritesIff(once, sets[1..]);
      } else {
        NeverGrows(once, sets[1..]);
      }
    }
  }

  // And then only the last set is read back.
  lemma {:induction false} RunReadsBackLast(raw: string, sets: seq<Sets>)
    requires AllWritable(sets) && sets != [] && StaysFree(Outside(raw), sets)
    requires GoodSets(sets[|sets| - 1].servers, sets[|sets| - 1].skills) && DistinctNames(sets[|sets| - 1].servers)
    ensures var last, lines := sets[|sets| - 1], Lines(RewriteEach(raw, sets));
      ServersOf(lines) == ReadBackAll(last.servers) && SkillsOf(lines) == WithPath(last.skills)
    decreases |sets|
  {
    hide Writable, GoodSets, DistinctNames, Rewrite, Left, Outside, ServersOf, SkillsOf, ReadBackAll, WithPath, Lines;
    hide SetServers, IsFree;
    assert sets[0] in sets && forall s <- sets[1..] :: s in sets;
    var servers, skills := sets[0].servers, sets[0].skills;
    if |sets| == 1 {
      RewriteReadsBackAny(raw, servers, skills);
      FreeLines(Left(Outside(raw), servers, skills));
      FreshSet(servers);
      assert [] + WithPath(skills) == WithPath(skills);
    } else {
      NextOutside(raw, servers, skills);
      RunReadsBackLast(Rewrite(raw, servers, skills), sets[1..]);
    }
  }

  // Clean texts stay free through any run.
  lemma {:induction false} CleanStaysFree(raw: string, sets: seq<Sets>)
    requires Clean(raw) && AllWritable(sets)
    ensures StaysFree(Outside(raw), sets)
    decreases |sets|
  {
    hide Clean, Writable, Unmanaged, Rewrite, Left, Outside, IsFree, CleanLine;
    if sets != [] {
      assert sets[0] in sets && forall s <- sets[1..] :: s in sets;
      var servers, skills := sets[0].servers, sets[0].skills;
      CleanLeft(raw, servers, skills);
      CleanRewriteKeeps(raw, servers, skills);
      NextOutside(raw, servers, skills);
      CleanStaysFree(Rewrite(raw, servers, skills), sets[1..]);
    }
  }

  // A second rewrite leaves the outside lines, one blank line more, and a managed part that only depends on the last
  // set.
  lemma SecondRewrite(raw: string, first: Sets, second: Sets)
    requires Writable(first.servers, first.skills) && Writable(second.servers, second.skills)
    requires AllFree(Left(Outside(raw), first.servers, first.skills))
    ensures Lines(Rewrite(Rewrite(raw, first.servers, first.skills), second.servers, second.skills))
         == Left(Left(Outside(raw), first.servers, first.skills) + [""], second.servers, second.skills)
            + Managed(second.servers, second.skills) + [""]
  {
    hide Unbroken, Headed, Lines, Rewrite, Managed, Left, Outside, IsFree;
    NextOutside(raw, first.servers, first.skills);
    RewrittenLines(Rewrite(raw, first.servers, first.skills), second.servers, second.skills);
  }

  function MaxLength(lines: seq<string>): (m: nat)
    ensures forall line <- lines :: |line| <= m
  {
    if lines == [] then 0
    else if |lines[0]| > MaxLength(lines[1..]) then |lines[0]| else MaxLength(lines[1..])
  }

  // Lines that are what is left of each other by dropping a carriage return have none to drop.
  lemma {:induction false} NothingToStrip(lines: seq<string>, line: string)
    requires forall l <- lines :: l in StripCrs(lines) || StripCr(l) == l
    requires line in lines
    ensures StripCr(line) == line
    decreases MaxLength(lines) - |line|
  {
    if StripCr(line) != line {
      var i :| 0 <= i < |lines| && StripCrs(lines)[i] == line;
      assert lines[i] in lines && |lines[i]| == |line| + 1;
      NothingToStrip(lines, lines[i]);
    }
  }

  lemma BlankFirst(servers: seq<Server>, skills: seq<Skill>)
    requires servers != [] || skills != []
    ensures Managed(servers, skills) != [] && Managed(servers, skills)[0] == ""
  {
    hide RenderTomlMcpSection, RenderTomlSkillBlock;
    if servers == [] { assert Managed(servers, skills) == SkillBlocks(skills); }
  }

  // Free lines and the blank line after them are kept.
  lemma MoreKept(outside: seq<string>, lines: seq<string>)
    requires AllFree(outside) && lines != [] && lines[0] == ""
    ensures |KeptOf(outside + lines)| > |outside|
  {
    hide KeepLine, KeepLines, IsFree;
    var none, before := Kept([], false), Kept(outside, false);
    KeepAppend(none, outside, lines);
    KeepFree(none, outside);
    assert [] + outside == outside && lines == [""] + lines[1..] && [] + [""] == [""];
    KeepAppend(before, [""], lines[1..]);
    KeepSnoc(before, [], "");
    KeepNone(before);
    BlankKept(before);
    KeepGrows(KeepLines(before, [""]), lines[1..]);
  }

  lemma SettledOutside(raw: string, servers: seq<Server>, skills: seq<Skill>)
    requires Lines(raw) == StripCrs(Outside(raw)) + Managed(servers, skills) + [""]
    requires forall line <- Managed(servers, skills) :: IsWhole(line)
    ensures StripCrs(Outside(raw)) == Outside(raw) && AllFree(Outside(raw))
  {
    hide Lines, Managed, StripCr, IsFree, KeepLines, CleanLine;
    var outside := Outside(raw);
    OutsideLines(raw);
    KeptAreFree(Lines(raw));
    FixedLinesWhole();
    forall line | line in outside ensures line in StripCrs(outside) || StripCr(line) == line {
      assert line in Lines(raw) || line == "";
    }
    forall i | 0 <= i < |outside| ensures StripCrs(outside)[i] == outside[i] { NothingToStrip(outside, outside[i]); }
  }

  // Main result: no text at all is left as it is by a rewrite that writes an entry without line breaks.
  lemma RewriteNeverSettles(raw: string, servers: seq<Server>, skills: seq<Skill>)
    requires Unbroken(servers, skills) && (servers != [] || skills != [])
    ensures Rewrite(raw, servers, skills) != raw
  {
    hide Unbroken, Lines, Rewrite, Managed, KeepLines, StripCrs, IsFree, IsWhole;
    var outside, managed := Outside(raw), Managed(servers, skills);
    RewrittenLines(raw, servers, skills);
    ManagedWhole(servers, skills);
    BlankFirst(servers, skills);
    assert outside + managed + [""] == outside + (managed + [""]);
    if Rewrite(raw, servers, skills) == raw {
      SettledOutside(raw, servers, skills);
      MoreKept(outside, managed + [""]);
    }
  }
}
