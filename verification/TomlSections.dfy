// Which lines of a config are read as a server or a skill and which stay outside, for any text
// (apps/api/src/agent-tools.ts).

module TomlSections {
  import opened Options
  import opened Text
  import opened TomlLexer
  import opened TomlConfig
  import opened TomlValues
  import opened TomlRoundTrip
  import opened TomlRewrite
  import opened ManagedToml

  // The lines up to the next section header.
  function Body(lines: seq<string>): seq<string> {
    if lines == [] || SectionName(lines[0]).Some? then [] else [lines[0]] + Body(lines[1..])
  }

  lemma {:induction false} BodyEnds(lines: seq<string>)
    ensures var n := |Body(lines)|;
      && n <= |lines| && Body(lines) == lines[..n]
      && (forall i :: 0 <= i < n ==> SectionName(lines[i]) == None)
      && (n < |lines| ==> SectionName(lines[n]).Some?)
  {
    hide SectionName;
    if lines != [] { BodyEnds(lines[1..]); }
  }

  // The server that a section header opens.
  function Opened(line: string): Option<string> {
    match SectionName(line)
    case None => None
    case Some(name) =>
      if "mcp_servers." <= name then
        var server := StripQuotes(name[|"mcp_servers."|..]);
        if server == "" || '.' in server then None else Some(server)
      else None
  }

  function ReadLines(d: Draft, lines: seq<string>): Draft
    decreases |lines|
  {
    if lines == [] then d else ReadLines(ReadEntry(d, lines[0]), lines[1..])
  }

  // The server of the section that begins at line i.
  function SectionAt(lines: seq<string>, i: nat): Server
    requires i < |lines| && Opened(lines[i]).Some?
  {
    Finished(ReadLines(Draft(Opened(lines[i]).value, None, [], None, []), Body(lines[i + 1..])))
  }

  // One server for each header that opens one, read from the lines up to the next section header and no others.
  function Sections(lines: seq<string>): seq<Server>
    decreases |lines|
  {
    if lines == [] then []
    else (if Opened(lines[0]).Some? then [SectionAt(lines, 0)] else []) + Sections(lines[1..])
  }

  // What is still open when the lines begin.
  function Continued(s: ServerScan, lines: seq<string>): seq<Server> {
    match s.current
    case None => s.servers
    case Some(d) => SetServer(s.servers, Finished(ReadLines(d, Body(lines))))
  }

  lemma ScanFirst(s: ServerScan, lines: seq<string>)
    requires lines != []
    ensures ScanServers(s, lines) == ScanServers(ServerLine(s, lines[0]), lines[1..])
  {
    hide ServerLine;
    ScanServersAppend(s, [lines[0]], lines[1..]);
    ScanServersOne(s, lines[0]);
    assert lines == [lines[0]] + lines[1..];
  }

  lemma LineContinues(s: ServerScan, lines: seq<string>)
    requires lines != []
    ensures SetServers(Continued(ServerLine(s, lines[0]), lines[1..]), Sections(lines[1..]))
         == SetServers(Continued(s, lines), Sections(lines))
  {
    hide SectionName, ReadEntry, StripQuotes;
    var rest := Sections(lines[1..]);
    if SectionName(lines[0]).Some? {
      assert Body(lines) == [];
      if Opened(lines[0]).Some? {
        assert lines[0 + 1..] == lines[1..];
        assert Sections(lines) == [SectionAt(lines, 0)] + rest;
        assert Sections(lines)[1..] == rest;
      } else {
        assert [] + rest == rest;
      }
    } else {
      assert [] + rest == rest;
      assert Body(lines)[1..] == Body(lines[1..]);
    }
  }

  lemma {:induction false} ScanIsSections(s: ServerScan, lines: seq<string>)
    ensures ScanServers(s, lines).Flush().servers == SetServers(Continued(s, lines), Sections(lines))
    decreases |lines|
  {
    hide ServerLine, Opened, ReadEntry, Finished;
    if lines != [] {
      ScanFirst(s, lines);
      ScanIsSections(ServerLine(s, lines[0]), lines[1..]);
      LineContinues(s, lines);
    }
  }

  lemma ServersAreSections(lines: seq<string>)
    ensures ServersOf(lines) == SetServers([], Sections(lines))
  {
    ScanIsSections(NO_SERVERS, lines);
  }

  // ---------------------------------------------------------------- the last header of a name decides

  // The last of some servers with a name.
  ghost predicate IsLast(list: seq<Server>, s: Server, k: int) {
    0 <= k < |list| && list[k] == s && forall j :: k < j < |list| ==> list[j].name != s.name
  }

  lemma {:induction false} SetOne(servers: seq<Server>, s: Server, t: Server)
    requires DistinctNames(servers)
    ensures DistinctNames(SetServer(servers, s))
    ensures t in SetServer(servers, s) <==> t == s || (t in servers && t.name != s.name)
    ensures forall u <- SetServer(servers, s) :: u == s || u in servers
  {
    if servers != [] {
      var rest := SetServer(servers[1..], s);
      assert servers == [servers[0]] + servers[1..];
      SetOne(servers[1..], s, t);
      forall u | u in servers[1..] ensures u.name != servers[0].name {
        var j :| 0 <= j < |servers[1..]| && servers[1..][j] == u;
      }
      if servers[0].name != s.name {
        forall j | 0 <= j < |rest| ensures rest[j].name != servers[0].name { assert rest[j] in rest; }
      }
    }
  }

  lemma {:induction false} LastOfMore(more: seq<Server>, t: Server)
    requires more != []
    ensures (exists k :: IsLast(more, t, k)) <==>
              (exists k :: IsLast(more[1..], t, k)) || (t == more[0] && forall m <- more[1..] :: m.name != t.name)
  {
    if k :| IsLast(more, t, k) {
      if k > 0 { assert IsLast(more[1..], t, k - 1); }
    }
    if k :| IsLast(more[1..], t, k) { assert IsLast(more, t, k + 1); }
    if t == more[0] && forall m <- more[1..] :: m.name != t.name { assert IsLast(more, t, 0); }
  }

  // Setting one server after the other keeps the last of each name.
  lemma {:induction false} SetKeepsLast(servers: seq<Server>, more: seq<Server>, t: Server)
    requires DistinctNames(servers)
    ensures DistinctNames(SetServers(servers, more))
    ensures t in SetServers(servers, more) <==>
              (exists k :: IsLast(more, t, k)) || (t in servers && forall m <- more :: m.name != t.name)
    decreases |more|
  {
    hide DistinctNames, SetServer, IsLast;
    if more == [] {
      assert !exists k :: IsLast(more, t, k) by { NoLast(t); }
    } else {
      SetOne(servers, more[0], t);
      SetKeepsLast(SetServer(servers, more[0]), more[1..], t);
      LastOfMore(more, t);
      assert more == [more[0]] + more[1..];
      LastIsIn(more[1..], t);
    }
  }

  lemma NoLast(t: Server)
    ensures !exists k :: IsLast([], t, k)
  {}

  lemma LastIsIn(list: seq<Server>, t: Server)
    ensures (exists k :: IsLast(list, t, k)) ==> exists m <- list :: m.name == t.name
  {}

  // Main result, for any text: the servers read are, for each name, the one of the last section that a header of this
  // name opens, read from the lines up to the next section header of any kind and from no others.
  lemma ServerIsItsLastSection(raw: string, s: Server)
    ensures DistinctNames(ServersOf(Lines(raw)))
    ensures s in ServersOf(Lines(raw)) <==> exists k :: IsLast(Sections(Lines(raw)), s, k)
  {
    hide SetServers, Sections, Lines, IsLast;
    ServersAreSections(Lines(raw));
    SetKeepsLast([], Sections(Lines(raw)), s);
  }

  // ---------------------------------------------------------------- what a section says

  // The last line of the section that sets the key.
  ghost predicate IsLastKey(body: seq<string>, key: string, i: int) {
    && 0 <= i < |body| && KeyValue(body[i], key).Some?
    && forall k :: i < k < |body| ==> KeyValue(body[k], key) == None
  }

  lemma OneKey(line: string)
    ensures KeyValue(line, "command").Some? ==> KeyValue(line, "url").None? && KeyValue(line, "args").None?
    ensures KeyValue(line, "url").Some? ==> KeyValue(line, "args").None?
    ensures KeyValue(line, "env").Some? ==>
              KeyValue(line, "command").None? && KeyValue(line, "url").None? && KeyValue(line, "args").None?
  {
    hide KeyValue, TrimStart;
    KeyStarts(line, "command");
    KeyStarts(line, "url");
    KeyStarts(line, "args");
    KeyStarts(line, "env");
    assert "command"[0] == 'c' && "url"[0] == 'u' && "args"[0] == 'a' && "env"[0] == 'e';
  }

  lemma KeyStarts(line: string, key: string)
    requires key != ""
    ensures KeyValue(line, key).Some? ==> TrimStart(line) != "" && TrimStart(line)[0] == key[0]
  {
    hide TrimStart;
  }

  lemma EntryReads(d: Draft, line: string)
    ensures var e := ReadEntry(d, line);
      && e.name == d.name
      && e.command == (if KeyValue(line, "command").Some? then ParseTomlString(KeyValue(line, "command").value)
                       else d.command)
      && e.url == (if KeyValue(line, "url").Some? then ParseTomlString(KeyValue(line, "url").value) else d.url)
      && e.args == (if KeyValue(line, "args").Some? then ParseTomlStringArray(KeyValue(line, "args").value) else d.args)
  {
    hide KeyValue, ParseTomlString, ParseTomlStringArray, ParseTomlInlineEnv, SetPairs, Trim;
    OneKey(line);
  }

  // Of several lines that set the same key the last one counts.
  lemma {:induction false} LastLineCounts(d: Draft, body: seq<string>, i: int)
    ensures ReadLines(d, body).name == d.name
    ensures IsLastKey(body, "command", i) ==>
              ReadLines(d, body).command == ParseTomlString(KeyValue(body[i], "command").value)
    ensures IsLastKey(body, "url", i) ==> ReadLines(d, body).url == ParseTomlString(KeyValue(body[i], "url").value)
    ensures IsLastKey(body, "args", i) ==>
              ReadLines(d, body).args == ParseTomlStringArray(KeyValue(body[i], "args").value)
    ensures (forall line <- body :: KeyValue(line, "command") == None) ==> ReadLines(d, body).command == d.command
    ensures (forall line <- body :: KeyValue(line, "url") == None) ==> ReadLines(d, body).url == d.url
    ensures (forall line <- body :: KeyValue(line, "args") == None) ==> ReadLines(d, body).args == d.args
    decreases |body|
  {
    hide KeyValue, ParseTomlString, ParseTomlStringArray, ReadEntry;
    if body != [] {
      EntryReads(d, body[0]);
      LastLineCounts(ReadEntry(d, body[0]), body[1..], i - 1);
      assert body == [body[0]] + body[1..];
    }
  }

  // An env that is given as a string is read under its key with the opening quote, and with the key in its value.
  lemma StringEnvIsMisread(d: Draft, key: string, value: string)
    requires Plain(key) && Plain(value) && OneLine(key) && OneLine(value) && '=' !in key
    requires key != "" ==> !IsSpace(key[|key| - 1])
    ensures ReadEntry(d, "env = \"" + key + "=" + value + "\"").env
         == SetPair(d.env, Pair("\"" + key, key + "=" + value))
  {
    hide KeyValue, Trim, LooseEnv, ParseTomlInlineEnv, SetPair, SetPairs, Escape, IsSpace, OneLine;
    var quoted := TomlString(key + "=" + value);
    PlainEscape(key + "=" + value);
    assert "env = \"" + key + "=" + value + "\"" == "env" + " = " + quoted;
    EnvReads(quoted) by { TextOneLine(key, value); QuoteIsNoSpace(); }
    OneKey("env" + " = " + quoted);
    QuotedTrim(key + "=" + value);
    StringIsLoose(d, key, value);
  }

  lemma EnvReads(quoted: string)
    requires quoted != "" && !IsSpace(quoted[0]) && OneLine(quoted)
    ensures KeyValue("env" + " = " + quoted, "env") == Some(quoted)
  {
    KeyReadsValue("env", quoted);
  }

  lemma StringIsLoose(d: Draft, key: string, value: string)
    requires Plain(key) && Plain(value) && '=' !in key && (key != "" ==> !IsSpace(key[|key| - 1]))
    ensures LooseEnv(d, TomlString(key + "=" + value)).env == SetPair(d.env, Pair("\"" + key, key + "=" + value))
  {
    hide Trim, ParseTomlString, SetPair, IsSpace, TomlString, Plain;
    StringRoundTrip(key + "=" + value);
    QuotedKey(key, value);
  }

  lemma QuotedKey(key: string, value: string)
    requires Plain(key) && Plain(value) && '=' !in key && (key != "" ==> !IsSpace(key[|key| - 1]))
    ensures var quoted := TomlString(key + "=" + value); Trim(quoted[..IndexOf(quoted, '=')]) == "\"" + key
  {
    hide Trim, IsSpace, Escape;
    PlainEscape(key + "=" + value);
    QuoteIsNoSpace();
    var head, tail := "\"" + key, value + "\"";
    assert TomlString(key + "=" + value) == head + ['='] + tail;
    IndexOfAt(head, '=', tail);
    assert (head + ['='] + tail)[..|head|] == head;
    TrimNone(head);
  }

  lemma TextOneLine(key: string, value: string)
    requires OneLine(key) && OneLine(value)
    ensures OneLine(TomlString(key + "=" + value))
  {
    StringOneLine(key + "=" + value);
  }

  // ---------------------------------------------------------------- skills

  predicate IsSectionOrArray(line: string) {
    SectionName(line).Some? || ArrayName(line).Some?
  }

  // The lines up to the next header of either kind.
  function SkillBody(lines: seq<string>): seq<string> {
    if lines == [] || IsSectionOrArray(lines[0]) then [] else [lines[0]] + SkillBody(lines[1..])
  }

  lemma {:induction false} SkillBodyEnds(lines: seq<string>)
    ensures var n := |SkillBody(lines)|;
      && n <= |lines| && SkillBody(lines) == lines[..n]
      && (forall i :: 0 <= i < n ==> SectionName(lines[i]) == None && ArrayName(lines[i]) == None)
      && (n < |lines| ==> SectionName(lines[n]).Some? || ArrayName(lines[n]).Some?)
  {
    hide SectionName, ArrayName;
    if lines != [] { SkillBodyEnds(lines[1..]); }
  }

  function ReadSkillEntry(k: Skill, line: string): Skill {
    if KeyValue(line, "path").Some? then
      var value := ParseTomlString(KeyValue(line, "path").value);
      k.(path := if value.Some? then value.value else "")
    else if EnabledValue(line).Some? then k.(enabled := EnabledValue(line).value)
    else k
  }

  function ReadSkillLines(k: Skill, lines: seq<string>): Skill
    decreases |lines|
  {
    if lines == [] then k else ReadSkillLines(ReadSkillEntry(k, lines[0]), lines[1..])
  }

  // One skill for each `[[skills.config]]`, read from the lines up to the next header and no others.
  function SkillSections(lines: seq<string>): seq<Skill>
    decreases |lines|
  {
    if lines == [] then []
    else
      (if ArrayName(lines[0]) == Some("skills.config") then
         [ReadSkillLines(Skill("", true), SkillBody(lines[1..]))] else [])
      + SkillSections(lines[1..])
  }

  function ContinuedSkills(s: SkillScan, lines: seq<string>): seq<Skill> {
    match s.current
    case None => s.entries
    case Some(k) => s.entries + [ReadSkillLines(k, SkillBody(lines))]
  }

  lemma SkillScanFirst(s: SkillScan, lines: seq<string>)
    requires lines != []
    ensures ScanSkills(s, lines) == ScanSkills(SkillLine(s, lines[0]), lines[1..])
  {
    hide SkillLine;
    ScanSkillsAppend(s, [lines[0]], lines[1..]);
    assert [lines[0]][..0] == [] && ScanSkills(s, [lines[0]]) == SkillLine(s, lines[0]);
    assert lines == [lines[0]] + lines[1..];
  }

  lemma HeaderContinues(s: SkillScan, lines: seq<string>)
    requires lines != [] && IsSectionOrArray(lines[0])
    ensures ContinuedSkills(SkillLine(s, lines[0]), lines[1..]) + SkillSections(lines[1..])
         == ContinuedSkills(s, lines) + SkillSections(lines)
  {
    hide IsSectionOrArray, ReadSkillLines, KeyValue, EnabledValue, ParseTomlString, SectionName, ArrayName;
    var scan := SkillLine(s, lines[0]);
    var opens := ArrayName(lines[0]) == Some("skills.config");
    assert SkillBody(lines) == [];
    assert s.Flush().entries == ContinuedSkills(s, lines) by { NothingRead(s, lines); }
    assert scan == if opens then SkillScan(s.Flush().entries, Some(Skill("", true))) else s.Flush() by {
      assert SectionName(lines[0]).Some? || ArrayName(lines[0]).Some? by { HeaderKinds(lines[0]); }
    }
    var block := if opens then [ReadSkillLines(Skill("", true), SkillBody(lines[1..]))] else [];
    assert SkillSections(lines) == block + SkillSections(lines[1..]);
    assert ContinuedSkills(scan, lines[1..]) == ContinuedSkills(s, lines) + block;
  }

  lemma HeaderKinds(line: string)
    requires IsSectionOrArray(line)
    ensures SectionName(line).Some? || ArrayName(line).Some?
  {
    hide SectionName, ArrayName;
  }

  lemma NothingRead(s: SkillScan, lines: seq<string>)
    requires SkillBody(lines) == []
    ensures s.Flush().entries == ContinuedSkills(s, lines)
  {}

  lemma EntryContinues(s: SkillScan, lines: seq<string>)
    requires lines != [] && !IsSectionOrArray(lines[0])
    ensures ContinuedSkills(SkillLine(s, lines[0]), lines[1..]) + SkillSections(lines[1..])
         == ContinuedSkills(s, lines) + SkillSections(lines)
  {
    hide SectionName, ArrayName, SkillLine, ReadSkillEntry;
    EntryStep(s, lines[0]);
    assert SkillBody(lines) == [lines[0]] + SkillBody(lines[1..]);
    assert SkillBody(lines)[1..] == SkillBody(lines[1..]);
    assert SkillSections(lines) == [] + SkillSections(lines[1..]) == SkillSections(lines[1..]);
  }

  lemma EntryStep(s: SkillScan, line: string)
    requires !IsSectionOrArray(line)
    ensures SkillLine(s, line)
         == if s.current.Some? then s.(current := Some(ReadSkillEntry(s.current.value, line))) else s
  {
    hide SectionName, ArrayName, KeyValue, EnabledValue, ParseTomlString;
  }

  lemma {:induction false} SkillScanIsSections(s: SkillScan, lines: seq<string>)
    ensures ScanSkills(s, lines).Flush().entries == ContinuedSkills(s, lines) + SkillSections(lines)
    decreases |lines|
  {
    hide SkillLine, ArrayName, IsSectionOrArray;
    if lines != [] {
      SkillScanFirst(s, lines);
      SkillScanIsSections(SkillLine(s, lines[0]), lines[1..]);
      if IsSectionOrArray(lines[0]) { HeaderContinues(s, lines); } else { EntryContinues(s, lines); }
    }
  }

  // Main result, for any text: the skills read are, in order, those of the `[[skills.config]]` blocks that have a path,
  // each read from its own lines and no others.
  lemma SkillsAreSections(raw: string)
    ensures SkillsOf(Lines(raw)) == WithPath(SkillSections(Lines(raw)))
  {
    hide ScanSkills, SkillSections, Lines;
    SkillScanIsSections(NO_SKILLS, Lines(raw));
    assert [] + SkillSections(Lines(raw)) == SkillSections(Lines(raw));
  }

  // ---------------------------------------------------------------- the lines outside

  // The header that line i stands under, or is.
  ghost predicate IsHeaderOf(lines: seq<string>, h: int, i: int) {
    && 0 <= h <= i < |lines| && IsSectionOrArray(lines[h])
    && forall k :: h < k <= i ==> !IsSectionOrArray(lines[k])
  }

  // A section or array header with one of these names.
  ghost predicate OpensManaged(line: string) {
    exists name ::
      && (SectionName(line) == Some(name) || ArrayName(line) == Some(name))
      && (name == "mcp_servers" || "mcp_servers." <= name || name == "skills.config")
  }

  // A line that is neither a marker nor, as a header or under one, part of a managed section.
  ghost predicate IsOutside(lines: seq<string>, i: int) {
    && 0 <= i < |lines| && Trim(lines[i]) != "# space-agent-tools-managed"
    && forall h :: IsHeaderOf(lines, h, i) ==> !OpensManaged(lines[h])
  }

  lemma OpensManagedIff(line: string)
    ensures OpensManaged(line) <==> IsManagedHeader(line)
  {
    hide SectionName, ArrayName;
    ArrayIsNoSection(line);
    assert "mcp_servers." != "";
  }

  lemma SameKinds(line: string)
    ensures IsHeader(line) <==> IsSectionOrArray(line)
    ensures IsMarker(line) <==> Trim(line) == "# space-agent-tools-managed"
  {
    hide SectionName, ArrayName;
  }

  ghost function OutsideLines(lines: seq<string>, n: nat): seq<string>
    requires n <= |lines|
  {
    if n == 0 then []
    else OutsideLines(lines, n - 1) + if IsOutside(lines, n - 1) then [lines[n - 1]] else []
  }

  lemma MarkerIsNoHeader(line: string)
    requires IsMarker(line)
    ensures !IsHeader(line) && !IsManagedHeader(line)
  {
    var t := TrimStart(line);
    assert Trim(line)[0] == '#' && MARKER[0] == '#';
    assert t != "" && t[0] == '#';
    NoBracketNoHeader(line);
  }

  lemma NoBracketNoHeader(line: string)
    requires TrimStart(line) != "" && TrimStart(line)[0] != '['
    ensures !IsHeader(line) && !IsManagedHeader(line)
  {
    hide TrimStart;
    assert "[["[0] == '[';
    assert "mcp_servers." != "" && "mcp_servers" != "" && "skills.config" != "";
  }

  lemma ManagedIsHeader(line: string)
    requires IsManagedHeader(line)
    ensures IsHeader(line)
  {
    hide SectionName, ArrayName;
  }

  lemma SameHeader(lines: seq<string>, i: nat, before: int)
    requires i < |lines| && before == i - 1 && !IsSectionOrArray(lines[i])
    ensures forall h :: IsHeaderOf(lines, h, i) <==> IsHeaderOf(lines, h, before)
  {
    hide IsSectionOrArray;
  }

  // The scan is skipping exactly while the last header was a managed one.
  lemma {:induction false} SkippingIff(lines: seq<string>, n: nat)
    requires n <= |lines|
    ensures KeepLines(Kept([], false), lines[..n]).skipping <==>
              exists h :: IsHeaderOf(lines, h, n - 1) && OpensManaged(lines[h])
    ensures KeepLines(Kept([], false), lines[..n]).lines == OutsideLines(lines, n)
  {
    hide IsMarker, IsManagedHeader, IsHeader, IsSectionOrArray, OpensManaged, Trim;
    if n > 0 {
      var line := lines[n - 1];
      SameKinds(line);
      OpensManagedIff(line);
      assert lines[..n][..n - 1] == lines[..n - 1];
      SkippingIff(lines, n - 1);
      if IsMarker(line) { MarkerIsNoHeader(line); }
      if IsManagedHeader(line) { ManagedIsHeader(line); }
      if IsSectionOrArray(line) {
        assert IsHeaderOf(lines, n - 1, n - 1);
      } else {
        SameHeader(lines, n - 1, n - 2);
      }
    }
  }

  // Main result, for any text: a rewrite keeps, in order, exactly the lines that are no markers and whose last header
  // is not managed.
  lemma KeptAreOutside(lines: seq<string>)
    ensures KeptOf(lines) == OutsideLines(lines, |lines|)
  {
    hide KeepLines;
    assert lines[..|lines|] == lines;
    SkippingIff(lines, |lines|);
  }
}
