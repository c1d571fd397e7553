// The header line of a written server, and the name that the parser reads from it.

module ServerNames {
  import opened Options
  import opened Text
  import opened TomlLexer
  import opened TomlConfig
  import opened TomlValues

  function ServerHeader(name: string): string {
    "[mcp_servers." + TomlKey(name) + "]"
  }

  // The header's part up to its first closing bracket, and what follows that bracket.
  function HeaderParts(name: string): (string, string) {
    var key := TomlKey(name);
    var k := IndexOf(key, ']');
    if k == |key| then (key, "") else (key[..k], key[k + 1..] + "]")
  }

  // The server that a written header opens, if any.
  function ReadAs(name: string): Option<string> {
    var (key, tail) := HeaderParts(name);
    var read := StripQuotes(TrimEnd(key));
    if !IsTail(tail) || read == "" || '.' in read then None else Some(read)
  }

  // The names that survive.
  predicate GoodName(name: string) {
    name != "" && NoNewline(name) && Plain(name) && '.' !in name && ']' !in name
  }

  // ---------------------------------------------------------------- characters of a key

  lemma LetterIsNoSpace(c: char)
    requires 'a' <= c <= 'z' || c == '='
    ensures !IsSpace(c)
  {}

  lemma BracketIsNoSpace()
    ensures !IsSpace('[') && !IsSpace(']')
  {}

  lemma BareIsNoSpace(c: char)
    requires IsWordChar(c) || c == '-'
    ensures !IsSpace(c) && c != '"' && c != '\\' && c != ']' && c != '.'
  {}

  lemma {:induction false} EscapeMembers(s: string, c: char)
    requires c != '"' && c != '\\'
    ensures c in Escape(s) <==> c in s
  {
    if s != "" {
      EscapeCons(s);
      EscapeMembers(s[1..], c);
      assert s == [s[0]] + s[1..];
    }
  }

  lemma PlainCons(s: string)
    requires s != ""
    ensures Plain(s) <==> s[0] != '"' && s[0] != '\\' && Plain(s[1..])
  {
    assert s[0] in s && forall c <- s[1..] :: c in s;
    assert s == [s[0]] + s[1..];
  }

  lemma {:induction false} EscapeGrows(s: string)
    ensures |Escape(s)| >= |s| && (|Escape(s)| == |s| <==> Plain(s))
  {
    if s != "" {
      EscapeCons(s);
      EscapeGrows(s[1..]);
      PlainCons(s);
    }
  }

  // A key begins with a visible character and holds a closing bracket exactly if the name does.
  lemma KeyShape(name: string)
    ensures var key := TomlKey(name);
      key != "" && !IsSpace(key[0]) && key[0] != ']' && !IsSpace(key[|key| - 1])
      && (']' in key <==> ']' in name)
  {
    hide IsSpace, Escape;
    var key := TomlKey(name);
    QuoteIsNoSpace();
    if IsBareKey(name) {
      forall c | c in name ensures !IsSpace(c) && c != ']' { BareIsNoSpace(c); }
      assert key[0] in name && key[|key| - 1] in name;
    } else {
      EscapeMembers(name, ']');
      assert key == "\"" + Escape(name) + "\"";
      assert key[0] == '"' && key[|key| - 1] == '"';
    }
  }

  lemma {:induction false} TrimEndKeepsHead(s: string)
    requires s != "" && !IsSpace(s[0])
    ensures TrimEnd(s) != "" && TrimEnd(s)[0] == s[0]
  {
    if |s| > 1 { TrimEndKeepsHead(s[..|s| - 1]); }
  }

  // ---------------------------------------------------------------- the header

  lemma BlankTail()
    ensures IsTail("")
  {}

  lemma SectionThen(inner: string, tail: string)
    requires inner != "" && ']' !in inner && inner[0] == 'm'
    ensures var line := "[" + inner + "]" + tail;
      SectionName(line) == (if IsTail(tail) then Some(Trim(inner)) else None) && ArrayName(line).None?
  {
    hide IndexOf, Trim, IsTail, IsSpace;
    BracketIsNoSpace();
    var line := "[" + inner + "]" + tail;
    TrimStartNone(line);
    assert line[1..] == inner + [']'] + tail;
    IndexOfAt(inner, ']', tail);
    assert line[1..|inner| + 1] == inner && line[|inner| + 2..] == tail;
    assert line[1] == 'm';
    assert !("[[" <= line);
  }

  lemma PartsOfHeader(name: string)
    ensures var (key, tail) := HeaderParts(name);
      && ServerHeader(name) == "[" + ("mcp_servers." + key) + "]" + tail
      && key != "" && !IsSpace(key[0]) && ']' !in key
  {
    hide TomlKey, IsSpace;
    KeyShape(name);
    var key := TomlKey(name);
    var k := IndexOf(key, ']');
    if k < |key| {
      assert key == key[..k] + "]" + key[k + 1..];
    } else {
      assert ']' !in key;
    }
  }

  lemma TrimInner(key: string)
    requires key != "" && !IsSpace(key[0])
    ensures Trim("mcp_servers." + key) == "mcp_servers." + TrimEnd(key)
  {
    hide IsSpace, TrimEnd;
    LetterIsNoSpace('m');
    TrimStartNone("mcp_servers." + key);
    TrimEndKeepsHead(key);
    TrimEndSolid("mcp_servers.", key);
  }

  lemma InnerShape(key: string)
    ensures var inner := "mcp_servers." + key; inner != "" && inner[0] == 'm' && (']' in inner ==> ']' in key)
  {}

  // A written header is a section header of the managed kind or no header at all.
  lemma HeaderReads(name: string)
    ensures var (key, tail) := HeaderParts(name);
      SectionName(ServerHeader(name)) == if IsTail(tail) then Some("mcp_servers." + TrimEnd(key)) else None
    ensures ArrayName(ServerHeader(name)).None?
  {
    hide TomlKey, IsSpace, Trim, TrimEnd, TrimStart, IsTail, SectionName, ArrayName, HeaderParts, ServerHeader;
    PartsOfHeader(name);
    var (key, tail) := HeaderParts(name);
    InnerShape(key);
    SectionThen("mcp_servers." + key, tail);
    TrimInner(key);
  }

  lemma HeaderOpens(s: ServerScan, name: string)
    ensures var d := if ReadAs(name).Some? then Some(Draft(ReadAs(name).value, None, [], None, [])) else None;
      SectionName(ServerHeader(name)).Some? ==> ServerLine(s, ServerHeader(name)) == ServerScan(s.Flush().servers, d)
    ensures SectionName(ServerHeader(name)).None? ==> ReadAs(name).None?
  {
    hide TrimEnd, IsTail, SectionName, ArrayName, HeaderParts, ServerHeader, StripQuotes;
    HeaderReads(name);
    var (key, tail) := HeaderParts(name);
    assert ("mcp_servers." + TrimEnd(key))[|"mcp_servers."|..] == TrimEnd(key);
  }

  // ---------------------------------------------------------------- which names survive

  lemma PlainParts(name: string)
    requires ']' !in name
    ensures HeaderParts(name) == (TomlKey(name), "") && TrimEnd(TomlKey(name)) == TomlKey(name)
  {
    hide IsSpace, TomlKey;
    KeyShape(name);
  }

  lemma StripsQuotes(s: string)
    ensures StripQuotes("\"" + s + "\"") == s
  {
    var key := "\"" + s + "\"";
    assert key[1..] == s + "\"" && (s + "\"")[..|s|] == s;
  }

  lemma BareKept(name: string)
    requires IsBareKey(name)
    ensures StripQuotes(name) == name && Plain(name) && '.' !in name
  {
    forall c | c in name ensures c != '"' && c != '\\' && c != '.' { BareIsNoSpace(c); }
    assert name[0] in name && name[|name| - 1] in name;
  }

  // Without a closing bracket a name is read as it is written between the quotes, unless it is empty or has a dot.
  lemma ReadAsWritten(name: string)
    requires ']' !in name
    ensures ReadAs(name) == if name == "" || '.' in name then None
                            else if IsBareKey(name) then Some(name) else Some(Escape(name))
  {
    hide Escape, HeaderParts, TrimEnd, StripQuotes, IsBareKey, IsTail;
    PlainParts(name);
    BlankTail();
    if IsBareKey(name) {
      BareKept(name);
    } else {
      StripsQuotes(Escape(name));
      EscapeMembers(name, '.');
      EscapeGrows(name);
      if name == "" { EmptyEscape(); }
    }
  }

  lemma EmptyEscape()
    ensures Escape("") == ""
  {}

  lemma TrimmedMembers(s: string, c: char)
    requires c !in s
    ensures c !in TrimEnd(s) && c !in StripQuotes(TrimEnd(s))
  {}

  // No server is read under a name with a dot or a closing bracket, or under the empty name.
  lemma ReadNames(name: string)
    ensures ReadAs(name).Some? ==>
              ReadAs(name).value != "" && '.' !in ReadAs(name).value && ']' !in ReadAs(name).value
  {
    hide TrimEnd, StripQuotes, HeaderParts, ServerHeader, IsSpace;
    PartsOfHeader(name);
    TrimmedMembers(HeaderParts(name).0, ']');
  }

  // Exactly the names without dots, quotes, backslashes and closing brackets survive.
  lemma NameSurvivesIff(name: string)
    requires NoNewline(name)
    ensures ReadAs(name) == Some(name) <==> GoodName(name)
  {
    hide Escape, ReadAs, IsBareKey;
    ReadNames(name);
    if ']' !in name {
      ReadAsWritten(name);
      EscapeGrows(name);
      if Plain(name) { PlainEscape(name); }
      if IsBareKey(name) { BareKept(name); }
    }
  }
}
