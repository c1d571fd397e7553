// The line classifiers of apps/api/src/agent-tools.ts accept exactly what their regular expressions match.

module TomlPatterns {
  import opened Options
  import opened Text
  import opened TomlLexer

  // \s*
  predicate IsBlank(s: string) {
    forall c <- s :: IsSpace(c)
  }

  // \s* and then t
  ghost predicate IsAfterBlank(s: string, t: string) {
    exists blank :: IsBlank(blank) && s == blank + t
  }

  // (?:#.*)?
  predicate IsComment(s: string) {
    s == "" || (s[0] == '#' && OneLine(s))
  }

  // \s*(?:#.*)?$
  ghost predicate MatchesTail(s: string) {
    exists comment :: IsComment(comment) && IsAfterBlank(s, comment)
  }

  // ^\s*\[([^\]]+)\]\s*(?:#.*)?$ with this group
  ghost predicate MatchesSection(line: string, group: string) {
    && group != "" && ']' !in group
    && exists tail :: MatchesTail(tail) && IsAfterBlank(line, "[" + group + "]" + tail)
  }

  // ^\s*\[\[([^\]]+)\]\]\s*(?:#.*)?$ with this group: white space about a name is the group's here, and trimmed later.
  ghost predicate MatchesArray(line: string, group: string) {
    && group != "" && ']' !in group
    && exists tail :: MatchesTail(tail) && IsAfterBlank(line, "[[" + group + "]]" + tail)
  }

  // ^\s*key\s*=\s*(.+)$ with this group
  ghost predicate MatchesKey(line: string, key: string, group: string) {
    && group != "" && OneLine(group)
    && exists rest, value ::
         IsAfterBlank(line, key + rest) && IsAfterBlank(rest, "=" + value) && IsAfterBlank(value, group)
  }

  // ^\s*enabled\s*=\s*(true|false)\s*$ in any case, with this word as the group
  ghost predicate MatchesEnabled(line: string, word: string) {
    exists key, rest, value ::
      && IsInAnyCase(key, "enabled") && IsAfterBlank(line, key + rest) && IsAfterBlank(rest, "=" + value)
      && IsWordBetweenBlanks(value, word)
  }

  // Each small letter of the word may be a capital, which comes 32 before it.
  predicate IsInAnyCase(s: string, word: string) {
    |s| == |word| && forall i :: 0 <= i < |s| ==> s[i] == word[i] || s[i] as int == word[i] as int - 32
  }

  ghost predicate IsWordBetweenBlanks(s: string, word: string) {
    exists group, blank :: IsInAnyCase(group, word) && IsBlank(blank) && IsAfterBlank(s, group + blank)
  }

  // ---------------------------------------------------------------- white space

  lemma {:induction false} TrimStartOf(blank: string, s: string)
    requires IsBlank(blank)
    ensures TrimStart(blank + s) == TrimStart(s)
  {
    if blank == "" {
      assert blank + s == s;
    } else {
      assert (blank + s)[1..] == blank[1..] + s;
      TrimStartOf(blank[1..], s);
    }
  }

  lemma {:induction false} Trimmed(s: string)
    ensures IsAfterBlank(s, TrimStart(s))
  {
    if s != "" && IsSpace(s[0]) {
      Trimmed(s[1..]);
      var blank :| IsBlank(blank) && s[1..] == blank + TrimStart(s[1..]);
      OneMoreBlank(s, blank, TrimStart(s));
    } else {
      assert IsBlank("") && s == "" + s;
    }
  }

  lemma OneMoreBlank(s: string, blank: string, t: string)
    requires s != "" && IsSpace(s[0]) && IsBlank(blank) && s[1..] == blank + t
    ensures IsAfterBlank(s, t)
  {
    assert s == [s[0]] + blank + t;
    assert IsBlank([s[0]] + blank);
  }

  lemma AfterBlankTrims(s: string, t: string)
    ensures IsAfterBlank(s, t) ==> TrimStart(s) == TrimStart(t)
  {
    if blank :| IsBlank(blank) && s == blank + t { TrimStartOf(blank, t); }
  }

  // What follows the white space and begins with something else is what trimming leaves.
  lemma AfterBlankIff(s: string, t: string)
    requires t != "" ==> !IsSpace(t[0])
    ensures IsAfterBlank(s, t) <==> TrimStart(s) == t
  {
    hide IsAfterBlank, IsSpace;
    AfterBlankTrims(s, t);
    TrimStartNone(t);
    Trimmed(s);
  }

  lemma {:induction false} TrimEndOf(s: string, blank: string)
    requires IsBlank(blank) && s != "" && !IsSpace(s[|s| - 1])
    ensures TrimEnd(s + blank) == s
  {
    if blank == "" {
      assert s + blank == s;
    } else {
      assert (s + blank)[..|s + blank| - 1] == s + blank[..|blank| - 1];
      TrimEndOf(s, blank[..|blank| - 1]);
    }
  }

  lemma {:induction false} TrimmedEnd(s: string) returns (blank: string)
    ensures IsBlank(blank) && s == TrimEnd(s) + blank
  {
    if s != "" && IsSpace(s[|s| - 1]) {
      var rest := TrimmedEnd(s[..|s| - 1]);
      blank := rest + [s[|s| - 1]];
    } else {
      blank := "";
    }
  }

  lemma NoSpaces()
    ensures !IsSpace('[') && !IsSpace('=') && !IsSpace('#')
  {}

  // ---------------------------------------------------------------- headers

  lemma TailIff(s: string)
    ensures IsTail(s) <==> MatchesTail(s)
  {
    hide IsAfterBlank, IsSpace, TrimStart, OneLine;
    NoSpaces();
    AfterBlankIff(s, TrimStart(s));
    if comment :| IsComment(comment) && IsAfterBlank(s, comment) { AfterBlankIff(s, comment); }
  }

  lemma SectionCut(t: string)
    requires t != "" && t[0] == '[' && IndexOf(t[1..], ']') < |t| - 1
    ensures var k := IndexOf(t[1..], ']'); t == "[" + t[1..k + 1] + "]" + t[k + 2..] && ']' !in t[1..k + 1]
  {}

  lemma SectionParts(group: string, tail: string)
    requires ']' !in group
    ensures var t := "[" + group + "]" + tail;
      && t[0] == '[' && IndexOf(t[1..], ']') == |group| && |t| == |group| + 2 + |tail|
      && t[1..|group| + 1] == group && t[|group| + 2..] == tail
  {
    var t := "[" + group + "]" + tail;
    IndexOfAt(group, ']', tail);
    assert t[1..] == group + [']'] + tail;
  }

  lemma SectionMatches(line: string)
    ensures SectionName(line).Some? ==>
              exists group :: MatchesSection(line, group) && SectionName(line).value == Trim(group)
  {
    hide IsTail, Trim, TrimStart, IsAfterBlank, MatchesTail;
    if SectionName(line).Some? {
      var t := TrimStart(line);
      var k := IndexOf(t[1..], ']');
      SectionCut(t);
      TailIff(t[k + 2..]);
      Trimmed(line);
      assert MatchesSection(line, t[1..k + 1]);
    }
  }

  lemma SectionReads(line: string, group: string)
    requires MatchesSection(line, group)
    ensures SectionName(line) == Some(Trim(group))
  {
    hide IsTail, Trim, TrimStart, IsSpace, IsAfterBlank, MatchesTail;
    var tail :| MatchesTail(tail) && IsAfterBlank(line, "[" + group + "]" + tail);
    NoSpaces();
    SectionParts(group, tail);
    AfterBlankIff(line, "[" + group + "]" + tail);
    TailIff(tail);
  }

  // Main result: a line is a section header of this name exactly when the pattern matches it with such a group.
  lemma SectionIff(line: string, name: string)
    ensures SectionName(line) == Some(name) <==> exists group :: MatchesSection(line, group) && name == Trim(group)
  {
    hide SectionName, MatchesSection;
    SectionMatches(line);
    if group :| MatchesSection(line, group) && name == Trim(group) { SectionReads(line, group); }
  }

  lemma ArrayCut(t: string)
    requires "[[" <= t && IndexOf(t[2..], ']') + 3 < |t|
    ensures var k := IndexOf(t[2..], ']');
      t[k + 3] == ']' ==> t == "[[" + t[2..k + 2] + "]]" + t[k + 4..] && ']' !in t[2..k + 2]
  {}

  lemma ArrayParts(group: string, tail: string)
    requires ']' !in group
    ensures var t := "[[" + group + "]]" + tail;
      && "[[" <= t && t[0] == '[' && IndexOf(t[2..], ']') == |group| && t[|group| + 3] == ']'
      && |t| == |group| + 4 + |tail| && t[2..|group| + 2] == group && t[|group| + 4..] == tail
  {
    var t := "[[" + group + "]]" + tail;
    IndexOfAt(group, ']', "]" + tail);
    assert t[2..] == group + [']'] + ("]" + tail);
  }

  lemma ArrayMatches(line: string)
    ensures ArrayName(line).Some? ==>
              exists group :: MatchesArray(line, group) && ArrayName(line).value == Trim(group)
  {
    hide IsTail, Trim, TrimStart, IsAfterBlank, MatchesTail;
    if ArrayName(line).Some? {
      var t := TrimStart(line);
      var k := IndexOf(t[2..], ']');
      ArrayCut(t);
      TailIff(t[k + 4..]);
      Trimmed(line);
      assert MatchesArray(line, t[2..k + 2]);
    }
  }

  lemma ArrayReads(line: string, group: string)
    requires MatchesArray(line, group)
    ensures ArrayName(line) == Some(Trim(group))
  {
    hide IsTail, Trim, TrimStart, IsSpace, IsAfterBlank, MatchesTail;
    var tail :| MatchesTail(tail) && IsAfterBlank(line, "[[" + group + "]]" + tail);
    NoSpaces();
    ArrayParts(group, tail);
    AfterBlankIff(line, "[[" + group + "]]" + tail);
    TailIff(tail);
  }

  lemma ArrayIff(line: string, name: string)
    ensures ArrayName(line) == Some(name) <==> exists group :: MatchesArray(line, group) && name == Trim(group)
  {
    hide ArrayName, MatchesArray;
    ArrayMatches(line);
    if group :| MatchesArray(line, group) && name == Trim(group) { ArrayReads(line, group); }
  }

  // ---------------------------------------------------------------- keys

  // The value, if this follows the equals sign.
  function ValueIn(s: string): Option<string> {
    var v := TrimStart(s);
    if v == "" then if s == "" || IsLineTerminator(s[|s| - 1]) then None else Some("")
    else if OneLine(v) then Some(v) else None
  }

  lemma ValueReads(s: string, group: string)
    requires group != "" && OneLine(group) && IsAfterBlank(s, group)
    ensures ValueIn(s) == Some(TrimStart(group))
  {
    hide TrimStart, IsLineTerminator;
    AfterBlankTrims(s, group);
    var blank :| IsBlank(blank) && s == blank + group;
    assert s[|s| - 1] == group[|group| - 1] && group[|group| - 1] in group;
    forall c | c in TrimStart(group) ensures c in group {}
  }

  lemma ValueMatches(s: string)
    ensures ValueIn(s).Some? ==>
              exists group :: group != "" && OneLine(group) && IsAfterBlank(s, group)
                              && ValueIn(s).value == TrimStart(group)
  {
    hide IsAfterBlank, IsLineTerminator, TrimStart;
    Trimmed(s);
    var v := TrimStart(s);
    if ValueIn(s).Some? {
      if v == "" {
        LastBlank(s);
      } else {
        TrimStartNone(v);
      }
    }
  }

  lemma LastBlank(s: string)
    requires s != "" && TrimStart(s) == ""
    ensures var last := s[|s| - 1..]; IsAfterBlank(s, last) && TrimStart(last) == "" && last == [s[|s| - 1]]
  {
    hide TrimStart;
    Trimmed(s);
    var blank :| IsBlank(blank) && s == blank + "";
    assert s == blank && s == s[..|s| - 1] + s[|s| - 1..];
    assert IsBlank(s[..|s| - 1]) && IsSpace(s[|s| - 1]);
    TrimStartOf(s[|s| - 1..], "");
    assert s[|s| - 1..] + "" == s[|s| - 1..] && TrimStart("") == "" by { NothingTrimmed(); }
  }

  lemma NothingTrimmed()
    ensures TrimStart("") == ""
  {}

  lemma KeyIsValueIn(line: string, key: string, rest: string, value: string)
    requires TrimStart(line) == key + rest && TrimStart(rest) == "=" + value
    ensures KeyValue(line, key) == ValueIn(value)
  {
    hide TrimStart, OneLine, IsLineTerminator;
    assert (key + rest)[|key|..] == rest && ("=" + value)[1..] == value;
    NothingTrimmed();
    if value != "" { assert ("=" + value)[|value|] == value[|value| - 1]; }
  }

  lemma KeyCut(line: string, key: string) returns (rest: string, value: string)
    requires key <= TrimStart(line)
    requires var u := TrimStart(TrimStart(line)[|key|..]); u != "" && u[0] == '='
    ensures TrimStart(line) == key + rest && TrimStart(rest) == "=" + value
  {
    hide TrimStart;
    rest := TrimStart(line)[|key|..];
    value := TrimStart(rest)[1..];
  }

  lemma KeyMatches(line: string, key: string)
    ensures KeyValue(line, key).Some? ==>
              exists group :: MatchesKey(line, key, group) && KeyValue(line, key).value == TrimStart(group)
  {
    if KeyValue(line, key).Some? {
      KeyHasEquals(line, key);
      hide TrimStart, OneLine, IsAfterBlank, ValueIn, KeyValue, IsLineTerminator;
      var rest, value := KeyCut(line, key);
      KeyIsValueIn(line, key, rest, value);
      ValueMatches(value);
      Trimmed(line);
      Trimmed(rest);
    }
  }

  lemma KeyHasEquals(line: string, key: string)
    requires KeyValue(line, key).Some?
    ensures key <= TrimStart(line)
    ensures var u := TrimStart(TrimStart(line)[|key|..]); u != "" && u[0] == '='
  {
    hide TrimStart;
  }

  lemma KeyReads(line: string, key: string, group: string)
    requires key != "" && !IsSpace(key[0]) && MatchesKey(line, key, group)
    ensures KeyValue(line, key) == Some(TrimStart(group))
  {
    hide TrimStart, OneLine, IsAfterBlank, ValueIn, KeyValue, IsSpace;
    var rest, value :|
      IsAfterBlank(line, key + rest) && IsAfterBlank(rest, "=" + value) && IsAfterBlank(value, group);
    NoSpaces();
    AfterBlankIff(line, key + rest);
    AfterBlankIff(rest, "=" + value);
    ValueReads(value, group);
    KeyIsValueIn(line, key, rest, value);
  }

  // Main result: a line sets a key to this value exactly when the pattern matches it with such a group.
  lemma KeyIff(line: string, key: string, value: string)
    requires key != "" && !IsSpace(key[0])
    ensures KeyValue(line, key) == Some(value) <==>
              exists group :: MatchesKey(line, key, group) && value == TrimStart(group)
  {
    hide TrimStart, KeyValue, MatchesKey, IsSpace;
    KeyMatches(line, key);
    if group :| MatchesKey(line, key, group) && value == TrimStart(group) { KeyReads(line, key, group); }
  }

  // ---------------------------------------------------------------- flags

  lemma SameEnds(s: string, word: string)
    requires SameIgnoringCase(s, word) && (word == "true" || word == "false" || word == "enabled")
    ensures |s| == |word| && s != "" && !IsSpace(s[0]) && !IsSpace(s[|s| - 1])
  {
    assert Lower(s[0]) == word[0] && Lower(s[|s| - 1]) == word[|word| - 1];
  }

  lemma InAnyCaseIff(s: string, word: string)
    requires word == "true" || word == "false" || word == "enabled"
    ensures IsInAnyCase(s, word) <==> SameIgnoringCase(s, word)
  {
    assert forall c <- word :: 'a' <= c <= 'z';
    if |s| == |word| {
      forall i | 0 <= i < |s|
        ensures Lower(s[i]) == Lower(word[i]) <==> s[i] == word[i] || s[i] as int == word[i] as int - 32
      {
        assert word[i] in word;
      }
    }
  }

  lemma NotBoth(s: string)
    ensures !(SameIgnoringCase(s, "true") && SameIgnoringCase(s, "false"))
  {}

  lemma WordIff(s: string, word: string)
    requires word == "true" || word == "false"
    ensures IsWordBetweenBlanks(s, word) <==> SameIgnoringCase(Trim(s), word)
  {
    hide IsAfterBlank, SameIgnoringCase, IsInAnyCase, IsSpace, TrimStart, TrimEnd, IsBlank;
    InAnyCaseIff(Trim(s), word);
    if SameIgnoringCase(Trim(s), word) {
      Trimmed(s);
      var blank := TrimmedEnd(TrimStart(s));
      assert TrimStart(s) == Trim(s) + blank;
    }
    if group, blank :| IsInAnyCase(group, word) && IsBlank(blank) && IsAfterBlank(s, group + blank) {
      InAnyCaseIff(group, word);
      SameEnds(group, word);
      AfterBlankIff(s, group + blank);
      TrimEndOf(group, blank);
    }
  }

  lemma EnabledAt(line: string, key: string, rest: string, value: string)
    requires TrimStart(line) == key + rest && TrimStart(rest) == "=" + value && SameIgnoringCase(key, "enabled")
    ensures EnabledValue(line) == if SameIgnoringCase(Trim(value), "true") then Some(true)
                                  else if SameIgnoringCase(Trim(value), "false") then Some(false) else None
  {
    hide TrimStart, Trim, SameIgnoringCase;
    SameEnds(key, "enabled");
    assert (key + rest)[..7] == key && (key + rest)[7..] == rest && ("=" + value)[1..] == value;
  }

  lemma EnabledMatches(line: string)
    ensures EnabledValue(line).Some? ==> MatchesEnabled(line, if EnabledValue(line).value then "true" else "false")
  {
    if EnabledValue(line).Some? {
      EnabledHasEquals(line);
      hide TrimStart, Trim, SameIgnoringCase, IsInAnyCase, EnabledValue, IsAfterBlank, IsWordBetweenBlanks;
      var key := TrimStart(line)[..7];
      InAnyCaseIff(key, "enabled");
      var rest, value := KeyCut(line, key);
      EnabledAt(line, key, rest, value);
      WordIff(value, "true");
      WordIff(value, "false");
      Trimmed(line);
      Trimmed(rest);
    }
  }

  lemma EnabledHasEquals(line: string)
    requires EnabledValue(line).Some?
    ensures |TrimStart(line)| >= 7 && SameIgnoringCase(TrimStart(line)[..7], "enabled")
    ensures var u := TrimStart(TrimStart(line)[7..]); u != "" && u[0] == '='
  {
    hide TrimStart, SameIgnoringCase;
  }

  lemma EnabledReads(line: string, word: string)
    requires (word == "true" || word == "false") && MatchesEnabled(line, word)
    ensures EnabledValue(line) == Some(word == "true")
  {
    hide TrimStart, Trim, SameIgnoringCase, IsInAnyCase, EnabledValue, IsAfterBlank, IsWordBetweenBlanks, IsSpace;
    var key, rest, value :|
      && IsInAnyCase(key, "enabled") && IsAfterBlank(line, key + rest) && IsAfterBlank(rest, "=" + value)
      && IsWordBetweenBlanks(value, word);
    NoSpaces();
    InAnyCaseIff(key, "enabled");
    SameEnds(key, "enabled");
    AfterBlankIff(line, key + rest);
    AfterBlankIff(rest, "=" + value);
    EnabledAt(line, key, rest, value);
    WordIff(value, word);
    NotBoth(Trim(value));
  }

  // Main result: a line switches a skill on or off exactly when the pattern matches it with that word.
  lemma EnabledIff(line: string, enabled: bool)
    ensures EnabledValue(line) == Some(enabled) <==> MatchesEnabled(line, if enabled then "true" else "false")
  {
    hide EnabledValue, MatchesEnabled;
    EnabledMatches(line);
    if MatchesEnabled(line, if enabled then "true" else "false") {
      EnabledReads(line, if enabled then "true" else "false");
    }
  }
}
