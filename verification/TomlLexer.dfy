// The line classifiers and value readers of apps/api/src/agent-tools.ts, one function per regular expression, and the
// quoting that they undo.

module TomlLexer {
  import opened Options
  import opened Text

  // \s*(?:#.*)?$
  predicate IsTail(s: string) {
    var t := TrimStart(s);
    t == "" || (t[0] == '#' && OneLine(t))
  }

  // /^\s*\[([^\]]+)\]\s*(?:#.*)?$/, its group trimmed.
  function SectionName(line: string): Option<string> {
    var t := TrimStart(line);
    if t == "" || t[0] != '[' then None
    else
      var k := IndexOf(t[1..], ']');
      if k == |t| - 1 || k == 0 || !IsTail(t[k + 2..]) then None else Some(Trim(t[1..k + 1]))
  }

  // /^\s*\[\[\s*([^\]]+?)\s*\]\]\s*(?:#.*)?$/, its group trimmed.
  function ArrayName(line: string): Option<string> {
    var t := TrimStart(line);
    if !("[[" <= t) then None
    else
      var k := IndexOf(t[2..], ']');
      if k + 3 >= |t| || k == 0 || t[k + 3] != ']' || !IsTail(t[k + 4..]) then None else Some(Trim(t[2..k + 2]))
  }

  predicate IsHeader(line: string) {
    SectionName(line).Some? || ArrayName(line).Some?
  }

  predicate IsManagedHeader(line: string) {
    var name := if ArrayName(line).Some? then ArrayName(line).value
                else if SectionName(line).Some? then SectionName(line).value else "";
    name == "mcp_servers" || "mcp_servers." <= name || name == "skills.config"
  }

  const MARKER := "# space-agent-tools-managed"

  predicate IsMarker(line: string) {
    Trim(line) == MARKER
  }

  // /^\s*key\s*=\s*(.+)$/, its group without leading white space.
  function KeyValue(line: string, key: string): Option<string> {
    var t := TrimStart(line);
    if !(key <= t) then None
    else
      var u := TrimStart(t[|key|..]);
      if u == "" || u[0] != '=' || u[1..] == "" then None
      else
        var v := TrimStart(u[1..]);
        if v == "" then if IsLineTerminator(u[|u| - 1]) then None else Some("")
        else if OneLine(v) then Some(v) else None
  }

  function Lower(c: char): char {
    if 'A' <= c <= 'Z' then (c as int + 32) as char else c
  }

  predicate SameIgnoringCase(a: string, b: string) {
    |a| == |b| && forall i :: 0 <= i < |a| ==> Lower(a[i]) == Lower(b[i])
  }

  // /^\s*enabled\s*=\s*(true|false)\s*$/i
  function EnabledValue(line: string): Option<bool> {
    var t := TrimStart(line);
    if |t| < 7 || !SameIgnoringCase(t[..7], "enabled") then None
    else
      var u := TrimStart(t[7..]);
      if u == "" || u[0] != '=' then None
      else
        var v := Trim(u[1..]);
        if SameIgnoringCase(v, "true") then Some(true)
        else if SameIgnoringCase(v, "false") then Some(false)
        else None
  }

  // replace(/\\"/g, '"')
  function UnescapeQuotes(s: string): string {
    if s == "" then ""
    else if |s| >= 2 && s[0] == '\\' && s[1] == '"' then "\"" + UnescapeQuotes(s[2..])
    else [s[0]] + UnescapeQuotes(s[1..])
  }

  // replace(/\\\\/g, "\\")
  function UnescapeBackslashes(s: string): string {
    if s == "" then ""
    else if |s| >= 2 && s[0] == '\\' && s[1] == '\\' then "\\" + UnescapeBackslashes(s[2..])
    else [s[0]] + UnescapeBackslashes(s[1..])
  }

  // replace(/"/g, '\\"')
  function EscapeQuotes(s: string): string {
    if s == "" then ""
    else if s[0] == '"' then "\\\"" + EscapeQuotes(s[1..])
    else [s[0]] + EscapeQuotes(s[1..])
  }

  // replace(/\\/g, "\\\\")
  function EscapeBackslashes(s: string): string {
    if s == "" then ""
    else if s[0] == '\\' then "\\\\" + EscapeBackslashes(s[1..])
    else [s[0]] + EscapeBackslashes(s[1..])
  }

  function Escape(s: string): string {
    EscapeQuotes(EscapeBackslashes(s))
  }

  function TomlString(value: string): string {
    "\"" + Escape(value) + "\""
  }

  predicate IsWordChar(c: char) {
    'A' <= c <= 'Z' || 'a' <= c <= 'z' || '0' <= c <= '9' || c == '_'
  }

  predicate IsBareKey(s: string) {
    s != "" && forall c <- s :: IsWordChar(c) || c == '-'
  }

  function TomlKey(value: string): string {
    if IsBareKey(value) then value else TomlString(value)
  }

  function ParseTomlString(value: string): Option<string> {
    var t := Trim(value);
    if |t| >= 2 && t[0] == '"' && t[|t| - 1] == '"' then Some(UnescapeBackslashes(UnescapeQuotes(t[1..|t| - 1])))
    else None
  }

  // "((?:[^"\\]|\\.)*)" after its opening quote: the content and what follows the closing quote.
  function ScanQuoted(s: string): (scan: Option<(string, string)>)
    ensures scan.Some? ==> |scan.value.1| < |s|
  {
    if s == "" then None
    else if s[0] == '"' then Some(("", s[1..]))
    else if s[0] == '\\' then
      if |s| < 2 || IsLineTerminator(s[1]) then None
      else
        match ScanQuoted(s[2..])
        case Some((content, rest)) => Some((s[..2] + content, rest))
        case None => None
    else
      match ScanQuoted(s[1..])
      case Some((content, rest)) => Some(([s[0]] + content, rest))
      case None => None
  }

  // matchAll: after a failed attempt the search goes on one character later.
  function ScanStrings(s: string): seq<string>
    decreases |s|
  {
    if s == "" then []
    else if s[0] == '"' && ScanQuoted(s[1..]).Some? then
      var (content, rest) := ScanQuoted(s[1..]).value;
      [UnescapeQuotes(content)] + ScanStrings(rest)
    else ScanStrings(s[1..])
  }

  function ParseTomlStringArray(value: string): seq<string> {
    var t := Trim(value);
    if |t| >= 2 && t[0] == '[' && t[|t| - 1] == ']' then ScanStrings(t[1..|t| - 1]) else []
  }

  datatype Pair = Pair(key: string, value: string)

  // Assignment to an object's property: an existing one keeps its place.
  function SetPair(pairs: seq<Pair>, p: Pair): seq<Pair> {
    if pairs == [] then [p]
    else if pairs[0].key == p.key then [p] + pairs[1..]
    else [pairs[0]] + SetPair(pairs[1..], p)
  }

  function WordLength(s: string): (n: nat)
    ensures n <= |s|
    ensures forall i :: 0 <= i < n ==> IsWordChar(s[i])
    ensures n < |s| ==> !IsWordChar(s[n])
  {
    if s != "" && IsWordChar(s[0]) then 1 + WordLength(s[1..]) else 0
  }

  // ([A-Za-z0-9_]+)\s*=\s*"([^"]*)" at the start of s: the pair and what follows it.
  function MatchPair(s: string): (found: Option<(Pair, string)>)
    ensures found.Some? ==> |found.value.1| < |s|
  {
    var n := WordLength(s);
    var t := TrimStart(s[n..]);
    if n == 0 || t == "" || t[0] != '=' then None
    else
      var u := TrimStart(t[1..]);
      if u == "" || u[0] != '"' then None
      else
        var k := IndexOf(u[1..], '"');
        if k == |u| - 1 then None else Some((Pair(s[..n], u[1..k + 1]), u[k + 2..]))
  }

  function ScanPairs(s: string, pairs: seq<Pair>): seq<Pair>
    decreases |s|
  {
    if s == "" then pairs
    else
      match MatchPair(s)
      case Some((pair, rest)) => ScanPairs(rest, SetPair(pairs, pair))
      case None => ScanPairs(s[1..], pairs)
  }

  // [] stands for the undefined result.
  function ParseTomlInlineEnv(value: string): seq<Pair> {
    var t := Trim(value);
    if |t| >= 2 && t[0] == '{' && t[|t| - 1] == '}' then ScanPairs(t[1..|t| - 1], []) else []
  }

  // replace(/^"|"$/g, "")
  function StripQuotes(s: string): string {
    var t := if s != "" && s[0] == '"' then s[1..] else s;
    if t != "" && t[|t| - 1] == '"' then t[..|t| - 1] else t
  }

  // ---------------------------------------------------------------- quoting round trips

  lemma {:induction false} EscapeQuotesUndone(s: string)
    ensures UnescapeQuotes(EscapeQuotes(s)) == s
  {
    if s != "" {
      EscapeQuotesUndone(s[1..]);
      var rest := EscapeQuotes(s[1..]);
      if s[0] == '"' {
        assert EscapeQuotes(s)[2..] == rest;
      } else {
        assert EscapeQuotes(s)[1..] == rest;
        assert rest != "" ==> rest[0] != '"';
      }
    }
  }

  lemma {:induction false} EscapeBackslashesUndone(s: string)
    ensures UnescapeBackslashes(EscapeBackslashes(s)) == s
  {
    if s != "" {
      EscapeBackslashesUndone(s[1..]);
      var rest := EscapeBackslashes(s[1..]);
      if s[0] == '\\' {
        assert EscapeBackslashes(s)[2..] == rest;
      } else {
        assert EscapeBackslashes(s)[1..] == rest;
      }
    }
  }

  lemma QuotedTrim(value: string)
    ensures Trim(TomlString(value)) == TomlString(value) && TrimStart(TomlString(value)) == TomlString(value)
  {
    TrimNone(TomlString(value));
  }

  // Main result: the two-pass unescape undoes the escape, for every string.
  lemma StringRoundTrip(value: string)
    ensures ParseTomlString(TomlString(value)) == Some(value)
  {
    QuotedTrim(value);
    var t := TomlString(value);
    assert t[1..|t| - 1] == Escape(value);
    EscapeQuotesUndone(EscapeBackslashes(value));
    EscapeBackslashesUndone(value);
  }

  // A quoted string is scanned up to its closing quote.
  lemma {:induction false} ScanQuotedEscape(value: string, rest: string)
    ensures ScanQuoted(Escape(value) + "\"" + rest) == Some((Escape(value), rest))
    decreases |value|
  {
    var s := Escape(value) + "\"" + rest;
    if value == "" {
      assert s == "\"" + rest;
    } else {
      ScanQuotedEscape(value[1..], rest);
      var tail := Escape(value[1..]) + "\"" + rest;
      EscapeCons(value);
      if value[0] == '"' || value[0] == '\\' {
        assert s[2..] == tail;
        assert Escape(value) == s[..2] + Escape(value[1..]);
      } else {
        assert s[1..] == tail;
      }
    }
  }

  lemma EscapeCons(value: string)
    requires value != ""
    ensures Escape(value)
            == (if value[0] == '"' then "\\\"" else if value[0] == '\\' then "\\\\" else [value[0]])
               + Escape(value[1..])
  {
    var rest := EscapeBackslashes(value[1..]);
    if value[0] == '\\' {
      assert EscapeBackslashes(value) == "\\\\" + rest;
      assert ("\\\\" + rest)[1..] == "\\" + rest;
      assert EscapeQuotes("\\" + rest) == "\\" + EscapeQuotes(rest) by { assert ("\\" + rest)[1..] == rest; }
    } else {
      assert EscapeBackslashes(value)[1..] == rest;
    }
  }
}
