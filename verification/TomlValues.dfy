// What each rendered line reads back as.

module TomlValues {
  import opened Options
  import opened Text
  import opened TomlLexer
  import opened TomlConfig

  predicate Plain(s: string) {
    forall c <- s :: c != '"' && c != '\\'
  }

  lemma {:induction false} PlainEscape(s: string)
    requires Plain(s)
    ensures Escape(s) == s
  {
    if s != "" {
      assert s[0] in s && forall c <- s[1..] :: c in s;
      EscapeCons(s);
      PlainEscape(s[1..]);
    }
  }

  lemma {:induction false} EscapeOneLine(s: string)
    requires OneLine(s)
    ensures OneLine(Escape(s))
  {
    if s != "" {
      EscapeCons(s);
      EscapeOneLine(s[1..]);
    }
  }

  lemma StringOneLine(s: string)
    requires OneLine(s)
    ensures OneLine(TomlString(s))
  {
    EscapeOneLine(s);
  }

  // ---------------------------------------------------------------- key = value lines

  // A line that begins with a letter is no header.
  lemma EntryIsNoHeader(line: string)
    requires line != "" && !IsSpace(line[0]) && line[0] != '['
    ensures SectionName(line).None? && ArrayName(line).None?
  {}

  lemma SpaceThen(x: string)
    requires x != "" && !IsSpace(x[0])
    ensures TrimStart(" " + x) == x
  {
    assert (" " + x)[1..] == x;
  }

  lemma EqualsIsNoSpace()
    ensures !IsSpace('=')
  {}

  // The regular expression's steps, one after the other.
  lemma KeyValueAt(line: string, key: string, u: string, v: string)
    ensures TrimStart(line) == line && key <= line && TrimStart(line[|key|..]) == u
            && |u| > 1 && u[0] == '=' && TrimStart(u[1..]) == v && v != "" && OneLine(v) ==>
              KeyValue(line, key) == Some(v)
  {
    hide TrimStart, OneLine;
  }

  lemma EntryPieces(key: string, v: string)
    ensures var line := key + " = " + v;
      && key <= line && line[|key|..] == " " + ("= " + v)
      && ("= " + v)[0] == '=' && ("= " + v)[1..] == " " + v && |"= " + v| > 1
  {}

  lemma KeyReadsValue(key: string, v: string)
    requires key != "" && !IsSpace(key[0]) && v != "" && !IsSpace(v[0]) && OneLine(v)
    ensures KeyValue(key + " = " + v, key) == Some(v)
  {
    hide TrimStart, IsSpace, OneLine, KeyValue;
    var line := key + " = " + v;
    assert line[0] == key[0];
    TrimStartNone(line);
    EntryPieces(key, v);
    EqualsIsNoSpace();
    SpaceThen("= " + v);
    SpaceThen(v);
    KeyValueAt(line, key, "= " + v, v);
  }

  lemma OtherKey(line: string, key: string)
    requires line != "" && !IsSpace(line[0]) && key != "" && key[0] != line[0]
    ensures KeyValue(line, key).None?
  {}

  // ---------------------------------------------------------------- string arrays

  function Doubled(args: seq<string>): (doubled: seq<string>)
    ensures |doubled| == |args|
  {
    if args == [] then [] else [EscapeBackslashes(args[0])] + Doubled(args[1..])
  }

  lemma ScanOneString(value: string, rest: string)
    ensures ScanStrings(TomlString(value) + rest) == [EscapeBackslashes(value)] + ScanStrings(rest)
  {
    var s := TomlString(value) + rest;
    ScanQuotedEscape(value, rest);
    assert s[1..] == Escape(value) + "\"" + rest;
    EscapeQuotesUndone(EscapeBackslashes(value));
  }

  lemma ScanSeparator(rest: string)
    ensures ScanStrings(", " + rest) == ScanStrings(rest)
  {
    assert (", " + rest)[1..] == " " + rest && (" " + rest)[1..] == rest;
  }

  lemma {:induction false} ScanList(args: seq<string>)
    ensures ScanStrings(Commas(Quoted(args))) == Doubled(args)
  {
    if |args| == 1 {
      ScanOneString(args[0], "");
      assert TomlString(args[0]) + "" == TomlString(args[0]);
      assert Quoted(args[1..]) == [] && Doubled(args[1..]) == [];
    } else if |args| > 1 {
      ScanList(args[1..]);
      var rest := Commas(Quoted(args[1..]));
      assert Quoted(args)[1..] == Quoted(args[1..]);
      assert Commas(Quoted(args)) == TomlString(args[0]) + (", " + rest);
      ScanOneString(args[0], ", " + rest);
      ScanSeparator(rest);
    }
  }

  // The array reader undoes only the quotes: backslashes come back doubled.
  lemma ArrayReadsBack(args: seq<string>)
    ensures ParseTomlStringArray("[" + Commas(Quoted(args)) + "]") == Doubled(args)
  {
    var t := "[" + Commas(Quoted(args)) + "]";
    TrimNone(t);
    assert t[1..|t| - 1] == Commas(Quoted(args));
    ScanList(args);
  }

  lemma {:induction false} EscapeBackslashesGrows(s: string)
    ensures |EscapeBackslashes(s)| >= |s|
    ensures |EscapeBackslashes(s)| == |s| <==> '\\' !in s
    ensures '\\' !in s ==> EscapeBackslashes(s) == s
  {
    if s != "" { EscapeBackslashesGrows(s[1..]); }
  }

  // Exactly the argument lists without backslashes survive.
  lemma {:induction false} ArrayRoundTripIff(args: seq<string>)
    ensures Doubled(args) == args <==> forall a <- args :: '\\' !in a
  {
    if args != [] {
      ArrayRoundTripIff(args[1..]);
      EscapeBackslashesGrows(args[0]);
      assert Doubled(args)[0] == EscapeBackslashes(args[0]) && Doubled(args)[1..] == Doubled(args[1..]);
      assert args == [args[0]] + args[1..];
    }
  }

  // ---------------------------------------------------------------- inline env tables

  predicate WordKey(key: string) {
    key != "" && forall c <- key :: IsWordChar(c)
  }

  // A pair that the table reader finds.
  predicate FoundPair(p: Pair) {
    WordKey(p.key) && '"' !in p.value
  }

  predicate GoodPair(p: Pair) {
    FoundPair(p) && OneLine(p.value)
  }

  // The table reader undoes no escape.
  function DoubledPair(p: Pair): Pair {
    Pair(p.key, EscapeBackslashes(p.value))
  }

  function DoubledValues(env: seq<Pair>): (doubled: seq<Pair>)
    ensures |doubled| == |env|
    ensures forall i :: 0 <= i < |env| ==> doubled[i] == DoubledPair(env[i])
  {
    seq(|env|, i requires 0 <= i < |env| => DoubledPair(env[i]))
  }

  ghost predicate DistinctKeys(pairs: seq<Pair>) {
    forall i, j :: 0 <= i < j < |pairs| ==> pairs[i].key != pairs[j].key
  }

  lemma {:induction false} WordLengthOf(key: string, rest: string)
    requires forall c <- key :: IsWordChar(c)
    requires rest != "" && !IsWordChar(rest[0])
    ensures WordLength(key + rest) == |key|
  {
    if key == "" {
      assert key + rest == rest;
    } else {
      assert (key + rest)[1..] == key[1..] + rest;
      WordLengthOf(key[1..], rest);
    }
  }

  lemma {:induction false} NoQuotes(s: string)
    requires '"' !in s
    ensures EscapeQuotes(s) == s
  {
    if s != "" { NoQuotes(s[1..]); }
  }

  lemma {:induction false} NoQuotesAdded(s: string)
    ensures '"' in EscapeBackslashes(s) <==> '"' in s
  {
    if s != "" {
      NoQuotesAdded(s[1..]);
      assert s == [s[0]] + s[1..];
    }
  }

  lemma EscapeUnquoted(s: string)
    requires '"' !in s
    ensures Escape(s) == EscapeBackslashes(s) && '"' !in Escape(s)
  {
    NoQuotesAdded(s);
    NoQuotes(EscapeBackslashes(s));
  }

  lemma QuotedMatch(value: string, rest: string)
    requires '"' !in value
    ensures var u, read := TomlString(value) + rest, EscapeBackslashes(value);
      && |u| >= |read| + 2 && u[0] == '"' && IndexOf(u[1..], '"') == |read|
      && u[1..|read| + 1] == read && u[|read| + 2..] == rest
  {
    hide Escape, EscapeBackslashes;
    EscapeUnquoted(value);
    var u, read := TomlString(value) + rest, EscapeBackslashes(value);
    assert u[1..] == read + ['"'] + rest;
    IndexOfAt(read, '"', rest);
  }

  lemma QuoteIsNoSpace()
    ensures !IsSpace('"') && !IsLineTerminator('"') && !IsWordChar(' ')
  {}

  // The regular expression's steps, one after the other.
  lemma MatchPairAt(s: string, n: nat, t: string, u: string, k: nat)
    ensures n == WordLength(s) && n > 0 && TrimStart(s[n..]) == t && t != "" && t[0] == '='
            && TrimStart(t[1..]) == u && u != "" && u[0] == '"' && IndexOf(u[1..], '"') == k && k + 2 <= |u| ==>
              MatchPair(s) == Some((Pair(s[..n], u[1..k + 1]), u[k + 2..]))
  {
    hide WordLength, TrimStart, IndexOf;
  }

  lemma AssignmentPieces(key: string, u: string)
    ensures var s := key + (" " + ("= " + u));
      && s[..|key|] == key && s[|key|..] == " " + ("= " + u) && (" " + ("= " + u))[0] == ' '
      && ("= " + u) != "" && ("= " + u)[0] == '=' && ("= " + u)[1..] == " " + u
  {}

  lemma AssignmentIs(p: Pair, rest: string)
    requires TomlKey(p.key) == p.key
    ensures Assignment(p) + rest == p.key + (" " + ("= " + (TomlString(p.value) + rest)))
  {
    hide TomlKey, Escape;
  }

  lemma MatchesPair(p: Pair, rest: string)
    requires FoundPair(p)
    ensures MatchPair(Assignment(p) + rest) == Some((DoubledPair(p), rest))
  {
    hide TomlString, TrimStart, IndexOf, WordLength, IsSpace, IsLineTerminator, IsWordChar, TomlKey, MatchPair,
         Assignment, EscapeBackslashes;
    var u := TomlString(p.value) + rest;
    QuotedMatch(p.value, rest);
    WordKeyOneLine(p.key);
    AssignmentIs(p, rest);
    AssignmentPieces(p.key, u);
    EqualsIsNoSpace();
    QuoteIsNoSpace();
    var tail := " " + ("= " + u);
    var s := p.key + tail;
    WordLengthOf(p.key, tail);
    SpaceThen("= " + u);
    SpaceThen(u);
    MatchPairAt(s, |p.key|, "= " + u, u, |EscapeBackslashes(p.value)|);
  }

  lemma ScanPairsSkips(c: char, rest: string, pairs: seq<Pair>)
    requires !IsWordChar(c)
    ensures ScanPairs([c] + rest, pairs) == ScanPairs(rest, pairs)
  {
    assert ([c] + rest)[1..] == rest;
  }

  lemma {:induction false} SetPairAppends(pairs: seq<Pair>, p: Pair)
    requires forall q <- pairs :: q.key != p.key
    ensures SetPair(pairs, p) == pairs + [p]
  {
    if pairs != [] { SetPairAppends(pairs[1..], p); }
  }

  lemma ScanPair(p: Pair, rest: string, before: seq<Pair>)
    requires FoundPair(p) && forall q <- before :: q.key != p.key
    ensures ScanPairs(Assignment(p) + rest, before) == ScanPairs(rest, before + [DoubledPair(p)])
  {
    hide FoundPair, Assignment, MatchPair;
    MatchesPair(p, rest);
    SetPairAppends(before, DoubledPair(p));
  }

  // The keys of the pairs are new.
  ghost predicate FreshKeys(before: seq<Pair>, env: seq<Pair>) {
    DistinctKeys(env) && forall q, p :: q in before && p in env ==> q.key != p.key
  }

  lemma FreshTail(before: seq<Pair>, env: seq<Pair>)
    requires env != [] && FreshKeys(before, env)
    ensures FreshKeys(before + [DoubledPair(env[0])], env[1..])
  {
    forall p | p in env[1..] ensures p.key != env[0].key && p in env {
      var i :| 1 <= i < |env| && env[i] == p;
    }
  }

  lemma {:induction false} ScanTable(env: seq<Pair>, before: seq<Pair>)
    requires (forall p <- env :: FoundPair(p)) && FreshKeys(before, env)
    ensures ScanPairs(Commas(Assignments(env)) + " ", before) == before + DoubledValues(env)
    decreases |env|
  {
    hide ScanPairs, FoundPair, Assignment, DistinctKeys, DoubledPair, DoubledValues;
    if env == [] {
      assert Commas(Assignments(env)) + " " == [' '] + "";
      ScanPairsSkips(' ', "", before);
      ScanNothing(before);
      assert before + DoubledValues(env) == before;
    } else {
      var first := DoubledPair(env[0]);
      assert DoubledValues(env) == [first] + DoubledValues(env[1..]);
      assert before + DoubledValues(env) == before + [first] + DoubledValues(env[1..]);
      FreshTail(before, env);
      ScanTable(env[1..], before + [first]);
      var rest := Commas(Assignments(env[1..])) + " ";
      AssignmentsCons(env);
      if |env| == 1 {
        ScanPair(env[0], " ", before);
        assert Assignments(env[1..]) == [] && rest == " ";
      } else {
        ScanPair(env[0], ", " + rest, before);
        assert ", " + rest == [','] + ([' '] + rest);
        ScanPairsSkips(',', [' '] + rest, before + [first]);
        ScanPairsSkips(' ', rest, before + [first]);
      }
    }
  }

  lemma ScanNothing(pairs: seq<Pair>)
    ensures ScanPairs("", pairs) == pairs
  {}

  lemma AssignmentsCons(env: seq<Pair>)
    requires env != []
    ensures var rest := Commas(Assignments(env[1..])) + " ";
      Commas(Assignments(env)) + " " == Assignment(env[0]) + (if |env| == 1 then " " else ", " + rest)
  {
    hide Assignment, Assignments, Commas;
    AssignmentsHeadTail(env);
    CommasThenSpace(Assignments(env));
  }

  lemma AssignmentsHeadTail(env: seq<Pair>)
    requires env != []
    ensures Assignments(env)[0] == Assignment(env[0]) && Assignments(env)[1..] == Assignments(env[1..])
  {
    hide Assignment;
  }

  lemma CommasThenSpace(items: seq<string>)
    requires items != []
    ensures Commas(items) + " " == items[0] + (if |items| == 1 then " " else ", " + (Commas(items[1..]) + " "))
  {
    if |items| > 1 { assert Commas(items) == items[0] + ", " + Commas(items[1..]); }
  }

  function TableText(env: seq<Pair>): string {
    "{ " + Commas(Assignments(env)) + " }"
  }

  lemma BracesAreNoSpace()
    ensures !IsSpace('{') && !IsSpace('}')
  {}

  // The table reader finds word keys and values without quotes, and leaves backslashes doubled.
  lemma TableReadsBack(env: seq<Pair>)
    requires (forall p <- env :: FoundPair(p)) && DistinctKeys(env)
    ensures ParseTomlInlineEnv(TableText(env)) == DoubledValues(env)
  {
    hide ScanPairs, FoundPair, DistinctKeys, Commas, Assignments, DoubledValues, Trim, TrimStart, TrimEnd, IsSpace;
    var inner := Commas(Assignments(env)) + " ";
    var t := TableText(env);
    BracesAreNoSpace();
    assert t[0] == '{' && t[|t| - 1] == '}';
    TrimNone(t);
    assert t[1..|t| - 1] == [' '] + inner;
    ScanPairsSkips(' ', inner, []);
    assert [] + DoubledValues(env) == DoubledValues(env);
    ScanTable(env, []);
  }

  // Whatever the text, the reader finds nothing else.
  lemma {:induction false} SetPairMembers(pairs: seq<Pair>, p: Pair)
    ensures forall q <- SetPair(pairs, p) :: q in pairs || q == p
  {
    if pairs != [] { SetPairMembers(pairs[1..], p); }
  }

  lemma MatchIsFound(s: string)
    ensures MatchPair(s).Some? ==> FoundPair(MatchPair(s).value.0)
  {
    hide TrimStart, IndexOf, IsWordChar;
    if MatchPair(s).Some? {
      var key := s[..WordLength(s)];
      forall c | c in key ensures IsWordChar(c) {}
      var u := TrimStart(TrimStart(s[WordLength(s)..])[1..]);
      var k := IndexOf(u[1..], '"');
      assert u[1..k + 1] == u[1..][..k];
    }
  }

  lemma {:induction false} ScanFindsFound(s: string, pairs: seq<Pair>)
    requires forall p <- pairs :: FoundPair(p)
    ensures forall p <- ScanPairs(s, pairs) :: FoundPair(p)
    decreases |s|
  {
    hide FoundPair, MatchPair, SetPair;
    if s != "" {
      match MatchPair(s)
      case Some((pair, rest)) =>
        MatchIsFound(s);
        SetPairMembers(pairs, pair);
        ScanFindsFound(rest, SetPair(pairs, pair));
      case None => ScanFindsFound(s[1..], pairs);
    }
  }

  // Exactly the tables with word keys and values without quotes and backslashes survive.
  lemma TableRoundTripIff(env: seq<Pair>)
    requires DistinctKeys(env)
    ensures ParseTomlInlineEnv(TableText(env)) == env <==> forall p <- env :: WordKey(p.key) && Plain(p.value)
  {
    hide ScanPairs, TableText, DoubledPair, EscapeBackslashes, WordKey, DistinctKeys, Trim;
    var t := Trim(TableText(env));
    if |t| >= 2 { ScanFindsFound(t[1..|t| - 1], []); }
    if forall p <- env :: FoundPair(p) {
      TableReadsBack(env);
      DoubledValuesIff(env);
    }
  }

  lemma DoubledValuesIff(env: seq<Pair>)
    ensures DoubledValues(env) == env <==> forall p <- env :: '\\' !in p.value
  {
    hide EscapeBackslashes;
    forall i | 0 <= i < |env| ensures DoubledValues(env)[i] == env[i] <==> '\\' !in env[i].value {
      EscapeBackslashesGrows(env[i].value);
    }
    if forall p <- env :: '\\' !in p.value { assert forall i :: 0 <= i < |env| ==> env[i] in env; }
  }

  lemma {:induction false} SetPairsFresh(pairs: seq<Pair>, more: seq<Pair>)
    requires DistinctKeys(pairs + more)
    ensures SetPairs(pairs, more) == pairs + more
    decreases |more|
  {
    if more == [] {
      assert pairs + more == pairs;
    } else {
      forall q | q in pairs ensures q.key != more[0].key {
        var i :| 0 <= i < |pairs| && pairs[i] == q;
        assert (pairs + more)[i] == q && (pairs + more)[|pairs|] == more[0];
      }
      SetPairAppends(pairs, more[0]);
      assert pairs + [more[0]] + more[1..] == pairs + more;
      SetPairsFresh(pairs + [more[0]], more[1..]);
    }
  }

  // ---------------------------------------------------------------- one line each of the rendered lists

  lemma {:induction false} QuotedOneLine(args: seq<string>)
    requires forall a <- args :: OneLine(a)
    ensures OneLine(Commas(Quoted(args)))
  {
    if args != [] {
      StringOneLine(args[0]);
      QuotedOneLine(args[1..]);
      assert Quoted(args)[1..] == Quoted(args[1..]);
    }
  }

  lemma WordKeyOneLine(key: string)
    requires WordKey(key)
    ensures TomlKey(key) == key && OneLine(key)
  {}

  lemma {:induction false} AssignmentsOneLine(env: seq<Pair>)
    requires forall p <- env :: GoodPair(p)
    ensures OneLine(Commas(Assignments(env)))
  {
    if env != [] {
      assert env[0] in env;
      StringOneLine(env[0].value);
      WordKeyOneLine(env[0].key);
      AssignmentsOneLine(env[1..]);
      assert Assignments(env)[1..] == Assignments(env[1..]);
    }
  }
}
