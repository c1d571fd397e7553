// Importing bookmarks into a browser profile's bookmark file (apps/api/src/browser-bookmarks.ts).

module Bookmarks {
  import opened Numbers
  import opened Options
  import opened Text

  // A node without children counts as one with an empty list of them, as it does everywhere in the source.
  datatype Node = Node(id: Option<string>, name: Option<string>, kind: Option<string>, url: Option<string>,
                       date: Option<string>, children: seq<Node>)

  datatype Root = Root(key: string, node: Node)

  datatype File = File(roots: Option<seq<Root>>)

  datatype Candidate = Candidate(title: string, url: string)

  // Whether browserBookmarkSchema accepts an id, a title, a url and a date.
  type Schema = (string, string, string, Option<string>) -> bool

  const MAX_CANDIDATES := 500
  const FOLDER := "Space imports"

  function OrEmpty(s: Option<string>): string {
    if s.Some? then s.value else ""
  }

  function Nodes(f: File): seq<Node> {
    var roots := if f.roots.Some? then f.roots.value else [];
    RootNodes(roots)
  }

  function RootNodes(roots: seq<Root>): (nodes: seq<Node>)
    ensures |nodes| == |roots|
    ensures forall i :: 0 <= i < |roots| ==> nodes[i] == roots[i].node
  {
    seq(|roots|, i requires 0 <= i < |roots| => roots[i].node)
  }

  // ---------------------------------------------------------------- numbers

  // Number.parseInt(s, 10)
  function ParseInt(s: string): Option<int> {
    var t := TrimStart(s);
    var signed := t != "" && (t[0] == '-' || t[0] == '+');
    var digits := if signed then t[1..] else t;
    var n := DigitsLength(digits);
    if n == 0 then None
    else
      var value: int := Value(digits[..n]);
      Some(if signed && t[0] == '-' then -value else value)
  }

  // White space, at most one sign, digits, and whatever does not go on with a digit.
  ghost predicate IsInteger(s: string, white: string, sign: string, digits: string, rest: string) {
    && s == white + (sign + (digits + rest)) && (forall c <- white :: IsSpace(c)) && sign in {"", "-", "+"}
    && IsNumeric(digits) && (rest != "" ==> !IsDigit(rest[0]))
  }

  function Signed(sign: string, n: nat): int {
    if sign == "-" then 0 - n else n
  }

  lemma {:induction false} TrimStartOf(white: string, t: string)
    requires (forall c <- white :: IsSpace(c)) && (t != "" ==> !IsSpace(t[0]))
    ensures TrimStart(white + t) == t
  {
    hide IsSpace;
    if white == "" {
      assert white + t == t;
    } else {
      assert (white + t)[1..] == white[1..] + t && white[0] in white;
      TrimStartOf(white[1..], t);
    }
  }

  lemma {:induction false} DigitsOf(digits: string, rest: string)
    requires (forall c <- digits :: IsDigit(c)) && (rest != "" ==> !IsDigit(rest[0]))
    ensures DigitsLength(digits + rest) == |digits|
  {
    if digits == "" {
      assert digits + rest == rest;
    } else {
      assert (digits + rest)[1..] == digits[1..] + rest;
      DigitsOf(digits[1..], rest);
    }
  }

  lemma ParsesDigits(sign: string, digits: string, rest: string)
    requires sign in {"", "-", "+"} && IsNumeric(digits) && (rest != "" ==> !IsDigit(rest[0]))
    ensures var t := sign + (digits + rest);
      && t != "" && !IsSpace(t[0])
      && (TrimStart(t) == t ==> ParseInt(t) == Some(Signed(sign, Value(digits))))
  {
    hide Value, IsSpace;
    var t := sign + (digits + rest);
    assert digits[0] in digits;
    DigitIsPlain(digits[0]);
    DigitsOf(digits, rest);
    assert (digits + rest)[..|digits|] == digits;
    assert !IsSpace('-') && !IsSpace('+') by { SignsArePlain(); }
    if sign == "" {
      assert t == digits + rest;
    } else {
      assert "-" != "+" by { assert "-"[0] != "+"[0]; }
      assert t[0] == sign[0] && t[1..] == digits + rest;
    }
  }

  lemma SignsArePlain()
    ensures !IsSpace('-') && !IsSpace('+')
  {}

  // An integer in front is read, whatever follows it.
  lemma ParseIntReads(s: string, white: string, sign: string, digits: string, rest: string)
    requires IsInteger(s, white, sign, digits, rest)
    ensures ParseInt(s) == Some(Signed(sign, Value(digits)))
  {
    hide Value, IsSpace, ParseInt;
    var t := sign + (digits + rest);
    ParsesDigits(sign, digits, rest);
    TrimStartOf(white, t);
    TrimStartOf("", t);
    assert "" + t == t;
    SameTrimmed(s, t);
  }

  lemma SameTrimmed(s: string, t: string)
    requires TrimStart(s) == TrimStart(t)
    ensures ParseInt(s) == ParseInt(t)
  {
    hide TrimStart, DigitsLength, Value;
  }

  lemma {:induction false} TrimStartSplits(s: string)
    ensures forall c <- s[..|s| - |TrimStart(s)|] :: IsSpace(c)
  {
    hide IsSpace;
    if s != "" && IsSpace(s[0]) {
      TrimStartSplits(s[1..]);
      var n := |s| - |TrimStart(s)|;
      assert s[..n] == [s[0]] + s[1..][..n - 1];
    }
  }

  lemma {:induction false} DigitsEnd(s: string)
    ensures DigitsLength(s) < |s| ==> !IsDigit(s[DigitsLength(s)])
  {
    if s != "" { DigitsEnd(s[1..]); }
  }

  lemma DigitsInFront(u: string) returns (digits: string, rest: string)
    requires DigitsLength(u) > 0
    ensures u == digits + rest && IsNumeric(digits) && (rest != "" ==> !IsDigit(rest[0]))
  {
    DigitsEnd(u);
    digits, rest := u[..DigitsLength(u)], u[DigitsLength(u)..];
  }

  lemma SignInFront(s: string) returns (sign: string)
    requires ParseInt(s).Some?
    ensures var t := TrimStart(s);
      && sign in {"", "-", "+"} && |sign| <= |t| && t == sign + t[|sign|..] && DigitsLength(t[|sign|..]) > 0
  {
    hide TrimStart, Value;
    var t := TrimStart(s);
    if t[0] == '-' || t[0] == '+' {
      sign := [t[0]];
    } else {
      sign := "";
      assert t[0..] == t && "" + t == t;
    }
  }

  // Nothing else is read as a number.
  lemma ParseIntFinds(s: string) returns (white: string, sign: string, digits: string, rest: string)
    requires ParseInt(s).Some?
    ensures IsInteger(s, white, sign, digits, rest)
  {
    hide ParseInt, IsSpace, TrimStart, DigitsLength, IsNumeric;
    var t := TrimStart(s);
    TrimStartSplits(s);
    white := s[..|s| - |t|];
    sign := SignInFront(s);
    digits, rest := DigitsInFront(t[|sign|..]);
    assert s == white + t;
  }

  // String(n)
  function Decimal(n: nat): (s: string)
    ensures IsNumeric(s) && Value(s) == n
  {
    var last := ['0' + (n % 10) as char];
    if n < 10 then last
    else
      var s := Decimal(n / 10) + last;
      assert s[..|s| - 1] == Decimal(n / 10);
      s
  }

  lemma DigitIsPlain(c: char)
    requires IsDigit(c)
    ensures !IsSpace(c) && c != '-' && c != '+'
  {}

  lemma DecimalParses(n: nat)
    ensures ParseInt(Decimal(n)) == Some(n)
  {
    hide Decimal, Value, IsSpace;
    var s := Decimal(n);
    assert s[0] in s;
    DigitIsPlain(s[0]);
    TrimStartNone(s);
    AllDigits(s);
    assert s[..|s|] == s;
  }

  lemma {:induction false} AllDigits(s: string)
    requires forall c <- s :: IsDigit(c)
    ensures DigitsLength(s) == |s|
  {
    if s != "" { AllDigits(s[1..]); }
  }

  // ---------------------------------------------------------------- visiting

  // The node and all below it, each without its children, in visiting order.
  function Flat(n: Node): seq<Node>
    decreases n
  {
    [n.(children := [])] + FlatAll(n.children)
  }

  function FlatAll(nodes: seq<Node>): seq<Node>
    decreases nodes
  {
    if nodes == [] then [] else Flat(nodes[0]) + FlatAll(nodes[1..])
  }

  predicate IsCollected(n: Node, valid: Schema) {
    && n.kind == Some("url") && OrEmpty(n.id) != "" && OrEmpty(n.url) != ""
    && valid(n.id.value, if OrEmpty(n.name) != "" then n.name.value else n.url.value, n.url.value, n.date)
  }

  // collectBookmarks, as the nodes that it turns into bookmarks.
  function Collect(n: Node, valid: Schema): seq<Node>
    decreases n
  {
    (if IsCollected(n, valid) then [n.(children := [])] else [])
    + CollectAll(n.children, valid)
  }

  function CollectAll(nodes: seq<Node>, valid: Schema): seq<Node>
    decreases nodes
  {
    if nodes == [] then [] else Collect(nodes[0], valid) + CollectAll(nodes[1..], valid)
  }

  function IdNumber(n: Node): int {
    var number := ParseInt(OrEmpty(n.id));
    if number.Some? then number.value else 0
  }

  // maxBookmarkId's visit
  function MaxId(n: Node, most: int): int
    decreases n
  {
    MaxIdAll(n.children, Max(most, IdNumber(n)))
  }

  function MaxIdAll(nodes: seq<Node>, most: int): int
    decreases nodes
  {
    if nodes == [] then most else MaxIdAll(nodes[1..], MaxId(nodes[0], most))
  }

  function MaxBookmarkId(f: File): int {
    MaxIdAll(Nodes(f), 0)
  }

  // What is collected is what the schema accepts among all nodes.
  function Accepted(flat: seq<Node>, valid: Schema): (collected: seq<Node>)
    ensures forall n :: n in collected <==> n in flat && IsCollected(n, valid)
  {
    if flat == [] then []
    else (if IsCollected(flat[0], valid) then [flat[0]] else []) + Accepted(flat[1..], valid)
  }

  lemma {:induction false} AcceptedAppend(a: seq<Node>, b: seq<Node>, valid: Schema)
    ensures Accepted(a + b, valid) == Accepted(a, valid) + Accepted(b, valid)
  {
    hide IsCollected;
    if a == [] {
      assert a + b == b;
    } else {
      assert (a + b)[1..] == a[1..] + b;
      AcceptedAppend(a[1..], b, valid);
    }
  }

  lemma {:induction false} CollectIsAccepted(n: Node, valid: Schema)
    ensures Collect(n, valid) == Accepted(Flat(n), valid)
    decreases n
  {
    hide IsCollected;
    var own := [n.(children := [])];
    CollectAllIsAccepted(n.children, valid);
    AcceptedAppend(own, FlatAll(n.children), valid);
    SameVerdict(n, valid);
    assert own[1..] == [] && Accepted([], valid) == [];
  }

  lemma SameVerdict(n: Node, valid: Schema)
    ensures IsCollected(n.(children := []), valid) == IsCollected(n, valid)
  {}

  lemma {:induction false} CollectAllIsAccepted(nodes: seq<Node>, valid: Schema)
    ensures CollectAll(nodes, valid) == Accepted(FlatAll(nodes), valid)
    decreases nodes
  {
    hide IsCollected;
    if nodes != [] {
      CollectIsAccepted(nodes[0], valid);
      CollectAllIsAccepted(nodes[1..], valid);
      AcceptedAppend(Flat(nodes[0]), FlatAll(nodes[1..]), valid);
    }
  }

  lemma {:induction false} MaxIdBounds(n: Node, most: int)
    ensures MaxId(n, most) >= most && forall x <- Flat(n) :: IdNumber(x) <= MaxId(n, most)
    decreases n
  {
    hide IdNumber;
    MaxIdAllBounds(n.children, Max(most, IdNumber(n)));
    SameNumber(n);
  }

  lemma SameNumber(n: Node)
    ensures IdNumber(n.(children := [])) == IdNumber(n)
  {}

  lemma {:induction false} MaxIdAllBounds(nodes: seq<Node>, most: int)
    ensures MaxIdAll(nodes, most) >= most && forall x <- FlatAll(nodes) :: IdNumber(x) <= MaxIdAll(nodes, most)
    decreases nodes
  {
    hide IdNumber;
    if nodes != [] {
      MaxIdBounds(nodes[0], most);
      MaxIdAllBounds(nodes[1..], MaxId(nodes[0], most));
    }
  }

  // ---------------------------------------------------------------- the folder

  const BAR := Node(Some("1"), Some("Bookmarks bar"), Some("folder"), None, None, [])

  function DefaultRoots(): seq<Root> {
    [Root("bookmark_bar", BAR),
     Root("other", Node(Some("2"), Some("Other bookmarks"), Some("folder"), None, None, [])),
     Root("synced", Node(Some("3"), Some("Mobile bookmarks"), Some("folder"), None, None, []))]
  }

  function BarIndex(roots: seq<Root>): (i: nat)
    ensures i <= |roots| && (i < |roots| ==> roots[i].key == "bookmark_bar")
  {
    if roots == [] || roots[0].key == "bookmark_bar" then 0 else 1 + BarIndex(roots[1..])
  }

  // The roots with a bookmark bar.
  function WithBar(f: File): (roots: seq<Root>)
    ensures BarIndex(roots) < |roots|
  {
    var roots := if f.roots.Some? then f.roots.value else DefaultRoots();
    if BarIndex(roots) < |roots| then roots
    else
      BarAppended(roots);
      roots + [Root("bookmark_bar", BAR)]
  }

  lemma {:induction false} BarAppended(roots: seq<Root>)
    requires BarIndex(roots) == |roots|
    ensures BarIndex(roots + [Root("bookmark_bar", BAR)]) == |roots|
  {
    if roots != [] {
      assert (roots + [Root("bookmark_bar", BAR)])[1..] == roots[1..] + [Root("bookmark_bar", BAR)];
      BarAppended(roots[1..]);
    }
  }

  predicate IsImportFolder(n: Node) {
    n.kind == Some("folder") && n.name == Some(FOLDER)
  }

  function FolderIndex(children: seq<Node>): (i: nat)
    ensures i <= |children| && (i < |children| ==> IsImportFolder(children[i]))
  {
    if children == [] || IsImportFolder(children[0]) then 0 else 1 + FolderIndex(children[1..])
  }

  // Where the import folder is: its root, and its place among that root's children.
  datatype Place = Place(roots: seq<Root>, bar: nat, folder: nat)

  predicate IsPlace(p: Place) {
    p.bar < |p.roots| && p.folder < |p.roots[p.bar].node.children|
  }

  // importedFolder
  function FindFolder(f: File, now: string): (p: Place)
    ensures IsPlace(p)
  {
    var roots := WithBar(f);
    var b := BarIndex(roots);
    var bar := roots[b].node;
    var i := FolderIndex(bar.children);
    if i < |bar.children| then Place(roots, b, i)
    else
      var id := Max(MaxBookmarkId(File(Some(roots))), 0) + 1;
      var folder := Node(Some(Decimal(id)), Some(FOLDER), Some("folder"), None, Some(now), []);
      var fuller := bar.(children := bar.children + [folder]);
      Place(roots[b := roots[b].(node := fuller)], b, i)
  }

  // The file with nodes pushed into the folder.
  function Pushed(p: Place, added: seq<Node>): File
    requires IsPlace(p)
  {
    var bar := p.roots[p.bar].node;
    var folder := bar.children[p.folder];
    var fuller := folder.(children := folder.children + added);
    File(Some(p.roots[p.bar := p.roots[p.bar].(node := bar.(children := bar.children[p.folder := fuller]))]))
  }

  // ---------------------------------------------------------------- the import

  function NormalizeTitle(title: string, fallback: string): string {
    var t := Trim(title);
    var full := if t != "" then t else fallback;
    if |full| <= 300 then full else full[..300]
  }

  datatype Import = Import(added: seq<Node>, urls: set<string>, nextId: nat, imported: nat, skipped: nat)

  function NewNode(id: nat, c: Candidate, now: string): Node {
    Node(Some(Decimal(id)), Some(NormalizeTitle(c.title, c.url)), Some("url"), Some(c.url), Some(now), [])
  }

  function ImportOne(s: Import, c: Candidate, now: string): Import {
    if c.url in s.urls then s.(skipped := s.skipped + 1)
    else Import(s.added + [NewNode(s.nextId, c, now)], s.urls + {c.url}, s.nextId + 1, s.imported + 1, s.skipped)
  }

  function ImportAll(s: Import, candidates: seq<Candidate>, now: string): Import {
    if candidates == [] then s
    else ImportOne(ImportAll(s, candidates[..|candidates| - 1], now), candidates[|candidates| - 1], now)
  }

  function UrlsOf(nodes: seq<Node>): set<string> {
    set n | n in nodes :: OrEmpty(n.url)
  }

  function Considered(candidates: seq<Candidate>): seq<Candidate> {
    if |candidates| <= MAX_CANDIDATES then candidates else candidates[..MAX_CANDIDATES]
  }

  function Begin(f: File, skipped: nat, now: string, valid: Schema): Import {
    var id := Max(MaxBookmarkId(Pushed(FindFolder(f, now), [])), 0) + 1;
    Import([], UrlsOf(CollectAll(Nodes(f), valid)), id, 0, skipped)
  }

  // What the import has done once the last candidate is considered.
  function Imported(f: File, candidates: seq<Candidate>, skipped: nat, now: string, valid: Schema): Import {
    ImportAll(Begin(f, skipped, now, valid), Considered(candidates), now)
  }

  function FileAfter(f: File, candidates: seq<Candidate>, skipped: nat, now: string, valid: Schema): File {
    Pushed(FindFolder(f, now), Imported(f, candidates, skipped, now, valid).added)
  }

  method ImportManagedBrowserBookmarks(f: File, candidates: seq<Candidate>, skipped: nat, now: string, valid: Schema)
    returns (written: File, importedCount: nat, skippedCount: nat)
    ensures written == FileAfter(f, candidates, skipped, now, valid)
    ensures importedCount == Imported(f, candidates, skipped, now, valid).imported
    ensures importedCount + skippedCount == |candidates| + skipped
  {
    hide FindFolder, Pushed, NewNode, CollectAll;
    var existingUrls := UrlsOf(CollectAll(Nodes(f), valid));
    var place := FindFolder(f, now);
    var nextId: nat := Max(MaxBookmarkId(Pushed(place, [])), 0) + 1;
    importedCount, skippedCount := 0, skipped;
    var added := [];
    var considered := Considered(candidates);
    ghost var start := Begin(f, skipped, now, valid);
    for i := 0 to |considered|
      invariant Import(added, existingUrls, nextId, importedCount, skippedCount)
                == ImportAll(start, considered[..i], now)
      invariant importedCount + skippedCount == i + skipped
    {
      assert considered[..i + 1][..i] == considered[..i];
      var candidate := considered[i];
      if candidate.url in existingUrls {
        skippedCount := skippedCount + 1;
        continue;
      }
      added := added + [NewNode(nextId, candidate, now)];
      nextId := nextId + 1;
      existingUrls := existingUrls + {candidate.url};
      importedCount := importedCount + 1;
    }
    assert considered[..|considered|] == considered;
    if |candidates| > MAX_CANDIDATES { skippedCount := skippedCount + (|candidates| - MAX_CANDIDATES); }
    written := Pushed(place, added);
  }

  // ---------------------------------------------------------------- what the loop keeps

  ghost predicate IsFresh(s: Import, first: nat, urls: set<string>) {
    && s.nextId == first + |s.added| && s.imported == |s.added| && s.urls == urls + UrlsOf(s.added)
    && (forall i :: 0 <= i < |s.added| ==> s.added[i].id == Some(Decimal(first + i)) && s.added[i].url.Some?)
    && (forall n <- s.added :: n.url.value !in urls)
    && (forall i, j :: 0 <= i < j < |s.added| ==> s.added[i].url != s.added[j].url)
  }

  lemma ImportOneKeeps(s: Import, c: Candidate, now: string, first: nat, urls: set<string>)
    requires IsFresh(s, first, urls)
    ensures IsFresh(ImportOne(s, c, now), first, urls)
  {
    hide NormalizeTitle;
    if c.url !in s.urls {
      forall i | 0 <= i < |s.added| ensures s.added[i].url.value != c.url { assert s.added[i] in s.added; }
      assert UrlsOf(s.added + [NewNode(s.nextId, c, now)]) == UrlsOf(s.added) + {c.url} by {
        var more := s.added + [NewNode(s.nextId, c, now)];
        assert more[|s.added|] in more && forall n <- s.added :: n in more;
      }
    }
  }

  lemma {:induction false} ImportKeeps(s: Import, candidates: seq<Candidate>, now: string, first: nat,
                                       urls: set<string>)
    requires IsFresh(s, first, urls)
    ensures IsFresh(ImportAll(s, candidates, now), first, urls)
  {
    hide ImportOne, IsFresh;
    if candidates != [] {
      ImportKeeps(s, candidates[..|candidates| - 1], now, first, urls);
      ImportOneKeeps(ImportAll(s, candidates[..|candidates| - 1], now), candidates[|candidates| - 1], now, first, urls);
    }
  }

  // Main result: new nodes have ids of their own above every earlier numeric id, and no url twice.
  lemma NewNodesAreFresh(f: File, candidates: seq<Candidate>, skipped: nat, now: string, valid: Schema)
    ensures var s, p := Imported(f, candidates, skipped, now, valid), FindFolder(f, now);
      && (forall i :: 0 <= i < |s.added| ==>
            && ParseInt(OrEmpty(s.added[i].id)).Some?
            && (forall n <- FlatAll(Nodes(Pushed(p, []))) :: IdNumber(n) < IdNumber(s.added[i]))
            && OrEmpty(s.added[i].url) !in UrlsOf(CollectAll(Nodes(f), valid)))
      && (forall i, j :: 0 <= i < j < |s.added| ==>
            IdNumber(s.added[i]) < IdNumber(s.added[j]) && s.added[i].url != s.added[j].url)
  {
    hide FindFolder, Pushed, CollectAll, FlatAll, MaxIdAll, ImportAll, ParseInt, Decimal;
    var start := Begin(f, skipped, now, valid);
    assert IsFresh(start, start.nextId, start.urls);
    ImportKeeps(start, Considered(candidates), now, start.nextId, start.urls);
    MaxIdAllBounds(Nodes(Pushed(FindFolder(f, now), [])), 0);
    var s := Imported(f, candidates, skipped, now, valid);
    forall i | 0 <= i < |s.added|
      ensures ParseInt(OrEmpty(s.added[i].id)) == Some(start.nextId + i) && s.added[i] in s.added
    {
      DecimalParses(start.nextId + i);
    }
  }

  // ---------------------------------------------------------------- existing nodes stay

  // The new list is the old one with the middle put in somewhere.
  ghost predicate IsSplice(before: seq<Node>, after: seq<Node>, middle: seq<Node>) {
    exists i :: 0 <= i <= |before| && IsSpliceAt(before, after, middle, i)
  }

  predicate IsSpliceAt(before: seq<Node>, after: seq<Node>, middle: seq<Node>, i: nat)
    requires i <= |before|
  {
    after == before[..i] + middle + before[i..]
  }

  lemma SpliceWithin(front: seq<Node>, before: seq<Node>, after: seq<Node>, middle: seq<Node>, back: seq<Node>)
    requires IsSplice(before, after, middle)
    ensures IsSplice(front + before + back, front + after + back, middle)
  {
    var i :| 0 <= i <= |before| && IsSpliceAt(before, after, middle, i);
    var all := front + before + back;
    assert all[..|front| + i] == front + before[..i] && all[|front| + i..] == before[i..] + back;
    assert IsSpliceAt(all, front + after + back, middle, |front| + i);
  }

  lemma {:induction false} FlatAllAppend(a: seq<Node>, b: seq<Node>)
    ensures FlatAll(a + b) == FlatAll(a) + FlatAll(b)
  {
    hide Flat;
    if a == [] {
      assert a + b == b;
    } else {
      assert (a + b)[1..] == a[1..] + b;
      FlatAllAppend(a[1..], b);
    }
  }

  lemma FlatAllAt(nodes: seq<Node>, i: nat)
    requires i < |nodes|
    ensures FlatAll(nodes) == FlatAll(nodes[..i]) + Flat(nodes[i]) + FlatAll(nodes[i + 1..])
  {
    hide Flat;
    FlatAllAppend(nodes[..i], nodes[i..]);
    assert nodes == nodes[..i] + nodes[i..] && nodes[i..][1..] == nodes[i + 1..];
  }

  lemma SpliceAtNode(nodes: seq<Node>, i: nat, x: Node, middle: seq<Node>)
    requires i < |nodes| && IsSplice(Flat(nodes[i]), Flat(x), middle)
    ensures IsSplice(FlatAll(nodes), FlatAll(nodes[i := x]), middle)
  {
    hide Flat, FlatAll, IsSplice;
    FlatAllAt(nodes, i);
    FlatAllAt(nodes[i := x], i);
    assert nodes[i := x][..i] == nodes[..i] && nodes[i := x][i + 1..] == nodes[i + 1..];
    SpliceWithin(FlatAll(nodes[..i]), Flat(nodes[i]), Flat(x), middle, FlatAll(nodes[i + 1..]));
  }

  lemma SpliceInNode(n: Node, children: seq<Node>, middle: seq<Node>)
    requires IsSplice(FlatAll(n.children), FlatAll(children), middle)
    ensures IsSplice(Flat(n), Flat(n.(children := children)), middle)
  {
    hide FlatAll, IsSplice;
    var own := [n.(children := [])];
    SpliceWithin(own, FlatAll(n.children), FlatAll(children), middle, []);
    assert own + FlatAll(n.children) + [] == Flat(n);
    assert own + FlatAll(children) + [] == Flat(n.(children := children));
  }

  lemma Appended(before: seq<Node>, middle: seq<Node>)
    ensures IsSplice(before, before + middle, middle)
  {
    assert before[..|before|] == before && before[|before|..] == [];
    assert IsSpliceAt(before, before + middle, middle, |before|);
  }

  lemma SpliceAtEnd(nodes: seq<Node>, added: seq<Node>)
    ensures IsSplice(FlatAll(nodes), FlatAll(nodes + added), FlatAll(added))
  {
    hide Flat, FlatAll, IsSplice;
    FlatAllAppend(nodes, added);
    Appended(FlatAll(nodes), FlatAll(added));
  }

  lemma SpliceInRoots(roots: seq<Root>, b: nat, bar: Node, middle: seq<Node>)
    requires b < |roots| && IsSplice(Flat(roots[b].node), Flat(bar), middle)
    ensures IsSplice(FlatAll(RootNodes(roots)), FlatAll(RootNodes(roots[b := roots[b].(node := bar)])), middle)
  {
    hide Flat, FlatAll, IsSplice;
    assert RootNodes(roots[b := roots[b].(node := bar)]) == RootNodes(roots)[b := bar];
    SpliceAtNode(RootNodes(roots), b, bar, middle);
  }

  lemma PushSplices(p: Place, added: seq<Node>)
    requires IsPlace(p)
    ensures IsSplice(FlatAll(RootNodes(p.roots)), FlatAll(Nodes(Pushed(p, added))), FlatAll(added))
  {
    hide Flat, FlatAll, IsSplice;
    var bar := p.roots[p.bar].node;
    var folder := bar.children[p.folder];
    SpliceAtEnd(folder.children, added);
    SpliceInNode(folder, folder.children + added, FlatAll(added));
    var fuller := folder.(children := folder.children + added);
    SpliceAtNode(bar.children, p.folder, fuller, FlatAll(added));
    SpliceInNode(bar, bar.children[p.folder := fuller], FlatAll(added));
    SpliceInRoots(p.roots, p.bar, bar.(children := bar.children[p.folder := fuller]), FlatAll(added));
  }

  // Opening the folder leaves the file as it is, or adds the folder alone.
  lemma FolderSplices(f: File, now: string)
    ensures var p, before := FindFolder(f, now), FlatAll(RootNodes(WithBar(f)));
      || FlatAll(RootNodes(p.roots)) == before
      || exists folder :: IsImportFolder(folder) && IsSplice(before, FlatAll(RootNodes(p.roots)), [folder])
  {
    hide Flat, FlatAll, IsSplice, FolderIndex, MaxIdAll, Decimal;
    var roots := WithBar(f);
    var b := BarIndex(roots);
    var bar := roots[b].node;
    var i := FolderIndex(bar.children);
    if i == |bar.children| {
      var id := Max(MaxBookmarkId(File(Some(roots))), 0) + 1;
      var folder := Node(Some(Decimal(id)), Some(FOLDER), Some("folder"), None, Some(now), []);
      FlatLeaf(folder);
      SpliceAtEnd(bar.children, [folder]);
      SpliceInNode(bar, bar.children + [folder], [folder]);
      SpliceInRoots(roots, b, bar.(children := bar.children + [folder]), [folder]);
      assert IsImportFolder(folder);
    }
  }

  lemma FlatLeaf(n: Node)
    requires n.children == []
    ensures Flat(n) == [n] && FlatAll([n]) == [n]
  {
    assert [n][1..] == [] && FlatAll([]) == [];
    assert Flat(n) == [n.(children := [])] + FlatAll(n.children);
  }

  lemma {:induction false} FlatLeaves(nodes: seq<Node>)
    requires forall n <- nodes :: n.children == []
    ensures FlatAll(nodes) == nodes
  {
    hide Flat;
    if nodes != [] {
      FlatLeaf(nodes[0]);
      FlatLeaves(nodes[1..]);
    }
  }

  lemma {:induction false} AddedAreLeaves(s: Import, candidates: seq<Candidate>, now: string)
    requires forall n <- s.added :: n.children == []
    ensures forall n <- ImportAll(s, candidates, now).added :: n.children == []
  {
    if candidates != [] { AddedAreLeaves(s, candidates[..|candidates| - 1], now); }
  }

  // Main result: every node that the file had, its bar included, stays in its order, with the new ones together in one
  // place; besides them only the import folder is added, if there was none.
  lemma ImportKeepsNodes(f: File, candidates: seq<Candidate>, skipped: nat, now: string, valid: Schema)
    ensures var before, after :=
              FlatAll(RootNodes(WithBar(f))), FlatAll(Nodes(FileAfter(f, candidates, skipped, now, valid)));
      var withFolder := FlatAll(RootNodes(FindFolder(f, now).roots));
      && IsSplice(withFolder, after, Imported(f, candidates, skipped, now, valid).added)
      && (withFolder == before || exists folder :: IsImportFolder(folder) && IsSplice(before, withFolder, [folder]))
  {
    hide Flat, FlatAll, IsSplice, FindFolder, Pushed, ImportAll, MaxIdAll, CollectAll;
    FolderSplices(f, now);
    var s := Imported(f, candidates, skipped, now, valid);
    AddedAreLeaves(Begin(f, skipped, now, valid), Considered(candidates), now);
    FlatLeaves(s.added);
    PushSplices(FindFolder(f, now), s.added);
  }

  // ---------------------------------------------------------------- importing again

  lemma {:induction false} AllUrlsKnown(s: Import, candidates: seq<Candidate>, now: string)
    ensures var t := ImportAll(s, candidates, now);
      && s.urls <= t.urls && (forall c <- candidates :: c.url in t.urls)
      && t.imported >= s.imported
      && (t.imported == s.imported <==> forall c <- candidates :: c.url in s.urls)
      && (t.imported == s.imported ==> t.urls == s.urls)
    decreases |candidates|
  {
    if candidates != [] {
      var n := |candidates| - 1;
      AllUrlsKnown(s, candidates[..n], now);
      assert candidates == candidates[..n] + [candidates[n]];
    }
  }

  lemma {:induction false} AddedAreCandidates(s: Import, candidates: seq<Candidate>, now: string)
    ensures forall n <- ImportAll(s, candidates, now).added ::
              n in s.added || exists c <- candidates :: n.url == Some(c.url)
    decreases |candidates|
  {
    hide NormalizeTitle, Decimal;
    if candidates != [] {
      var k := |candidates| - 1;
      AddedAreCandidates(s, candidates[..k], now);
      assert candidates == candidates[..k] + [candidates[k]];
      assert candidates[k] in candidates;
    }
  }

  lemma CollectedUrls(f: File, valid: Schema, url: string)
    ensures url in UrlsOf(CollectAll(Nodes(f), valid)) <==>
              exists n <- FlatAll(Nodes(f)) :: IsCollected(n, valid) && OrEmpty(n.url) == url
  {
    hide CollectAll, FlatAll, IsCollected;
    CollectAllIsAccepted(Nodes(f), valid);
  }

  lemma SpliceMembers(before: seq<Node>, after: seq<Node>, middle: seq<Node>)
    requires IsSplice(before, after, middle)
    ensures forall n :: n in after <==> n in before || n in middle
  {
    var i :| 0 <= i <= |before| && IsSpliceAt(before, after, middle, i);
    assert before == before[..i] + before[i..];
  }

  // Folders are never collected, so opening the bar and the folder changes no url.
  lemma BarHoldsNoUrl(f: File, valid: Schema)
    ensures forall n <- FlatAll(RootNodes(WithBar(f))) :: n in FlatAll(Nodes(f)) || !IsCollected(n, valid)
    ensures forall n <- FlatAll(Nodes(f)) :: n in FlatAll(RootNodes(WithBar(f)))
  {
    hide Flat, FlatAll;
    KindsDiffer();
    if f.roots.None? {
      FlatLeaves(RootNodes(DefaultRoots()));
      FlatLeaves([]);
    } else {
      var roots := f.roots.value;
      if BarIndex(roots) == |roots| {
        assert RootNodes(roots + [Root("bookmark_bar", BAR)]) == RootNodes(roots) + [BAR];
        FlatAllAppend(RootNodes(roots), [BAR]);
        FlatLeaves([BAR]);
      }
    }
  }

  lemma KindsDiffer()
    ensures "folder" != "url"
  {
    assert |"folder"| != |"url"|;
  }

  // The urls collected after an import: those before it, and those of the new nodes that the schema accepts.
  lemma UrlsAfterImport(f: File, candidates: seq<Candidate>, skipped: nat, now: string, valid: Schema, url: string)
    ensures url in UrlsOf(CollectAll(Nodes(FileAfter(f, candidates, skipped, now, valid)), valid)) <==>
              || url in UrlsOf(CollectAll(Nodes(f), valid))
              || exists n <- Imported(f, candidates, skipped, now, valid).added ::
                   IsCollected(n, valid) && OrEmpty(n.url) == url
  {
    hide Flat, FlatAll, IsSplice, FindFolder, FileAfter, Imported, CollectAll, Nodes;
    var s, g := Imported(f, candidates, skipped, now, valid), FileAfter(f, candidates, skipped, now, valid);
    var before, middle := FlatAll(RootNodes(WithBar(f))), FlatAll(RootNodes(FindFolder(f, now).roots));
    ImportKeepsNodes(f, candidates, skipped, now, valid);
    SpliceMembers(middle, FlatAll(Nodes(g)), s.added);
    BarHoldsNoUrl(f, valid);
    KindsDiffer();
    if middle != before {
      var folder :| IsImportFolder(folder) && IsSplice(before, middle, [folder]);
      SpliceMembers(before, middle, [folder]);
    }
    CollectedUrls(f, valid, url);
    CollectedUrls(g, valid, url);
  }

  // The candidates that get a node: the first of each url that is not known yet.
  function Unknown(known: set<string>, candidates: seq<Candidate>): seq<Candidate> {
    if candidates == [] then []
    else
      var n := |candidates| - 1;
      var first, c := Unknown(known, candidates[..n]), candidates[n];
      if c.url in known || (exists d <- candidates[..n] :: d.url == c.url) then first else first + [c]
  }

  lemma {:induction false} AddedAreUnknown(s: Import, candidates: seq<Candidate>, now: string)
    requires s.added == []
    ensures var t, unknown := ImportAll(s, candidates, now), Unknown(s.urls, candidates);
      && t.urls == s.urls + (set c | c in candidates :: c.url)
      && |t.added| == |unknown| && t.nextId == s.nextId + |unknown|
      && forall i :: 0 <= i < |unknown| ==> t.added[i] == NewNode(s.nextId + i, unknown[i], now)
    decreases |candidates|
  {
    hide NewNode;
    if candidates != [] {
      var n := |candidates| - 1;
      AddedAreUnknown(s, candidates[..n], now);
      assert candidates == candidates[..n] + [candidates[n]];
    }
  }

  // The first candidate with its url.
  ghost predicate IsFirstOf(candidates: seq<Candidate>, c: Candidate) {
    exists i ::
      && 0 <= i < |candidates| && candidates[i] == c && forall k :: 0 <= k < i ==> candidates[k].url != c.url
  }

  lemma {:induction false} UnknownAreFirst(known: set<string>, candidates: seq<Candidate>, c: Candidate)
    ensures c in Unknown(known, candidates) <==> c.url !in known && IsFirstOf(candidates, c)
    decreases |candidates|
  {
    if candidates != [] {
      var n := |candidates| - 1;
      var front := candidates[..n];
      assert candidates == front + [candidates[n]];
      UnknownAreFirst(known, front, c);
      if IsFirstOf(candidates, c) && !IsFirstOf(front, c) {
        var i :| 0 <= i < |candidates| && candidates[i] == c && forall k :: 0 <= k < i ==> candidates[k].url != c.url;
        assert i == n;
      }
      if IsFirstOf(front, c) {
        var i :| 0 <= i < n && front[i] == c && forall k :: 0 <= k < i ==> front[k].url != c.url;
        assert candidates[i] == c;
      }
    }
  }

  // The title of a new bookmark: the candidate's without white space at its ends, or its url, cut to 300 characters.
  ghost predicate IsTitle(title: string, c: Candidate) {
    var full := if Trim(c.title) == "" then c.url else Trim(c.title);
    title <= full && |title| == if |full| < 300 then |full| else 300
  }

  // Main result: of the first 500 candidates the first with each url that was not known is imported, under its own
  // title and dated now, and nothing else; the others are skipped.
  lemma ImportsEachUnknownUrl(f: File, candidates: seq<Candidate>, skipped: nat, now: string, valid: Schema,
                              url: string)
    ensures var added := Imported(f, candidates, skipped, now, valid).added;
      var first := if |candidates| <= 500 then candidates else candidates[..500];
      var known := exists n <- FlatAll(Nodes(f)) :: IsCollected(n, valid) && OrEmpty(n.url) == url;
      && ((exists n <- added :: n.url == Some(url)) <==> !known && exists c <- first :: c.url == url)
      && forall n <- added :: n.url == Some(url) ==>
           && n.kind == Some("url") && n.date == Some(now) && n.children == []
           && exists c :: IsFirstOf(first, c) && c.url == url && n.name.Some? && IsTitle(n.name.value, c)
  {
    hide FindFolder, CollectAll, Nodes, MaxIdAll, ImportAll, IsCollected, FlatAll, Pushed, IsTitle, IsFirstOf;
    CollectedUrls(f, valid, url);
    AddsFirstUnknown(Begin(f, skipped, now, valid), Considered(candidates), now, url);
  }

  lemma AddsFirstUnknown(start: Import, first: seq<Candidate>, now: string, url: string)
    requires start.added == []
    ensures var added := ImportAll(start, first, now).added;
      && ((exists n <- added :: n.url == Some(url)) <==> url !in start.urls && exists c <- first :: c.url == url)
      && forall n <- added :: n.url == Some(url) ==>
           && n.kind == Some("url") && n.date == Some(now) && n.children == []
           && exists c :: IsFirstOf(first, c) && c.url == url && n.name.Some? && IsTitle(n.name.value, c)
  {
    hide ImportAll, Decimal, Trim, Unknown, IsFirstOf, IsTitle, NormalizeTitle;
    var added, unknown := ImportAll(start, first, now).added, Unknown(start.urls, first);
    AddedAreUnknown(start, first, now);
    forall c | c in unknown ensures c.url !in start.urls && IsFirstOf(first, c) && c in first {
      UnknownAreFirst(start.urls, first, c);
      FirstIsIn(first, c);
    }
    if url !in start.urls && exists c <- first :: c.url == url {
      var c := FirstWith(first, url);
      UnknownAreFirst(start.urls, first, c);
      var i :| 0 <= i < |unknown| && unknown[i] == c;
      assert added[i] in added;
    }
    forall n | n in added
      ensures exists c <- unknown :: n.url == Some(c.url) && n.name.Some? && IsTitle(n.name.value, c)
      ensures n.kind == Some("url") && n.date == Some(now) && n.children == []
    {
      var i :| 0 <= i < |added| && added[i] == n;
      assert unknown[i] in unknown;
      TitleIs(unknown[i]);
    }
  }

  lemma FirstIsIn(candidates: seq<Candidate>, c: Candidate)
    requires IsFirstOf(candidates, c)
    ensures c in candidates
  {}

  lemma TitleIs(c: Candidate)
    ensures IsTitle(NormalizeTitle(c.title, c.url), c)
  {
    hide Trim;
  }

  lemma {:induction false} FirstWith(candidates: seq<Candidate>, url: string) returns (c: Candidate)
    requires exists c <- candidates :: c.url == url
    ensures c.url == url && IsFirstOf(candidates, c)
    decreases |candidates|
  {
    var n := |candidates| - 1;
    assert candidates == candidates[..n] + [candidates[n]];
    if exists d <- candidates[..n] :: d.url == url {
      c := FirstWith(candidates[..n], url);
      var i :| && 0 <= i < n && candidates[..n][i] == c
               && forall k :: 0 <= k < i ==> candidates[..n][k].url != c.url;
      assert candidates[i] == c;
    } else {
      c := candidates[n];
    }
  }

  // Whether the schema accepts the bookmark that a candidate becomes.
  predicate IsAcceptable(id: nat, c: Candidate, now: string, valid: Schema) {
    c.url != "" && valid(Decimal(id), NormalizeTitle(c.title, c.url), c.url, Some(now))
  }

  lemma NewNodeCollected(id: nat, c: Candidate, now: string, valid: Schema)
    ensures IsCollected(NewNode(id, c, now), valid) <==> IsAcceptable(id, c, now, valid)
  {
    hide Decimal, Trim;
  }

  // Main result: importing the same list again adds nothing if and only if the schema accepts each unknown candidate
  // with its normalised title, under the number that is next for it and the time of the first import.
  lemma ReimportAddsNothingIff(f: File, candidates: seq<Candidate>, skipped: nat, now: string, later: string,
                               valid: Schema)
    ensures var g, first := FileAfter(f, candidates, skipped, now, valid), Begin(f, skipped, now, valid);
      var unknown := Unknown(UrlsOf(CollectAll(Nodes(f), valid)), Considered(candidates));
      Imported(g, candidates, skipped, later, valid).imported == 0 <==>
        forall i :: 0 <= i < |unknown| ==> IsAcceptable(first.nextId + i, unknown[i], now, valid)
  {
    hide FindFolder, CollectAll, MaxIdAll, Nodes, ImportAll, IsCollected, FileAfter, NewNode, IsAcceptable;
    var s, first := Imported(f, candidates, skipped, now, valid), Begin(f, skipped, now, valid);
    var unknown := Unknown(UrlsOf(CollectAll(Nodes(f), valid)), Considered(candidates));
    ReimportAddsNothing(f, candidates, skipped, now, later, valid);
    AddedAreUnknown(first, Considered(candidates), now);
    forall i | 0 <= i < |unknown|
      ensures IsCollected(s.added[i], valid) <==> IsAcceptable(first.nextId + i, unknown[i], now, valid)
    {
      NewNodeCollected(first.nextId + i, unknown[i], now, valid);
    }
    if forall n <- s.added :: IsCollected(n, valid) {
      forall i | 0 <= i < |unknown| ensures IsAcceptable(first.nextId + i, unknown[i], now, valid) {
        assert s.added[i] in s.added;
      }
    } else {
      var n :| n in s.added && !IsCollected(n, valid);
      var i :| 0 <= i < |s.added| && s.added[i] == n;
      assert !IsAcceptable(first.nextId + i, unknown[i], now, valid);
      assert unknown == Unknown(UrlsOf(CollectAll(Nodes(f), valid)), Considered(candidates));
    }
  }

  // Importing again adds nothing if and only if every new node is collected.
  lemma ReimportAddsNothing(f: File, candidates: seq<Candidate>, skipped: nat, now: string, later: string,
                            valid: Schema)
    ensures var s, g := Imported(f, candidates, skipped, now, valid), FileAfter(f, candidates, skipped, now, valid);
      Imported(g, candidates, skipped, later, valid).imported == 0 <==> forall n <- s.added :: IsCollected(n, valid)
  {
    hide FileAfter, FindFolder, Pushed, CollectAll, MaxIdAll, Nodes, ImportAll, IsCollected;
    var s, g := Imported(f, candidates, skipped, now, valid), FileAfter(f, candidates, skipped, now, valid);
    var first, again := Begin(f, skipped, now, valid), Begin(g, skipped, later, valid);
    var considered := Considered(candidates);
    assert IsFresh(first, first.nextId, first.urls);
    ImportKeeps(first, considered, now, first.nextId, first.urls);
    AllUrlsKnown(first, considered, now);
    AllUrlsKnown(again, considered, later);
    AddedAreCandidates(first, considered, now);
    if forall n <- s.added :: IsCollected(n, valid) {
      forall c | c in considered ensures c.url in again.urls {
        UrlsAfterImport(f, candidates, skipped, now, valid, c.url);
      }
    }
    if forall c <- considered :: c.url in again.urls {
      forall n | n in s.added ensures IsCollected(n, valid) {
        UrlsAfterImport(f, candidates, skipped, now, valid, n.url.value);
        AddedOnce(s, first, n);
      }
    }
  }

  // A new node's url is its own.
  lemma AddedOnce(s: Import, first: Import, n: Node)
    requires IsFresh(s, first.nextId, first.urls) && n in s.added
    ensures n.url.Some? && n.url.value !in first.urls
    ensures forall m <- s.added :: OrEmpty(m.url) == n.url.value ==> m == n
  {
    var i :| 0 <= i < |s.added| && s.added[i] == n;
    forall m | m in s.added && OrEmpty(m.url) == n.url.value ensures m == n {
      var j :| 0 <= j < |s.added| && s.added[j] == m;
      assert i == j;
    }
  }
}
