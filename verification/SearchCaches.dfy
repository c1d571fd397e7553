// The caches behind a search (scripts/core.py): rows by file, and indexes by file, columns and row filter. The index
// of a cached entry is its tokenized corpus, which determines it (Bm25.Index.Describes).

module SearchCaches {
  import opened Options
  import opened Text
  import opened Bm25

  type Path = string

  type Row = map<string, string>

  // Modification time and size.
  type Signature = (int, int)

  // ---------------------------------------------------------------- row filters

  datatype Base = BaseUi | Aria | Radix

  datatype Kind = All | ActiveOnly | LegacyOnly | LegacyUnavailable | CurrentOnly | NonLegacy

  // `base` is a shadcn query's component library.
  datatype Filter = Filter(kind: Kind, base: Option<Base>)

  function Field(row: Row, name: string, absent: string): string {
    if name in row then row[name] else absent
  }

  predicate PassesKind(kind: Kind, row: Row) {
    match kind
    case All => true
    case ActiveOnly => Field(row, "Status", "active") == "active"
    case LegacyOnly => Field(row, "Status", "") == "deprecated"
    case LegacyUnavailable => false
    case CurrentOnly => Field(row, "Status", "") == "active"
    case NonLegacy => Field(row, "Status", "unverified") != "deprecated"
  }

  // `basesOf` reads the libraries out of a row's "Applies To".
  predicate Passes(f: Filter, row: Row, basesOf: Row -> set<Base>) {
    PassesKind(f.kind, row) && (f.base.Some? ==> f.base.value in basesOf(row))
  }

  function KindName(kind: Kind): string {
    match kind
    case All => ""
    case ActiveOnly => "active-only"
    case LegacyOnly => "legacy-only"
    case LegacyUnavailable => "legacy-unavailable"
    case CurrentOnly => "current-only"
    case NonLegacy => "non-legacy"
  }

  function BaseName(base: Base): string {
    match base
    case BaseUi => "base"
    case Aria => "aria"
    case Radix => "radix"
  }

  // The cache variant.
  function Variant(f: Filter): string {
    KindName(f.kind) + if f.base.Some? then ";base=" + BaseName(f.base.value) else ""
  }

  function StackRowFilter(statuses: set<string>, requestsLegacy: bool, hasCurrentVersion: bool,
                          base: Option<Base>): Filter {
    if "deprecated" in statuses && requestsLegacy then Filter(LegacyOnly, base)
    else if requestsLegacy && hasCurrentVersion then Filter(LegacyUnavailable, None)
    else if "active" in statuses then Filter(CurrentOnly, base)
    else Filter(NonLegacy, base)
  }

  lemma KindNames(kind: Kind)
    ensures ';' !in KindName(kind)
  {}

  lemma KindNameInjective(a: Kind, b: Kind)
    requires KindName(a) == KindName(b)
    ensures a == b
  {
    if |KindName(a)| == 11 { assert KindName(a)[0] == KindName(b)[0]; }
  }

  lemma BaseNameInjective(a: Base, b: Base)
    requires BaseName(a) == BaseName(b)
    ensures a == b
  {
    assert BaseName(a)[0] == BaseName(b)[0];
  }

  lemma VariantParts(f: Filter)
    ensures var i := IndexOf(Variant(f), ';');
      && Variant(f)[..i] == KindName(f.kind)
      && (f.base.Some? <==> i < |Variant(f)|)
      && (f.base.Some? ==> |Variant(f)| >= i + 6 && Variant(f)[i + 6..] == BaseName(f.base.value))
  {
    hide KindName, BaseName;
    KindNames(f.kind);
    var name := KindName(f.kind);
    if f.base.Some? {
      assert Variant(f) == name + [';'] + ("base=" + BaseName(f.base.value));
      IndexOfAt(name, ';', "base=" + BaseName(f.base.value));
    } else {
      assert Variant(f) == name;
    }
  }

  // Main result: the cache variant determines the row filter.
  lemma VariantDetermines(f: Filter, g: Filter)
    requires Variant(f) == Variant(g)
    ensures f == g
  {
    hide Variant, KindName, BaseName;
    VariantParts(f);
    VariantParts(g);
    KindNameInjective(f.kind, g.kind);
    if f.base.Some? { BaseNameInjective(f.base.value, g.base.value); }
  }

  predicate IsLegacy(row: Row) {
    "Status" in row && row["Status"] == "deprecated"
  }

  predicate IsCurrent(row: Row) {
    "Status" in row && row["Status"] == "active"
  }

  // Main result: a stack search never mixes generations. Where legacy rows are asked for and exist it returns them
  // alone. Where none exist for a stack with a current version it returns nothing. Otherwise it returns the current
  // rows alone, or, where no row is current, all that are not legacy.
  lemma StackRowsAreCoherent(rows: seq<Row>, requestsLegacy: bool, hasCurrentVersion: bool, base: Option<Base>,
                             row: Row, basesOf: Row -> set<Base>)
    requires row in rows
    ensures var statuses := set r | r in rows :: Field(r, "Status", "unverified");
      var someLegacy, someCurrent := exists r <- rows :: IsLegacy(r), exists r <- rows :: IsCurrent(r);
      Passes(StackRowFilter(statuses, requestsLegacy, hasCurrentVersion, base), row, basesOf) <==>
        && (base.Some? ==> base.value in basesOf(row))
        && (IsLegacy(row) <==> requestsLegacy && someLegacy)
        && (requestsLegacy && hasCurrentVersion ==> someLegacy)
        && (someCurrent && !(requestsLegacy && someLegacy) ==> IsCurrent(row))
  {
    var statuses := set r | r in rows :: Field(r, "Status", "unverified");
    assert "deprecated"[0] != "active"[0] && "unverified"[0] != "deprecated"[0] && "unverified"[0] != "active"[0];
    assert "deprecated" in statuses <==> exists r <- rows :: IsLegacy(r) by {
      if "deprecated" in statuses {
        var r :| r in rows && Field(r, "Status", "unverified") == "deprecated";
        assert IsLegacy(r);
      }
      if r :| r in rows && IsLegacy(r) { assert Field(r, "Status", "unverified") in statuses; }
    }
    assert "active" in statuses <==> exists r <- rows :: IsCurrent(r) by {
      if "active" in statuses {
        var r :| r in rows && Field(r, "Status", "unverified") == "active";
        assert IsCurrent(r);
      }
      if r :| r in rows && IsCurrent(r) { assert Field(r, "Status", "unverified") in statuses; }
    }
  }

  // ---------------------------------------------------------------- what an index is made of

  function Selected(f: Filter, rows: seq<Row>, basesOf: Row -> set<Base>): (data: seq<Row>)
    ensures forall row <- data :: row in rows && Passes(f, row, basesOf)
  {
    if rows == [] then []
    else
      var row := rows[|rows| - 1];
      Selected(f, rows[..|rows| - 1], basesOf) + if Passes(f, row, basesOf) then [row] else []
  }

  // The selected rows in their order: the k-th one is the row at this index.
  ghost predicate IsSubsequence(rows: seq<Row>, data: seq<Row>, index: seq<nat>) {
    && |index| == |data|
    && (forall k :: 0 <= k < |index| ==> index[k] < |rows| && data[k] == rows[index[k]])
    && (forall j, k :: 0 <= j < k < |index| ==> index[j] < index[k])
  }

  lemma {:induction false} SelectedIs(f: Filter, rows: seq<Row>, basesOf: Row -> set<Base>) returns (index: seq<nat>)
    ensures IsSubsequence(rows, Selected(f, rows, basesOf), index)
    ensures forall i :: 0 <= i < |rows| ==> (Passes(f, rows[i], basesOf) <==> i in index)
  {
    hide Passes, IsSubsequence;
    index := [];
    if rows == [] {
      NoneSelected();
    } else {
      var n := |rows| - 1;
      var before := SelectedIs(f, rows[..n], basesOf);
      var data := Selected(f, rows[..n], basesOf);
      OneMore(rows, data, before);
      index := before;
      if Passes(f, rows[n], basesOf) { index := before + [n]; }
      assert n !in before by { IndexBelow(rows[..n], data, before); }
      forall i | 0 <= i < |rows| ensures Passes(f, rows[i], basesOf) <==> i in index {
        if i < n { assert rows[i] == rows[..n][i]; }
      }
    }
  }

  lemma NoneSelected()
    ensures IsSubsequence([], [], [])
  {}

  lemma IndexBelow(rows: seq<Row>, data: seq<Row>, index: seq<nat>)
    requires IsSubsequence(rows, data, index)
    ensures forall i <- index :: i < |rows|
  {}

  lemma OneMore(rows: seq<Row>, data: seq<Row>, index: seq<nat>)
    requires rows != [] && IsSubsequence(rows[..|rows| - 1], data, index)
    ensures IsSubsequence(rows, data + [], index)
    ensures IsSubsequence(rows, data + [rows[|rows| - 1]], index + [|rows| - 1])
  {
    assert data + [] == data;
  }

  // The searched columns, joined by spaces.
  function TextOf(row: Row, columns: seq<string>): string {
    if columns == [] then ""
    else if |columns| == 1 then Field(row, columns[0], "")
    else Field(row, columns[0], "") + " " + TextOf(row, columns[1..])
  }

  // The value of each searched column is a stretch of the text of its own.
  lemma {:induction false} ColumnIsInText(row: Row, columns: seq<string>, column: string)
    returns (before: string, after: string)
    requires column in columns && column in row
    ensures TextOf(row, columns) == before + row[column] + after
    ensures (before != "" ==> before[|before| - 1] == ' ') && (after != "" ==> after[0] == ' ')
  {
    if column == columns[0] {
      before := "";
      after := if |columns| == 1 then "" else " " + TextOf(row, columns[1..]);
    } else {
      before, after := ColumnIsInText(row, columns[1..], column);
      before := Field(row, columns[0], "") + " " + before;
    }
  }

  function Documents(data: seq<Row>, columns: seq<string>): (documents: seq<string>)
    ensures |documents| == |data|
    ensures forall i :: 0 <= i < |data| ==> documents[i] == TextOf(data[i], columns)
  {
    seq(|data|, i requires 0 <= i < |data| => TextOf(data[i], columns))
  }

  const INDEX_VERSION := 2

  datatype Key = Key(path: Path, columns: seq<string>, version: int, variant: string)

  // One attempt to read a file: its signature before, the rows, its signature after.
  datatype Attempt = Attempt(before: Signature, rows: seq<Row>, after: Signature)

  // The first attempt during which the file did not change.
  ghost predicate IsFirstStable(attempts: seq<Attempt>, i: int) {
    && 0 <= i < |attempts| && attempts[i].before == attempts[i].after
    && forall k :: 0 <= k < i ==> attempts[k].before != attempts[k].after
  }

  // The signature whose rows a search is to use: the current one when its rows are cached, else that of the first
  // attempt during which the file did not change.
  ghost predicate IsToRead(cached: Option<Signature>, current: Signature, attempts: seq<Attempt>,
                           signature: Signature) {
    if cached == Some(current) then signature == current
    else exists i :: IsFirstStable(attempts, i) && signature == attempts[i].after
  }

  lemma OneToRead(cached: Option<Signature>, current: Signature, attempts: seq<Attempt>, a: Signature, b: Signature)
    requires IsToRead(cached, current, attempts, a) && IsToRead(cached, current, attempts, b)
    ensures a == b
  {
    if cached != Some(current) {
      var i :| IsFirstStable(attempts, i) && a == attempts[i].after;
      var j :| IsFirstStable(attempts, j) && b == attempts[j].after;
      assert !(i < j) && !(j < i);
    }
  }

  datatype Threshold = Threshold(minScore: real, minCoverage: real, minMargin: real)

  datatype Outcome =
    | ReadError
    | EmptyData
    | Answer(data: seq<Row>, corpus: Corpus, query: seq<string>, ranking: seq<Ranked>, abstained: bool,
             results: seq<Row>)

  function Vocabulary(corpus: Corpus): set<string> {
    set doc, word | doc in corpus && word in doc :: word
  }

  function Coverage(corpus: Corpus, query: seq<string>): real {
    var tokens := set token | token in query;
    if tokens == {} then 0.0 else |tokens * Vocabulary(corpus)| as real / |tokens| as real
  }

  predicate Abstains(ranking: seq<Ranked>, coverage: real, threshold: Threshold) {
    var top := if ranking != [] then ranking[0].score else 0.0;
    var runnerUp := if |ranking| > 1 then ranking[1].score else 0.0;
    || top <= threshold.minScore || coverage < threshold.minCoverage
    || (threshold.minMargin > 0.0 && top - runnerUp < threshold.minMargin)
  }

  // ---------------------------------------------------------------- the caches

  class Search {
    // What each file held at each signature: a signature identifies content.
    ghost const content: (Path, Signature) -> seq<Row>
    const tokenize: string -> seq<string>
    const basesOf: Row -> set<Base>
    var csvCache: map<Path, (Signature, seq<Row>)>
    var bm25Cache: map<Key, (Signature, Corpus)>

    constructor (ghost content: (Path, Signature) -> seq<Row>, tokenize: string -> seq<string>,
                 basesOf: Row -> set<Base>)
      ensures Valid() && this.content == content && this.tokenize == tokenize && this.basesOf == basesOf
    {
      this.content, this.tokenize, this.basesOf := content, tokenize, basesOf;
      csvCache, bm25Cache := map[], map[];
    }

    // What the index of these columns and this filter must be for a file at a signature.
    ghost function IndexOfRows(f: Filter, columns: seq<string>, path: Path, signature: Signature): Corpus {
      Tokenized(Documents(Selected(f, content(path, signature), basesOf), columns), tokenize)
    }

    ghost predicate IsEntry(key: Key, signature: Signature, corpus: Corpus) {
      exists f :: Variant(f) == key.variant && corpus == IndexOfRows(f, key.columns, key.path, signature)
    }

    ghost predicate Valid()
      reads this
    {
      && (forall path <- csvCache :: csvCache[path].1 == content(path, csvCache[path].0))
      && (forall key <- bm25Cache :: IsEntry(key, bm25Cache[key].0, bm25Cache[key].1))
    }

    // What the file system guarantees of a read whose signatures agree.
    ghost predicate IsFaithful(path: Path, attempts: seq<Attempt>) {
      forall a <- attempts :: a.before == a.after ==> a.rows == content(path, a.after)
    }

    ghost function CachedSignature(path: Path): Option<Signature>
      reads this
    {
      if path in csvCache then Some(csvCache[path].0) else None
    }

    method LoadCsvSnapshot(path: Path, current: Signature, attempts: seq<Attempt>)
      returns (snapshot: Option<(seq<Row>, Signature)>)
      requires Valid() && IsFaithful(path, attempts)
      modifies this`csvCache
      ensures Valid()
      ensures forall signature :: IsToRead(old(CachedSignature(path)), current, attempts, signature) ==>
                && snapshot == Some((content(path, signature), signature))
                && csvCache == old(csvCache)[path := (signature, content(path, signature))]
      ensures (forall signature :: !IsToRead(old(CachedSignature(path)), current, attempts, signature)) ==>
                snapshot == None && csvCache == old(csvCache)
    {
      if path in csvCache && csvCache[path].0 == current {
        assert csvCache == csvCache[path := csvCache[path]];
        return Some((csvCache[path].1, current));
      }
      for i := 0 to |attempts|
        invariant csvCache == old(csvCache) && forall k :: 0 <= k < i ==> attempts[k].before != attempts[k].after
      {
        var a := attempts[i];
        if a.before == a.after {
          csvCache := csvCache[path := (a.after, a.rows)];
          assert IsFirstStable(attempts, i);
          forall signature | IsToRead(old(CachedSignature(path)), current, attempts, signature)
            ensures signature == a.after
          {
            OneToRead(old(CachedSignature(path)), current, attempts, signature, a.after);
          }
          return Some((a.rows, a.after));
        }
      }
      return None;
    }

    // A cached index describes exactly the rows that the caller holds.
    method GetBm25(path: Path, columns: seq<string>, data: seq<Row>, signature: Signature,
                   f: Filter) returns (corpus: Corpus)
      requires Valid() && data == Selected(f, content(path, signature), basesOf)
      modifies this`bm25Cache
      ensures Valid() && corpus == Tokenized(Documents(data, columns), tokenize)
    {
      hide Variant, Selected, Documents, Tokenized;
      var key := Key(path, columns, INDEX_VERSION, Variant(f));
      if key in bm25Cache && bm25Cache[key].0 == signature {
        corpus := bm25Cache[key].1;
        ghost var g :| Variant(g) == key.variant && corpus == IndexOfRows(g, columns, path, signature);
        VariantDetermines(f, g);
        return;
      }
      corpus := Tokenized(Documents(data, columns), tokenize);
      assert corpus == IndexOfRows(f, columns, path, signature);
      bm25Cache := bm25Cache[key := (signature, corpus)];
    }

    // `rewrite` gives the tokens of the query, rewritten for the index's vocabulary.
    method SearchCsv(path: Path, columns: seq<string>,
                     rewrite: Corpus -> seq<string>, maxResults: nat, threshold: Threshold,
                     f: Filter, current: Signature, attempts: seq<Attempt>, ln: real -> real) returns (outcome: Outcome)
      requires Valid() && IsFaithful(path, attempts)
      modifies this`csvCache, this`bm25Cache
      ensures Valid()
      ensures forall signature :: IsToRead(old(CachedSignature(path)), current, attempts, signature) ==>
                var data := Selected(f, content(path, signature), basesOf);
                && outcome != ReadError && (outcome == EmptyData <==> data == [])
                && (outcome.Answer? ==>
                      && outcome.data == data && outcome.query == rewrite(outcome.corpus)
                      && IsAnswer(outcome, columns, tokenize, maxResults, threshold, ln))
      ensures (forall signature :: !IsToRead(old(CachedSignature(path)), current, attempts, signature)) ==>
                outcome == ReadError
    {
      hide IsAnswer, Selected, Abstains, Coverage, Hits, Valid, IsFaithful, IsToRead;
      var snapshot := LoadCsvSnapshot(path, current, attempts);
      if snapshot.None? { return ReadError; }
      var (rows, signature) := snapshot.value;
      var data := Selected(f, rows, basesOf);
      if data == [] { return EmptyData; }
      var corpus := GetBm25(path, columns, data, signature, f);
      var query := rewrite(corpus);
      RankingPositions(corpus, query, ln);
      var ranking := Sorted(Scores(corpus, query, ln));
      var abstained := Abstains(ranking, Coverage(corpus, query), threshold);
      var results := if abstained then [] else Hits(ranking, data, maxResults);
      outcome := Answer(data, corpus, query, ranking, abstained, results);
      AnswerHolds(outcome, columns, tokenize, maxResults, threshold, ln);
    }
  }

  // The index was made of the text of the rows, and the ranking and the results follow from it.
  ghost predicate IsAnswer(outcome: Outcome, columns: seq<string>, tokenize: string -> seq<string>, maxResults: nat,
                           threshold: Threshold, ln: real -> real) {
    && outcome.Answer? && outcome.data != []
    && outcome.corpus == Tokenized(Documents(outcome.data, columns), tokenize)
    && outcome.ranking == Sorted(Scores(outcome.corpus, outcome.query, ln))
    && AreIn(outcome.ranking, outcome.data)
    && outcome.abstained == Abstains(outcome.ranking, Coverage(outcome.corpus, outcome.query), threshold)
    && outcome.results == if outcome.abstained then [] else Hits(outcome.ranking, outcome.data, maxResults)
  }

  lemma AnswerHolds(outcome: Outcome, columns: seq<string>, tokenize: string -> seq<string>, maxResults: nat,
                    threshold: Threshold, ln: real -> real)
    requires outcome.Answer? && outcome.data != []
    requires outcome.corpus == Tokenized(Documents(outcome.data, columns), tokenize)
    requires outcome.ranking == Sorted(Scores(outcome.corpus, outcome.query, ln))
    requires AreIn(outcome.ranking, outcome.data)
    requires outcome.abstained == Abstains(outcome.ranking, Coverage(outcome.corpus, outcome.query), threshold)
    requires outcome.results == if outcome.abstained then [] else Hits(outcome.ranking, outcome.data, maxResults)
    ensures IsAnswer(outcome, columns, tokenize, maxResults, threshold, ln)
  {}

  predicate AreIn(ranking: seq<Ranked>, data: seq<Row>) {
    forall r <- ranking :: r.position < |data|
  }

  // The best rows with a positive score.
  function Hits(ranking: seq<Ranked>, data: seq<Row>, maxResults: nat): (results: seq<Row>)
    requires AreIn(ranking, data)
  {
    PositiveRows(if |ranking| <= maxResults then ranking else ranking[..maxResults], data)
  }

  function PositiveRows(ranking: seq<Ranked>, data: seq<Row>): (results: seq<Row>)
    requires AreIn(ranking, data)
    ensures forall row <- results :: exists r <- ranking :: r.score > 0.0 && data[r.position] == row
  {
    if ranking == [] then []
    else
      assert forall r <- ranking[1..] :: r in ranking;
      (if ranking[0].score > 0.0 then [data[ranking[0].position]] else []) + PositiveRows(ranking[1..], data)
  }

  lemma RankingPositions(corpus: Corpus, query: seq<string>, ln: real -> real)
    requires corpus != []
    ensures forall r <- Sorted(Scores(corpus, query, ln)) ::
              r.position < |corpus| && r.score == DirectScore(corpus, corpus[r.position], query, ln)
  {
    hide DirectScore, Sorted;
    var scores := Scores(corpus, query, ln);
    SortedRanks(scores);
    forall r | r in Sorted(scores)
      ensures r.position < |corpus| && r.score == DirectScore(corpus, corpus[r.position], query, ln)
    {
      assert r in multiset(Sorted(scores));
      assert r in InOrder(scores);
    }
  }

  // Main result: every result of a search is a row of the searched data whose own text contains a token of the query.
  lemma ResultsContainTheQuery(outcome: Outcome, columns: seq<string>, tokenize: string -> seq<string>, maxResults: nat,
                               threshold: Threshold, ln: real -> real, row: Row)
    requires IsAnswer(outcome, columns, tokenize, maxResults, threshold, ln) && IsLogarithm(ln)
    requires row in outcome.results
    ensures row in outcome.data && exists token <- outcome.query :: token in tokenize(TextOf(row, columns))
  {
    hide Sorted, Scores, DirectScore, Abstains, Coverage;
    var corpus, query := outcome.corpus, outcome.query;
    RankingPositions(corpus, query, ln);
    var r :| r in outcome.ranking && r.score > 0.0 && outcome.data[r.position] == row;
    assert corpus[r.position] in corpus;
    ScoreBounds(corpus, corpus[r.position], query, ln);
  }

  // A file that is not being written is searched as it is now, whatever was cached.
  lemma StableFileIsReadAnew(cached: Option<Signature>, current: Signature, attempts: seq<Attempt>)
    requires attempts != [] && forall a <- attempts :: a.before == a.after == current
    ensures forall signature :: IsToRead(cached, current, attempts, signature) <==> signature == current
  {
    assert IsFirstStable(attempts, 0);
    forall signature | IsToRead(cached, current, attempts, signature) ensures signature == current {
      OneToRead(cached, current, attempts, signature, current);
    }
  }

  lemma {:induction false} PositiveFront(ranking: seq<Ranked>, data: seq<Row>)
    requires AreIn(ranking, data) && IsOrdered(ranking)
    ensures var results := PositiveRows(ranking, data);
      && |results| <= |ranking|
      && (forall k :: 0 <= k < |results| ==> results[k] == data[ranking[k].position] && ranking[k].score > 0.0)
      && (forall k :: |results| <= k < |ranking| ==> ranking[k].score <= 0.0)
  {
    if ranking != [] {
      assert forall r <- ranking[1..] :: r in ranking;
      PositiveFront(ranking[1..], data);
      if ranking[0].score <= 0.0 {
        assert PositiveRows(ranking, data) == PositiveRows(ranking[1..], data);
        forall k | 0 < k < |ranking| ensures ranking[k].score <= 0.0 { assert IsBefore(ranking[0], ranking[k]); }
        assert forall k :: 0 <= k < |ranking[1..]| ==> ranking[1..][k].score <= 0.0;
        assert PositiveRows(ranking[1..], data) == [];
      }
    }
  }

  lemma HitsAreBest(ranking: seq<Ranked>, data: seq<Row>, maxResults: nat)
    requires AreIn(ranking, data) && IsOrdered(ranking)
    ensures var results := Hits(ranking, data, maxResults);
      && |results| <= maxResults && |results| <= |ranking|
      && (forall k :: 0 <= k < |results| ==>
            && ranking[k].position < |data| && results[k] == data[ranking[k].position] && ranking[k].score > 0.0)
      && (forall k, j :: 0 <= k < |results| <= j < |ranking| ==> ranking[k].score >= ranking[j].score)
      && (|results| < maxResults ==> forall j :: |results| <= j < |ranking| ==> ranking[j].score <= 0.0)
  {
    hide PositiveRows;
    var best := if |ranking| <= maxResults then ranking else ranking[..maxResults];
    var results := PositiveRows(best, data);
    PositiveFront(best, data);
    forall k, j | 0 <= k < |results| <= j < |ranking| ensures ranking[k].score >= ranking[j].score {
      assert IsBefore(ranking[k], ranking[j]);
    }
    if |results| < maxResults {
      forall j | |results| <= j < |ranking| ensures ranking[j].score <= 0.0 {
        if j < |best| {
          assert best[j] == ranking[j];
        } else {
          assert IsBefore(ranking[|results|], ranking[j]) && best[|results|] == ranking[|results|];
        }
      }
    }
  }

  // Main result: the results are the best rows, best first: as many as are asked for, or all with a positive score, and
  // no row that is left out scores higher than one of them.
  lemma ResultsAreBest(outcome: Outcome, columns: seq<string>, tokenize: string -> seq<string>, maxResults: nat,
                       threshold: Threshold, ln: real -> real)
    requires IsAnswer(outcome, columns, tokenize, maxResults, threshold, ln) && !outcome.abstained
    ensures var ranking, results := outcome.ranking, outcome.results;
      && |results| <= maxResults && |results| <= |ranking|
      && (forall k :: 0 <= k < |results| ==>
            && ranking[k].position < |outcome.data| && results[k] == outcome.data[ranking[k].position]
            && ranking[k].score > 0.0)
      && (forall k, j :: 0 <= k < |results| <= j < |ranking| ==> ranking[k].score >= ranking[j].score)
      && (|results| < maxResults ==> forall j :: |results| <= j < |ranking| ==> ranking[j].score <= 0.0)
  {
    hide Sorted, Scores, DirectScore, Abstains, Coverage, Hits, Documents, Tokenized, IsOrdered, AreIn;
    SortedRanks(Scores(outcome.corpus, outcome.query, ln));
    HitsAreBest(outcome.ranking, outcome.data, maxResults);
  }

  // ---------------------------------------------------------------- abstaining

  // The distinct query tokens, and those of them that occur in the text of some row.
  function Tokens(query: seq<string>): set<string> {
    set token | token in query
  }

  function Covered(outcome: Outcome, columns: seq<string>, tokenize: string -> seq<string>): set<string>
    requires outcome.Answer?
  {
    set token, row | token in Tokens(outcome.query) && row in outcome.data && token in tokenize(TextOf(row, columns))
      :: token
  }

  lemma CoverageIsShare(outcome: Outcome, columns: seq<string>, tokenize: string -> seq<string>)
    requires outcome.Answer? && outcome.corpus == Tokenized(Documents(outcome.data, columns), tokenize)
    ensures Coverage(outcome.corpus, outcome.query) * |Tokens(outcome.query)| as real
            == |Covered(outcome, columns, tokenize)| as real
  {
    hide Vocabulary, Covered, Documents, Tokenized;
    var tokens := Tokens(outcome.query);
    var vocabulary, covered := Vocabulary(outcome.corpus), Covered(outcome, columns, tokenize);
    assert tokens * vocabulary == covered by {
      forall token ensures token in tokens * vocabulary <==> token in covered {
        CoveredIs(outcome, columns, tokenize, token);
        VocabularyIs(outcome, columns, tokenize, token);
      }
    }
    ShareTimes(|Covered(outcome, columns, tokenize)|, tokens);
  }

  lemma ShareTimes(n: nat, tokens: set<string>)
    ensures tokens != {} ==> n as real / |tokens| as real * |tokens| as real == n as real
  {}

  lemma CoveredIs(outcome: Outcome, columns: seq<string>, tokenize: string -> seq<string>, token: string)
    requires outcome.Answer?
    ensures token in Covered(outcome, columns, tokenize) <==>
              token in outcome.query && exists row <- outcome.data :: token in tokenize(TextOf(row, columns))
  {
    hide TextOf;
    if token in outcome.query && exists row <- outcome.data :: token in tokenize(TextOf(row, columns)) {
      var row :| row in outcome.data && token in tokenize(TextOf(row, columns));
      assert token in Tokens(outcome.query);
    }
  }

  lemma VocabularyIs(outcome: Outcome, columns: seq<string>, tokenize: string -> seq<string>, token: string)
    requires outcome.Answer? && outcome.corpus == Tokenized(Documents(outcome.data, columns), tokenize)
    ensures token in Vocabulary(outcome.corpus) <==>
              exists row <- outcome.data :: token in tokenize(TextOf(row, columns))
  {
    if row :| row in outcome.data && token in tokenize(TextOf(row, columns)) {
      var i :| 0 <= i < |outcome.data| && outcome.data[i] == row;
      assert outcome.corpus[i] in outcome.corpus;
    }
    if token in Vocabulary(outcome.corpus) {
      var i :| 0 <= i < |outcome.corpus| && token in outcome.corpus[i];
      assert outcome.data[i] in outcome.data;
    }
  }

  lemma CoverageIsPositive(corpus: Corpus, query: seq<string>)
    ensures Coverage(corpus, query) >= 0.0
  {}

  // Every document is ranked.
  lemma RankOf(corpus: Corpus, query: seq<string>, ln: real -> real, i: nat) returns (r: Ranked)
    requires i < |corpus|
    ensures r in Sorted(Scores(corpus, query, ln)) && r == Ranked(i, DirectScore(corpus, corpus[i], query, ln))
  {
    hide Sorted, DirectScore;
    var scores := Scores(corpus, query, ln);
    SortedRanks(scores);
    r := InOrder(scores)[i];
    assert r in multiset(InOrder(scores));
  }

  // The best score is positive exactly when some document contains a token of the query.
  lemma BestIsPositiveIff(corpus: Corpus, query: seq<string>, ln: real -> real)
    requires corpus != [] && IsLogarithm(ln)
    ensures var ranking := Sorted(Scores(corpus, query, ln));
      && ranking != []
      && (ranking[0].score > 0.0 <==> exists doc <- corpus :: exists token <- query :: token in doc)
  {
    hide Sorted, Scores, DirectScore, IdfSum;
    var ranking := Sorted(Scores(corpus, query, ln));
    RankingPositions(corpus, query, ln);
    SortedRanks(Scores(corpus, query, ln));
    var first := RankOf(corpus, query, ln, 0);
    assert ranking[0] in ranking;
    var best := corpus[ranking[0].position];
    assert best in corpus;
    ScoreBounds(corpus, best, query, ln);
    if doc :| doc in corpus && exists token <- query :: token in doc {
      var i :| 0 <= i < |corpus| && corpus[i] == doc;
      var r := RankOf(corpus, query, ln, i);
      ScoreBounds(corpus, doc, query, ln);
      FirstIsBest(ranking, r);
    }
  }

  lemma FirstIsBest(ranking: seq<Ranked>, r: Ranked)
    requires IsOrdered(ranking) && r in ranking
    ensures ranking[0].score >= r.score
  {
    var j :| 0 <= j < |ranking| && ranking[j] == r;
    if j > 0 { assert IsBefore(ranking[0], ranking[j]); }
  }

  // A search without thresholds finds nothing exactly when no row's text contains a token of the query.
  lemma FindsNothingIff(outcome: Outcome, columns: seq<string>, tokenize: string -> seq<string>, maxResults: nat,
                        ln: real -> real)
    requires IsAnswer(outcome, columns, tokenize, maxResults, Threshold(0.0, 0.0, 0.0), ln) && IsLogarithm(ln)
    ensures outcome.abstained <==>
              forall row <- outcome.data :: forall token <- outcome.query :: token !in tokenize(TextOf(row, columns))
  {
    hide Sorted, Scores, DirectScore, Coverage, Hits, AreIn;
    var corpus, query := outcome.corpus, outcome.query;
    BestIsPositiveIff(corpus, query, ln);
    CoverageIsPositive(corpus, query);
    if doc :| doc in corpus && exists token <- query :: token in doc {
      var i :| 0 <= i < |corpus| && corpus[i] == doc;
      assert outcome.data[i] in outcome.data;
    }
    if row :| row in outcome.data && exists token <- query :: token in tokenize(TextOf(row, columns)) {
      var i :| 0 <= i < |outcome.data| && outcome.data[i] == row;
      assert corpus[i] in corpus;
    }
  }

  // ---------------------------------------------------------------- thresholds

  // A score above the least one and, if there is a margin, by it above each other score and above zero.
  ghost predicate IsClearBest(scores: seq<real>, i: int, threshold: Threshold) {
    && 0 <= i < |scores| && scores[i] > threshold.minScore
    && (threshold.minMargin > 0.0 ==>
          && (|scores| == 1 ==> scores[i] >= threshold.minMargin)
          && forall j :: 0 <= j < |scores| && j != i ==> scores[i] >= scores[j] + threshold.minMargin)
  }

  lemma RankingIs(scores: seq<real>)
    ensures |Sorted(scores)| == |scores|
    ensures forall r <- Sorted(scores) :: r.position < |scores| && r.score == scores[r.position]
    ensures forall i :: 0 <= i < |scores| ==> Ranked(i, scores[i]) in Sorted(scores)
  {
    hide Sorted;
    SortedRanks(scores);
    assert |multiset(Sorted(scores))| == |multiset(InOrder(scores))|;
    forall r | r in Sorted(scores) ensures r.position < |scores| && r.score == scores[r.position] {
      assert r in multiset(Sorted(scores));
      assert r in InOrder(scores);
    }
    forall i | 0 <= i < |scores| ensures Ranked(i, scores[i]) in Sorted(scores) {
      assert InOrder(scores)[i] in multiset(InOrder(scores));
    }
  }

  // The first rank is a clear best one exactly when some score is.
  lemma ClearBestIff(scores: seq<real>, threshold: Threshold)
    requires scores != []
    ensures var ranking := Sorted(scores);
      && ranking != []
      && ((exists i :: IsClearBest(scores, i, threshold)) <==>
            && ranking[0].score > threshold.minScore
            && (threshold.minMargin > 0.0 ==>
                  ranking[0].score - (if |ranking| > 1 then ranking[1].score else 0.0) >= threshold.minMargin))
  {
    hide Sorted, IsBefore;
    var ranking := Sorted(scores);
    RankingIs(scores);
    SortedRanks(scores);
    var top := ranking[0].position;
    assert ranking[0] in ranking;
    if i :| IsClearBest(scores, i, threshold) {
      FirstIsBest(ranking, Ranked(i, scores[i]));
      if threshold.minMargin > 0.0 {
        assert i == top;
        if |ranking| > 1 { assert ranking[1] in ranking; }
      }
    }
    forall j | 0 <= j < |scores| && j != top && |ranking| > 1 ensures scores[j] <= ranking[1].score {
      var k :| 0 <= k < |ranking| && ranking[k] == Ranked(j, scores[j]);
      assert k >= 1;
    }
    if ranking[0].score > threshold.minScore
       && (threshold.minMargin > 0.0 ==>
             ranking[0].score - (if |ranking| > 1 then ranking[1].score else 0.0) >= threshold.minMargin)
    {
      assert IsClearBest(scores, top, threshold);
    }
  }

  // Main result: a search answers exactly when one row is a clear best one and enough of the query's distinct tokens
  // occur in some row.
  lemma AnswersIff(outcome: Outcome, columns: seq<string>, tokenize: string -> seq<string>, maxResults: nat,
                   threshold: Threshold, ln: real -> real)
    requires IsAnswer(outcome, columns, tokenize, maxResults, threshold, ln)
    ensures var tokens, covered := |Tokens(outcome.query)|, |Covered(outcome, columns, tokenize)|;
      !outcome.abstained <==>
        && (exists i :: IsClearBest(Scores(outcome.corpus, outcome.query, ln), i, threshold))
        && (if tokens == 0 then threshold.minCoverage <= 0.0
            else covered as real >= threshold.minCoverage * tokens as real)
  {
    hide Sorted, Scores, Covered, Vocabulary, Hits, Documents, Tokenized, AreIn, IsClearBest;
    ClearBestIff(Scores(outcome.corpus, outcome.query, ln), threshold);
    CoverageIsShare(outcome, columns, tokenize);
    var tokens, coverage := |Tokens(outcome.query)|, Coverage(outcome.corpus, outcome.query);
    if tokens > 0 {
      AtLeastTimes(coverage, threshold.minCoverage, tokens as real);
    }
  }

  lemma AtLeastTimes(a: real, b: real, t: real)
    requires t > 0.0
    ensures a >= b <==> a * t >= b * t
  {}
}
